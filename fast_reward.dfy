/** The three-regime reward strategy of fast/reward.py: reward a cut of the
    power limit when hot (temp >= 75), blend linearly in the band 70 <= temp < 75,
    and reward a raise when cool (temp < 70). Both directional branches floor
    the early factor at 0.1 so that no move out of an extreme scores zero. */
module FastReward {
  import opened Numeric

  /** The early factor of the hot branch: `1 - norm(pl_old)`, floored at 0.1. */
  function HotEarlyFactor(plOld: real): (e: real)
    ensures 0.1 <= e <= 1.0
  {
    var e := 1.0 - NormPl(plOld);
    if e < 0.1 then 0.1 else e
  }

  /** The early factor of the cool branch: `norm(pl_old)`, floored at 0.1. */
  function CoolEarlyFactor(plOld: real): (e: real)
    ensures 0.1 <= e <= 1.0
  {
    var e := NormPl(plOld);
    if e < 0.1 then 0.1 else e
  }

  /** The extra factor `1 + 0.3 * amount`, floored at 1. */
  function ExtraFactor(amount: real): (x: real)
    ensures x >= 1.0
    ensures amount >= 0.0 ==> x == 1.0 + 0.3 * amount
  {
    var x := 1.0 + 0.3 * amount;
    if x < 1.0 then 1.0 else x
  }

  /** The shaped score of a move of `amount` watts in the rewarded direction. */
  function Shaped(amount: real, early: real): real
  {
    0.5 * amount * early * ExtraFactor(amount)
  }

  /** `compute_reward(temp, pl_old, pl_new)`. The source returns `None` for a NaN
      temperature because no branch matches; reals have no NaN. */
  function ComputeReward(temp: real, plOld: real, plNew: real): real
  {
    if temp >= 75.0 then
      if plNew < plOld then Shaped(plOld - plNew, HotEarlyFactor(plOld)) else -1.0
    else if temp >= 70.0 then
      NormPl(plNew) * ((75.0 - temp) / 5.0)
    else
      if plNew > plOld then Shaped(plNew - plOld, CoolEarlyFactor(plOld)) else -1.0
  }

  /** A shaped score is strictly positive for a positive move. */
  lemma ShapedPositive(amount: real, early: real)
    requires amount > 0.0 && early > 0.0
    ensures Shaped(amount, early) > 0.0
  {
    var x := ExtraFactor(amount);
    assert amount * early > 0.0;
    assert amount * early * x >= amount * early;
  }

  /** A shaped score strictly grows with the size of the move, the early factor fixed. */
  lemma ShapedStrictlyIncreasing(a1: real, a2: real, early: real)
    requires 0.0 < a1 < a2 && early > 0.0
    ensures Shaped(a1, early) < Shaped(a2, early)
  {
    var x1, x2 := ExtraFactor(a1), ExtraFactor(a2);
    assert 1.0 <= x1 < x2;
    assert a1 * x1 < a2 * x2 by {
      assert a1 * x1 <= a1 * x2;
      assert a1 * x2 < a2 * x2;
    }
    assert a1 * early * x1 == (a1 * x1) * early;
    assert a2 * early * x2 == (a2 * x2) * early;
  }

  /** Hot (temp >= 75, and 75 itself is hot) without a cut: exactly -1. */
  lemma HotWithoutCut(temp: real, plOld: real, plNew: real)
    requires temp >= 75.0 && plNew >= plOld
    ensures ComputeReward(temp, plOld, plNew) == -1.0
  {
  }

  /** Hot with a cut: strictly positive, thanks to the 0.1 floor and the extra factor >= 1. */
  lemma HotCutPositive(temp: real, plOld: real, plNew: real)
    requires temp >= 75.0 && plNew < plOld
    ensures ComputeReward(temp, plOld, plNew) > 0.0
  {
    ShapedPositive(plOld - plNew, HotEarlyFactor(plOld));
  }

  /** Hot, pl_old fixed: the reward strictly increases with the drop `pl_old - pl_new`
      (the new limit `p1` is a deeper cut than `p2`; `p2` may be no cut at all). */
  lemma HotRewardIncreasesWithDrop(temp: real, plOld: real, p1: real, p2: real)
    requires temp >= 75.0 && p1 < p2 <= plOld
    ensures ComputeReward(temp, plOld, p1) > ComputeReward(temp, plOld, p2)
  {
    HotCutPositive(temp, plOld, p1);
    if p2 < plOld {
      ShapedStrictlyIncreasing(plOld - p2, plOld - p1, HotEarlyFactor(plOld));
    }
  }

  /** The band 70 <= temp < 75 scores `norm(pl_new) * (75 - temp) / 5`, in [0, 1],
      whatever pl_old is; the score is positive exactly when pl_new > 100. */
  lemma MidBand(temp: real, plOld: real, plNew: real, otherOld: real)
    requires 70.0 <= temp < 75.0
    ensures ComputeReward(temp, plOld, plNew) == NormPl(plNew) * (75.0 - temp) / 5.0
    ensures ComputeReward(temp, plOld, plNew) == ComputeReward(temp, otherOld, plNew)
    ensures 0.0 <= ComputeReward(temp, plOld, plNew) <= 1.0
    ensures ComputeReward(temp, plOld, plNew) > 0.0 <==> plNew > 100.0
  {
    var n, f := NormPl(plNew), (75.0 - temp) / 5.0;
    assert 0.0 < f <= 1.0;
    assert n * f <= 1.0 by {
      assert n * f <= n * 1.0;
    }
    if plNew > 100.0 {
      assert n > 0.0;
      assert n * f > 0.0;
    }
  }

  /** At temp = 70 the band scores exactly `norm(pl_new)`. */
  lemma MidBandLowerEdge(plOld: real, plNew: real)
    ensures ComputeReward(70.0, plOld, plNew) == NormPl(plNew)
  {
  }

  /** Cool (temp < 70) without a raise: exactly -1. */
  lemma CoolWithoutRaise(temp: real, plOld: real, plNew: real)
    requires temp < 70.0 && plNew <= plOld
    ensures ComputeReward(temp, plOld, plNew) == -1.0
  {
  }

  /** Cool with a raise: `0.5 * up * max(norm(pl_old), 0.1) * (1 + 0.3 * up)`, strictly positive. */
  lemma CoolRaisePositive(temp: real, plOld: real, plNew: real)
    requires temp < 70.0 && plNew > plOld
    ensures CoolEarlyFactor(plOld) == (if NormPl(plOld) < 0.1 then 0.1 else NormPl(plOld))
    ensures ComputeReward(temp, plOld, plNew)
         == 0.5 * (plNew - plOld) * CoolEarlyFactor(plOld) * (1.0 + 0.3 * (plNew - plOld))
    ensures ComputeReward(temp, plOld, plNew) > 0.0
  {
    ShapedPositive(plNew - plOld, CoolEarlyFactor(plOld));
  }

  /** Cool, pl_old fixed: the reward strictly increases with the raise. */
  lemma CoolRewardIncreasesWithRaise(temp: real, plOld: real, p1: real, p2: real)
    requires temp < 70.0 && plOld <= p1 < p2
    ensures ComputeReward(temp, plOld, p1) < ComputeReward(temp, plOld, p2)
  {
    CoolRaisePositive(temp, plOld, p2);
    if p1 > plOld {
      ShapedStrictlyIncreasing(p1 - plOld, p2 - plOld, CoolEarlyFactor(plOld));
    }
  }

  /** The 0.1 floor at the extremes: cutting from 275 W while hot, or raising
      from 100 W while cool, by a single watt still scores above zero. */
  lemma FloorAtExtremes()
    ensures ComputeReward(80.0, 275.0, 274.0) == 0.5 * 1.0 * 0.1 * 1.3
    ensures ComputeReward(60.0, 100.0, 101.0) == 0.5 * 1.0 * 0.1 * 1.3
  {
  }

  /** Worked values: a 50 W cut from 200 W at 80 degrees; an increase while hot;
      the band at 72 degrees with the limit at the top; temp = 75 belongs to the hot band. */
  lemma Scenarios()
    ensures ComputeReward(80.0, 200.0, 150.0) == 1200.0 / 7.0
    ensures ComputeReward(80.0, 150.0, 200.0) == -1.0
    ensures ComputeReward(72.0, 100.0, 275.0) == 0.6
    ensures ComputeReward(75.0, 200.0, 200.0) == -1.0
  {
    assert NormPl(200.0) == 4.0 / 7.0;
    assert HotEarlyFactor(200.0) == 3.0 / 7.0;
    assert ExtraFactor(50.0) == 16.0;
  }
}
