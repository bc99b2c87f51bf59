/** The two-regime reward strategy of reward.py, the one the environment calls:
    when hot (temp >= 75) reward a cut of the power limit, otherwise score the
    normalised new limit scaled down linearly between 70 and 75 degrees. The
    "large action scores 0" rule of its docstring sits inside a string literal
    in the source and so never runs; it is not part of this model either. */
module Reward {
  import opened Numeric

  /** `extra_factor = 1 + 0.05 * drop_amount`, floored at 1. */
  function ExtraFactor(drop: real): (x: real)
    ensures x >= 1.0
    ensures drop >= 0.0 ==> x == 1.0 + 0.05 * drop
  {
    var x := 1.0 + 0.05 * drop;
    if x < 1.0 then 1.0 else x
  }

  /** `early_factor = 1 - norm_pl_old` (reward.py:36-39, the normalisation written
      out inline), with no floor: zero once pl_old >= 275. */
  function EarlyFactor(plOld: real): (e: real)
    ensures 0.0 <= e <= 1.0
    ensures e == 0.0 <==> plOld >= 275.0
  {
    1.0 - NormPl(plOld)
  }

  /** `temp_factor`: 1 up to 70 degrees, then linear from 1 at 70 down to 0 at 75. */
  function TempFactor(temp: real): (f: real)
    requires temp < 75.0
    ensures 0.0 < f <= 1.0
    ensures temp <= 70.0 ==> f == 1.0
    ensures temp > 70.0 ==> f * 5.0 == 75.0 - temp
  {
    if temp <= 70.0 then 1.0 else (75.0 - temp) / 5.0
  }

  /** `compute_reward(temp, pl_old, pl_new)`. */
  function ComputeReward(temp: real, plOld: real, plNew: real): real
  {
    if temp >= 75.0 then
      if plNew < plOld then
        var drop := plOld - plNew;
        0.5 * drop * EarlyFactor(plOld) * ExtraFactor(drop)
      else -0.5
    else
      NormPl(plNew) * TempFactor(temp)
  }

  /** Hot without a cut: exactly -0.5. */
  lemma HotWithoutCut(temp: real, plOld: real, plNew: real)
    requires temp >= 75.0 && plNew >= plOld
    ensures ComputeReward(temp, plOld, plNew) == -0.5
  {
  }

  /** Hot with a cut: never negative; exactly zero when pl_old >= 275 (the early
      factor has no floor), strictly positive otherwise; the extra factor is the
      unclamped `1 + 0.05 * drop`. */
  lemma HotCut(temp: real, plOld: real, plNew: real)
    requires temp >= 75.0 && plNew < plOld
    ensures ExtraFactor(plOld - plNew) == 1.0 + 0.05 * (plOld - plNew)
    ensures ComputeReward(temp, plOld, plNew) >= 0.0
    ensures ComputeReward(temp, plOld, plNew) == 0.0 <==> plOld >= 275.0
  {
    var drop, e, x := plOld - plNew, EarlyFactor(plOld), ExtraFactor(plOld - plNew);
    ScaledProduct(drop, e, x);
  }

  /** The sign of `0.5 * drop * early * extra` for a positive drop and an extra
      factor of at least 1: zero exactly when the early factor is. */
  lemma ScaledProduct(drop: real, e: real, x: real)
    requires drop > 0.0 && 0.0 <= e && x >= 1.0
    ensures 0.5 * drop * e * x >= 0.0
    ensures 0.5 * drop * e * x == 0.0 <==> e == 0.0
  {
    assert 0.5 * drop > 0.0;
    if e > 0.0 {
      assert 0.5 * drop * e > 0.0;
      assert 0.5 * drop * e * x >= 0.5 * drop * e;
    }
  }

  /** Hot, pl_old below 275 and fixed: the reward strictly increases with the drop. */
  lemma HotRewardIncreasesWithDrop(temp: real, plOld: real, p1: real, p2: real)
    requires temp >= 75.0 && plOld < 275.0 && p1 < p2 <= plOld
    ensures ComputeReward(temp, plOld, p1) > ComputeReward(temp, plOld, p2)
  {
    HotCut(temp, plOld, p1);
    if p2 < plOld {
      var e := EarlyFactor(plOld);
      var d1, d2 := plOld - p2, plOld - p1;
      var x1, x2 := ExtraFactor(d1), ExtraFactor(d2);
      assert 1.0 <= x1 < x2;
      GrowingProduct(d1, x1, d2, x2, e);
    }
  }

  /** A larger drop with a larger extra factor gives a larger scaled product,
      for any positive early factor. */
  lemma GrowingProduct(d1: real, x1: real, d2: real, x2: real, e: real)
    requires 0.0 < d1 < d2 && 1.0 <= x1 < x2 && e > 0.0
    ensures 0.5 * d1 * e * x1 < 0.5 * d2 * e * x2
  {
    assert d1 * x1 < d2 * x2 by {
      assert d1 * x1 <= d1 * x2;
      assert d1 * x2 < d2 * x2;
    }
    assert 0.5 * d1 * e * x1 == 0.5 * e * (d1 * x1);
    assert 0.5 * d2 * e * x2 == 0.5 * e * (d2 * x2);
  }

  /** Below 75 degrees the reward is `norm(pl_new) * temp_factor`, in [0, 1],
      whatever pl_old is; at or below 70 it is `norm(pl_new)` itself; it is
      positive exactly when pl_new > 100. */
  lemma CoolRegime(temp: real, plOld: real, plNew: real, otherOld: real)
    requires temp < 75.0
    ensures ComputeReward(temp, plOld, plNew) == NormPl(plNew) * TempFactor(temp)
    ensures ComputeReward(temp, plOld, plNew) == ComputeReward(temp, otherOld, plNew)
    ensures 0.0 <= ComputeReward(temp, plOld, plNew) <= 1.0
    ensures temp <= 70.0 ==> ComputeReward(temp, plOld, plNew) == NormPl(plNew)
    ensures ComputeReward(temp, plOld, plNew) > 0.0 <==> plNew > 100.0
  {
    var n, f := NormPl(plNew), TempFactor(temp);
    assert n * f <= 1.0 by {
      assert n * f <= n * 1.0;
    }
    if n > 0.0 {
      assert n * f > 0.0;
    }
  }

  /** `temp_factor` is continuous, at 70 in particular: its two pieces agree
      there, and it never changes faster than 1/5 per degree. */
  lemma TempFactorContinuous(t1: real, t2: real)
    requires t1 < 75.0 && t2 < 75.0 && t1 <= t2
    ensures (75.0 - 70.0) / 5.0 == TempFactor(70.0) == 1.0
    ensures 0.0 <= TempFactor(t1) - TempFactor(t2) <= (t2 - t1) / 5.0
  {
  }

  /** A 175 W move is not zeroed (the large-action rule is dead text). */
  lemma LargeActionNotZeroed()
    ensures ComputeReward(60.0, 100.0, 275.0) == 1.0
    ensures ComputeReward(80.0, 200.0, 150.0) == 25.0 * (3.0 / 7.0) * 3.5
  {
    assert NormPl(200.0) == 4.0 / 7.0;
  }
}
