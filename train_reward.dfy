/** The reward strategy `reward_1` of train_reward_1.py: a flat penalty from
    80 degrees, a linear penalty from 75 to 80, and below 75 the normalised new
    power limit minus the squared normalised temperature. */
module TrainReward {

  /** `reward_1(temp, pl_old, pl_new)`. */
  function Reward1(temp: real, plOld: real, plNew: real): real
  {
    if temp >= 80.0 then -100.0
    else if temp >= 75.0 then -5.0 * (temp - 75.0)
    else (plNew - 100.0) / 175.0 - (temp / 75.0) * (temp / 75.0)
  }

  /** From 80 degrees: exactly -100. */
  lemma Overheated(temp: real, plOld: real, plNew: real)
    requires temp >= 80.0
    ensures Reward1(temp, plOld, plNew) == -100.0
  {
  }

  /** 75 <= temp < 80: `-5 * (temp - 75)`, in (-25, 0], and 0 at 75. */
  lemma WarmBand(temp: real, plOld: real, plNew: real)
    requires 75.0 <= temp < 80.0
    ensures Reward1(temp, plOld, plNew) == -5.0 * (temp - 75.0)
    ensures -25.0 < Reward1(temp, plOld, plNew) <= 0.0
    ensures Reward1(75.0, plOld, plNew) == 0.0
  {
  }

  /** On the band 75 <= temp < 80 the reward does not increase with temperature. */
  lemma WarmBandNonIncreasing(t1: real, t2: real, plOld: real, plNew: real)
    requires 75.0 <= t1 <= t2 < 80.0
    ensures Reward1(t1, plOld, plNew) >= Reward1(t2, plOld, plNew)
  {
  }

  /** Below 75 the reward strictly increases with the new power limit. */
  lemma CoolIncreasingInLimit(temp: real, plOld: real, p1: real, p2: real)
    requires temp < 75.0 && p1 < p2
    ensures Reward1(temp, plOld, p1) < Reward1(temp, plOld, p2)
  {
  }

  /** The previous power limit never matters. */
  lemma IndependentOfOldLimit(temp: real, a: real, b: real, plNew: real)
    ensures Reward1(temp, a, plNew) == Reward1(temp, b, plNew)
  {
  }

  /** From 75 degrees on the reward is never positive. */
  lemma HotNeverPositive(temp: real, plOld: real, plNew: real)
    requires temp >= 75.0
    ensures Reward1(temp, plOld, plNew) <= 0.0
  {
  }
}
