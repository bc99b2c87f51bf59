/** Numeric helpers shared by the environment and the reward strategies:
    `numpy.clip` on a scalar, the power-limit normalisation, and Python's
    `int()` on a float. */
module Numeric {

  /** `np.clip(x, lo, hi)` on a scalar: `min(max(x, lo), hi)`. */
  function Clamp(x: real, lo: real, hi: real): (r: real)
    requires lo <= hi
    ensures lo <= r <= hi
    ensures x < lo ==> r == lo
    ensures x > hi ==> r == hi
    ensures lo <= x <= hi ==> r == x
  {
    if x < lo then lo else if x > hi then hi else x
  }

  /** The power-limit normalisation both reward strategies compute (the nested
      `get_norm_pl` of fast/reward.py, written out inline twice in reward.py):
      100 W maps to 0 and 275 W to 1, linearly in between, clamped outside. */
  function NormPl(v: real): (n: real)
    ensures 0.0 <= n <= 1.0
    ensures n == 0.0 <==> v <= 100.0
    ensures n == 1.0 <==> v >= 275.0
    ensures 100.0 <= v <= 275.0 ==> n * 175.0 == v - 100.0
  {
    var norm := (v - 100.0) / 175.0;
    if norm < 0.0 then 0.0 else if norm > 1.0 then 1.0 else norm
  }

  /** Python's `int(x)` on a float: truncation toward zero. */
  function Trunc(x: real): (n: int)
    ensures 0.0 <= x ==> 0 <= n && n as real <= x < n as real + 1.0
    ensures x < 0.0 ==> n <= 0 && n as real - 1.0 < x <= n as real
  {
    if x >= 0.0 then x.Floor else -((-x).Floor)
  }
}
