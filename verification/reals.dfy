/** Python's `min`, `max` and `abs` on floats, modelled on reals. */
module Reals {

  function Min(a: real, b: real): real { if a <= b then a else b }

  function Max(a: real, b: real): real { if a >= b then a else b }

  function Abs(a: real): real { if a >= 0.0 then a else -a }

  /** `min(hi, max(lo, x))`: `x` pulled into `[lo, hi]`, unchanged when it is inside. */
  function Clamp(x: real, lo: real, hi: real): (c: real)
    requires lo <= hi
    ensures lo <= c <= hi
    ensures lo <= x <= hi ==> c == x
    ensures x < lo ==> c == lo
    ensures x > hi ==> c == hi
  {
    Min(hi, Max(lo, x))
  }
}
