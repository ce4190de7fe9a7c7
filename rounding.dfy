/** The numeric value of `Number.prototype.toFixed` read back as a number
    (`parseFloat(x.toFixed(2))`), over exact reals: the nearest multiple of
    the last kept place, ties away from zero. Binary floating point is not
    modelled. The core uses two and zero decimal places. */
module Rounding {

  /** `x.toFixed(0)`: the integer nearest to `x`, ties away from zero
      (`toFixed` rounds the magnitude half up and puts the sign back). */
  function RoundHalfAway(x: real): (n: int)
    ensures x - 0.5 <= n as real <= x + 0.5
    ensures x >= 0.0 ==> n >= 0 && n as real > x - 0.5
    ensures x <= 0.0 ==> n <= 0 && n as real < x + 0.5
  {
    if x >= 0.0 then (x + 0.5).Floor else -((-x + 0.5).Floor)
  }

  /** An integer is its own rounding. */
  lemma RoundIntegerIsItself(n: int)
    ensures RoundHalfAway(n as real) == n
  {
  }

  /** Rounding is monotone. */
  lemma {:induction false} RoundMonotone(x: real, y: real)
    requires x <= y
    ensures RoundHalfAway(x) <= RoundHalfAway(y)
  {
    if x >= 0.0 {
      assert (x + 0.5).Floor <= (y + 0.5).Floor;
    } else if y <= 0.0 {
      assert (-y + 0.5).Floor <= (-x + 0.5).Floor;
    }
  }

  /** A value in [lo, hi] for integers lo and hi rounds into [lo, hi]. */
  lemma RoundWithin(x: real, lo: int, hi: int)
    requires lo as real <= x <= hi as real
    ensures lo <= RoundHalfAway(x) <= hi
  {
    RoundMonotone(lo as real, x);
    RoundMonotone(x, hi as real);
    RoundIntegerIsItself(lo);
    RoundIntegerIsItself(hi);
  }

  /** `parseFloat(x.toFixed(2))`: a whole number of cents within half a cent
      of `x`, a tie going away from zero. */
  function RoundToCents(x: real): (r: real)
    ensures (r * 100.0).Floor as real == r * 100.0
    ensures x - 0.005 <= r <= x + 0.005
    ensures x >= 0.0 ==> r >= 0.0 && r > x - 0.005
    ensures x <= 0.0 ==> r <= 0.0 && r < x + 0.005
  {
    var n := RoundHalfAway(x * 100.0);
    assert (n as real / 100.0) * 100.0 == n as real;
    n as real / 100.0
  }

  /** A value that is already a whole number of cents is kept. */
  lemma RoundToCentsKeepsCents(c: int)
    ensures RoundToCents(c as real / 100.0) == c as real / 100.0
  {
    assert (c as real / 100.0) * 100.0 == c as real;
    RoundIntegerIsItself(c);
  }

  /** Rounding to cents twice is rounding once. */
  lemma RoundToCentsIdempotent(x: real)
    ensures RoundToCents(RoundToCents(x)) == RoundToCents(x)
  {
    RoundToCentsKeepsCents(RoundHalfAway(x * 100.0));
  }

  /** Rounding to cents is monotone. */
  lemma RoundToCentsMonotone(x: real, y: real)
    requires x <= y
    ensures RoundToCents(x) <= RoundToCents(y)
  {
    RoundMonotone(x * 100.0, y * 100.0);
  }
}
