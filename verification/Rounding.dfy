/** Python's `round`, half to even, on exact numbers. */
module Rounding {

  function RoundHalfEven(x: real): int {
    var low := x.Floor;
    var part := x - low as real;
    if part < 0.5 then low
    else if part > 0.5 then low + 1
    else if low % 2 == 0 then low
    else low + 1
  }

  /** Never more than half a unit off, and even when exactly half off. */
  lemma RoundingError(x: real)
    ensures -0.5 <= RoundHalfEven(x) as real - x <= 0.5
    ensures x - RoundHalfEven(x) as real == 0.5 || RoundHalfEven(x) as real - x == 0.5 ==> RoundHalfEven(x) % 2 == 0
  {
  }

  /** These two facts determine the result. */
  lemma RoundingUnique(x: real, n: int)
    requires -0.5 <= n as real - x <= 0.5
    requires x - n as real == 0.5 || n as real - x == 0.5 ==> n % 2 == 0
    ensures n == RoundHalfEven(x)
  {
    var r := RoundHalfEven(x);
    RoundingError(x);
    assert -1.0 <= (n - r) as real <= 1.0;
  }

  lemma RoundingMonotone(x: real, y: real)
    requires x <= y
    ensures RoundHalfEven(x) <= RoundHalfEven(y)
  {
  }

  lemma RoundingExact(n: int)
    ensures RoundHalfEven(n as real) == n
  {
  }
}
