/** Rounding of a weighted total to two decimal places.

    The scorer rounds its total once, at the very end, with Python's
    `round(total, 2)`. This module models that step on exact reals: the value
    is scaled by 100, rounded to the nearest integer with ties going to the
    even neighbour, and scaled back. The only properties the rest of the model
    relies on are the ones proved here: the result is within half a hundredth
    of the input, it has at most two decimals, two-decimal values are left
    alone, and the step is monotone (non-decreasing). */
module Rounding {

  /** Nearest integer to `y`; an exact tie goes to the even neighbour. */
  function RoundHalfEven(y: real): (n: int)
    ensures y - 0.5 <= n as real <= y + 0.5
    ensures (n as real - y == 0.5 || y - n as real == 0.5) ==> n % 2 == 0
  {
    var f := y.Floor;
    var frac := y - f as real;
    if frac > 0.5 then f + 1
    else if frac < 0.5 then f
    else if f % 2 == 0 then f
    else f + 1
  }

  /** Rounding to the nearest integer never reverses the order of two inputs. */
  lemma RoundHalfEvenMonotone(a: real, b: real)
    requires a <= b
    ensures RoundHalfEven(a) <= RoundHalfEven(b)
  {
    // ra - 0.5 <= a <= b <= rb + 0.5, so ra > rb would force a == b
  }

  /** An integer is its own nearest integer. */
  lemma RoundHalfEvenOfInt(k: int)
    ensures RoundHalfEven(k as real) == k
  {
    assert (k as real).Floor == k;
  }

  /** Shifting the input by an even integer shifts the result by the same
      amount: the tie rule keeps its parity. */
  lemma RoundHalfEvenShiftEven(y: real, k: int)
    requires k % 2 == 0
    ensures RoundHalfEven(y + k as real) == RoundHalfEven(y) + k
  {
    assert (y + k as real).Floor == y.Floor + k;
  }

  /** `round(x, 2)`: `x` rounded to two decimal places, ties to even. */
  function Round2(x: real): (r: real)
    ensures x - 0.005 <= r <= x + 0.005
    ensures (r * 100.0).Floor as real == r * 100.0
  {
    var n := RoundHalfEven(x * 100.0);
    assert (n as real / 100.0) * 100.0 == n as real;
    n as real / 100.0
  }

  /** A value that already has two decimals is unchanged by rounding. */
  lemma {:induction false} Round2OfHundredths(k: int)
    ensures Round2(k as real / 100.0) == k as real / 100.0
  {
    assert (k as real / 100.0) * 100.0 == k as real;
    RoundHalfEvenOfInt(k);
  }

  /** Rounding is idempotent. */
  lemma Round2Idempotent(x: real)
    ensures Round2(Round2(x)) == Round2(x)
  {
    var r := Round2(x);
    var k := (r * 100.0).Floor;
    assert r == k as real / 100.0;
    Round2OfHundredths(k);
  }

  /** Rounding is monotone: it may merge two totals but never swaps them. */
  lemma Round2Monotone(a: real, b: real)
    requires a <= b
    ensures Round2(a) <= Round2(b)
  {
    RoundHalfEvenMonotone(a * 100.0, b * 100.0);
  }

  /** Adding 0.4 before rounding adds exactly 0.4 after it. */
  lemma Round2AddFortyHundredths(x: real)
    ensures Round2(x + 0.4) == Round2(x) + 0.4
  {
    assert (x + 0.4) * 100.0 == x * 100.0 + 40 as real;
    RoundHalfEvenShiftEven(x * 100.0, 40);
  }

  /** Zero and, with monotonicity, every non-negative value stay non-negative. */
  lemma Round2NonNegative(x: real)
    requires x >= 0.0
    ensures Round2(x) >= 0.0
  {
    Round2OfHundredths(0);
    Round2Monotone(0.0, x);
  }
}
