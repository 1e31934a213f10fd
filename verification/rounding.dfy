/**
 * Rounding of order quantities to six decimal places, as Python's
 * `round(x, 6)` does on exact values: to the nearest multiple of 10^-6,
 * with exact halves going to the even neighbour.
 */
module Rounding {

  /** Quantities are expressed in millionths. */
  const Scale: real := 1000000.0

  /** `x` is a whole number of millionths: six decimal places suffice. */
  predicate IsMicro(x: real)
  {
    (x * Scale).Floor as real == x * Scale
  }

  /** The nearest whole number to `y`, ties to even. */
  function RoundHalfEven(y: real): (k: int)
    ensures y - 0.5 <= k as real <= y + 0.5
    ensures y.Floor <= k <= y.Floor + 1
    ensures y == y.Floor as real ==> k == y.Floor
    ensures y - y.Floor as real == 0.5 ==> k % 2 == 0
  {
    var n := y.Floor;
    var frac := y - n as real;
    if frac < 0.5 then n
    else if frac > 0.5 then n + 1
    else if n % 2 == 0 then n
    else n + 1
  }

  function Round6(x: real): (r: real)
    ensures IsMicro(r)
    ensures -0.5 <= (r - x) * Scale <= 0.5
    ensures IsMicro(x) ==> r == x
    ensures (x * Scale) - (x * Scale).Floor as real == 0.5 ==> (r * Scale).Floor % 2 == 0
  {
    var k := RoundHalfEven(x * Scale);
    assert (k as real / Scale) * Scale == k as real;
    k as real / Scale
  }

  /** Rounding never reverses the order of two quantities. */
  lemma {:induction false} RoundHalfEvenMonotone(y1: real, y2: real)
    requires y1 <= y2
    ensures RoundHalfEven(y1) <= RoundHalfEven(y2)
  {
    var n1, n2 := y1.Floor, y2.Floor;
    if n1 < n2 {
      assert RoundHalfEven(y1) <= n1 + 1 <= n2 <= RoundHalfEven(y2);
    } else {
      assert n1 == n2;
    }
  }

  lemma Round6Monotone(x1: real, x2: real)
    requires x1 <= x2
    ensures Round6(x1) <= Round6(x2)
  {
    RoundHalfEvenMonotone(x1 * Scale, x2 * Scale);
  }

  /** Six-decimal quantities pass through unchanged, so rounding is idempotent. */
  lemma Round6Idempotent(x: real)
    ensures Round6(Round6(x)) == Round6(x)
  {
  }

  /** Quantities at or above a six-decimal bound stay at or above it. */
  lemma Round6KeepsMicroLowerBound(x: real, bound: real)
    requires IsMicro(bound)
    requires bound <= x
    ensures bound <= Round6(x)
  {
    Round6Monotone(bound, x);
  }

  /**
   * Rounding to nearest can round a balance UP: the quantity asked for
   * exceeds what is held.
   */
  lemma Round6CanExceedInput()
    ensures Round6(0.9999999) == 1.0
    ensures Round6(0.9999999) > 0.9999999
  {
    assert 0.9999999 * Scale == 999999.9;
    assert (999999.9).Floor == 999999;
  }
}
