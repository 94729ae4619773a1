/** Python's `round(x, ndigits)` on exact reals: the nearest multiple of
    10^-ndigits, ties going to the even neighbour. Every public aggregate of the
    system is rounded to one decimal place this way; coordinates are rounded to
    two decimal places for the cache key. */
module Rounding {

  import opened Text

  /** The integer nearest to `y`; an exact tie goes to the even neighbour. */
  function RoundHalfEven(y: real): (n: int)
    ensures -0.5 <= n as real - y <= 0.5
  {
    var f := y.Floor;
    var frac := y - f as real;
    if frac < 0.5 then f
    else if frac > 0.5 then f + 1
    else if f % 2 == 0 then f
    else f + 1
  }

  /** A value strictly closer than one half to an integer rounds to that integer. */
  lemma RoundHalfEvenNearest(y: real, n: int)
    requires -0.5 < n as real - y < 0.5
    ensures RoundHalfEven(y) == n
  {
    var f := y.Floor;
    assert f as real <= y < f as real + 1.0;
  }

  /** A value exactly between two integers rounds to the even one. */
  lemma RoundHalfEvenTie(y: real)
    requires y - y.Floor as real == 0.5
    ensures RoundHalfEven(y) % 2 == 0
    ensures RoundHalfEven(y) == y.Floor || RoundHalfEven(y) == y.Floor + 1
  {
  }

  lemma RoundHalfEvenMonotone(x: real, y: real)
    requires x <= y
    ensures RoundHalfEven(x) <= RoundHalfEven(y)
  {
    assert x.Floor <= y.Floor;
  }

  /** Rounding keeps the sign: non-negative stays non-negative, non-positive stays non-positive. */
  lemma RoundHalfEvenSign(y: real)
    ensures y >= 0.0 ==> RoundHalfEven(y) >= 0
    ensures y <= 0.0 ==> RoundHalfEven(y) <= 0
  {
    assert RoundHalfEven(0.0) == 0;
    if y >= 0.0 {
      RoundHalfEvenMonotone(0.0, y);
    }
    if y <= 0.0 {
      RoundHalfEvenMonotone(y, 0.0);
    }
  }

  /** `round(x, p)` expressed as an integer number of units of 10^-p. */
  function RoundUnits(x: real, p: nat): (n: int)
    ensures -0.5 <= n as real - x * Pow10(p) as real <= 0.5
  {
    RoundHalfEven(x * Pow10(p) as real)
  }

  /** `r` is `x` to one decimal place: a whole number of tenths within half a tenth of `x`,
      and an even number of tenths when `x` lies exactly halfway. */
  predicate IsRound1(x: real, r: real) {
    && -0.05 <= r - x <= 0.05
    && (r * 10.0).Floor as real == r * 10.0
    && ((r - x == 0.05 || x - r == 0.05) ==> (r * 10.0).Floor % 2 == 0)
  }

  /** `round(x, 1)` */
  function Round1(x: real): (r: real)
    ensures -0.05 <= r - x <= 0.05
    ensures IsRound1(x, r)
  {
    var n := RoundHalfEven(x * 10.0);
    assert (n as real / 10.0 * 10.0).Floor == n;
    n as real / 10.0
  }

  /** At most one value is `x` to one decimal place, so `IsRound1` pins down `round(x, 1)`. */
  lemma IsRound1Unique(x: real, r: real, r': real)
    requires IsRound1(x, r) && IsRound1(x, r')
    ensures r == r'
  {
    var n, n' := (r * 10.0).Floor, (r' * 10.0).Floor;
    assert n as real == r * 10.0 && n' as real == r' * 10.0;
    if n != n' {
      assert false;
    }
  }

  lemma Round1Monotone(x: real, y: real)
    requires x <= y
    ensures Round1(x) <= Round1(y)
  {
    RoundHalfEvenMonotone(x * 10.0, y * 10.0);
  }

  /** A value that already has one decimal place is left alone. */
  lemma Round1Exact(n: int)
    ensures Round1(n as real / 10.0) == n as real / 10.0
  {
    RoundHalfEvenNearest(n as real / 10.0 * 10.0, n);
  }

  /** A difference rounds to a positive number exactly when it exceeds 0.05;
      0.05 itself is a tie and goes to the even neighbour 0.0. */
  lemma Round1Positive(x: real)
    ensures Round1(x) > 0.0 <==> x > 0.05
  {
    assert RoundHalfEven(0.5) == 0;
    if x > 0.05 {
      var y := x * 10.0;
      assert y > 0.5;
      assert RoundHalfEven(y) >= 1;
    } else {
      RoundHalfEvenMonotone(x * 10.0, 0.5);
    }
  }

  /** Rounding a difference never flips its sign. */
  lemma Round1Sign(x: real)
    ensures x <= 0.0 ==> Round1(x) <= 0.0
    ensures x >= 0.0 ==> Round1(x) >= 0.0
  {
    RoundHalfEvenSign(x * 10.0);
  }
}
