/**
 * Python's built-in `round` applied to an exact rational `a / n`:
 * the nearest integer, with exact halves going to the even neighbour.
 */
module Rounding {

  /** `r` is the integer nearest to `a / n`; on an exact half, `r` is the even candidate. */
  ghost predicate NearestHalfEven(a: int, n: int, r: int)
    requires n > 0
  {
    var twiceError := 2 * (a - n * r);
    && -n <= twiceError <= n
    && (twiceError == n || twiceError == -n ==> r % 2 == 0)
  }

  /**
   * Rounds `a / n` half-to-even using only integer arithmetic:
   * with `q` and `m` the quotient and remainder, a remainder below half keeps `q`,
   * above half gives `q + 1`, and exactly half picks whichever of the two is even.
   */
  function RoundHalfEven(a: int, n: int): (r: int)
    requires n > 0
    ensures NearestHalfEven(a, n, r)
  {
    var q := a / n;
    var m := a % n;
    assert a - n * q == m;
    assert n * (q + 1) == n * q + n;
    if 2 * m < n then q
    else if 2 * m > n then q + 1
    else if q % 2 == 0 then q
    else q + 1
  }

  /** A positive multiple of `n` that does not exceed `n` is `n` itself. */
  lemma SingleMultiple(n: int, k: int)
    requires n > 0 && k >= 1
    requires n * k <= n
    ensures k == 1
  {
  }

  /** The characterisation pins the rounded value down uniquely. */
  lemma NearestHalfEvenUnique(a: int, n: int, r1: int, r2: int)
    requires n > 0
    requires NearestHalfEven(a, n, r1) && NearestHalfEven(a, n, r2)
    ensures r1 == r2
  {
    if r1 != r2 {
      var lo, hi := if r1 < r2 then r1 else r2, if r1 < r2 then r2 else r1;
      assert NearestHalfEven(a, n, lo) && NearestHalfEven(a, n, hi);
      var eLo, eHi := a - n * lo, a - n * hi;
      assert -n <= 2 * eLo <= n && -n <= 2 * eHi <= n;
      var k := hi - lo;
      assert eLo - eHi == n * k by {
        assert n * hi == n * lo + n * k;
      }
      // So k is 1, both errors sit at their extremes, and both candidates are even ties.
      SingleMultiple(n, k);
    }
  }

  /** A positive factor can be cancelled from a strict inequality. */
  lemma CancelPositiveFactor(n: int, x: int, y: int)
    requires n > 0 && n * x < n * y
    ensures x < y
  {
  }

  /** A multiple of `n` within half of `n` from zero is zero. */
  lemma WithinHalfIsZero(n: int, k: int)
    requires n > 0 && -n <= 2 * (n * k) <= n
    ensures k == 0
  {
  }
}
