/** Facts about quotient and remainder that several modules share. */
module Arith {

  /** A nonzero multiple of `d` is at least `d` away from zero. */
  lemma MultipleAway(k: int, d: nat)
    ensures k == 0 || k * d >= d || k * d <= -(d as int)
  {
    if k >= 1 {
      assert k * d >= 1 * d;
    } else if k <= -1 {
      assert k * d <= -1 * d;
    }
  }

  /** Quotient and remainder are determined by `n == q * d + r` with `r < d`. */
  lemma DivModUnique(n: nat, d: nat, q: int, r: nat)
    requires r < d && n == q * d + r
    ensures n / d == q && n % d == r
  {
    var q', r' := n / d, n % d;
    assert n == q' * d + r';
    assert (q - q') * d == r' - r;
    MultipleAway(q - q', d);
  }

  lemma PositiveFactor(k: int, d: nat)
    ensures k * d > 0 ==> k > 0
  {
    if k <= 0 {
      assert k * d <= 0;
    }
  }

  lemma TimesMonotone(a: nat, b: nat, d: nat)
    requires a <= b
    ensures a * d <= b * d
  {
    assert b * d == a * d + (b - a) * d;
  }

  /** `n / d` is the largest number whose product with `d` is at most `n`. */
  lemma QuotientBounds(n: nat, d: nat)
    requires d > 0
    ensures (n / d) * d <= n < (n / d + 1) * d
  {
    assert n == (n / d) * d + n % d;
  }

  lemma QuotientAtLeast(n: nat, d: nat, k: nat)
    requires d > 0 && n >= k * d
    ensures n / d >= k
  {
    var q := n / d;
    QuotientBounds(n, d);
    assert (q + 1 - k) * d == (q + 1) * d - k * d;
    PositiveFactor(q + 1 - k, d);
  }

  lemma QuotientBelow(n: nat, d: nat, k: nat)
    requires d > 0 && n < k * d
    ensures n / d < k
  {
    var q := n / d;
    QuotientBounds(n, d);
    assert (k - q) * d == k * d - q * d;
    PositiveFactor(k - q, d);
  }

  lemma QuotientMonotone(n: nat, d: nat, e: nat)
    requires 0 < d <= e
    ensures n / d >= n / e
  {
    var q := n / e;
    QuotientBounds(n, e);
    TimesMonotone(d, e, q);
    assert q * d <= q * e;
    QuotientAtLeast(n, d, q);
  }
}
