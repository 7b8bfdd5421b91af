/** Division facts the word arithmetic needs. */
module Arith {

  lemma ProductAtLeast(d: nat, k: int)
    requires 1 <= k
    ensures d <= d * k
  {
    if k > 1 {
      assert d * k == d * (k - 1) + d;
      ProductAtLeast(d, k - 1);
    }
  }

  lemma EqualQuotients(d: nat, q: int, r: nat, q': int, r': nat)
    requires r < d && r' < d && d * q + r == d * q' + r'
    ensures q == q' && r == r'
  {
    if q < q' {
      assert d * q' == d * q + d * (q' - q);
      ProductAtLeast(d, q' - q);
    } else if q' < q {
      assert d * q == d * q' + d * (q - q');
      ProductAtLeast(d, q - q');
    }
  }

  /** Quotient and remainder are the only pair of their kind. */
  lemma DivUnique(x: int, d: nat, q: int, r: nat)
    requires r < d && x == d * q + r
    ensures x / d == q && x % d == r
  {
    EqualQuotients(d, q, r, x / d, x % d);
  }

  lemma DivModAgain(m: int, n: nat)
    requires n > 0
    ensures m == n * (m / n) + m % n && m % n < n && (m >= 0 ==> 0 <= m / n)
  {
  }

  /** A quotient never exceeds the dividend, and is below it unless it is the
      whole of it. */
  lemma QuotientLe(m: nat, n: nat, k: nat)
    requires n > 0 && n * k <= m
    ensures k <= m && (n > 1 && m > 0 ==> k < m)
  {
    if k > 0 {
      ProductAtLeast(k, n);
      assert k * n == n * k;
      if n > 1 {
        assert k * n == k + k * (n - 1);
        ProductAtLeast(k, n - 1);
      }
    }
  }

  lemma NegativeProduct(x: int, y: int)
    ensures x * -y == -(x * y) && -x * y == -(x * y)
  {
  }

  function Pow2(n: nat): (p: nat)
    ensures p >= 1
  {
    if n == 0 then 1 else 2 * Pow2(n - 1)
  }

  lemma Regroup(k: int, a: int, b: int)
    ensures k * (a * b) == (k * a) * b
  {
  }

  lemma {:induction false} Pow2Sum(m: nat, n: nat)
    ensures Pow2(m + n) == Pow2(m) * Pow2(n)
  {
    if m > 0 {
      Pow2Sum(m - 1, n);
      Regroup(2, Pow2(m - 1), Pow2(n));
    }
  }
}
