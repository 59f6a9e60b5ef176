/** Facts about quotients and remainders by a variable. */
module Arithmetic {

  lemma NextMod(k: nat, n: nat)
    requires n > 0
    ensures (k + 1) % n == if k % n + 1 == n then 0 else k % n + 1
  {
    var q := k / n;
    if k % n + 1 == n {
      assert k + 1 == (q + 1) * n;
      ModOf(k + 1, q + 1, 0, n);
    } else {
      ModOf(k + 1, q, k % n + 1, n);
    }
  }

  lemma ModOf(x: nat, q: nat, rem: nat, n: nat)
    requires rem < n && x == q * n + rem
    ensures x % n == rem
  {
    var d := x / n - q;
    assert d * n == rem - x % n;
    if d >= 1 {
      MultipleIsFar(d, n);
    } else if d <= -1 {
      MultipleIsFar(-d, n);
    }
  }

  lemma MultipleIsFar(d: int, n: nat)
    requires d >= 1
    ensures d * n >= n
  {
  }

  lemma QuotientOf(x: nat, q: nat, rem: nat, n: nat)
    requires rem < n && x == q * n + rem
    ensures x / n == q && x % n == rem
  {
    ModOf(x, q, rem, n);
    var d := x / n - q;
    if d >= 1 {
      MultipleIsFar(d, n);
    } else if d <= -1 {
      MultipleIsFar(-d, n);
    }
  }

  lemma MultiplyLess(a: int, b: int, n: nat)
    requires n > 0
    ensures a < b <==> a * n < b * n
  {
  }

  /** a/b < c/d and c/d <= e/f give a/b < e/f. */
  lemma FractionLessAtMost(a: nat, b: nat, c: nat, d: nat, e: nat, f: nat)
    requires b > 0 && d > 0 && f > 0
    requires a * d < c * b && c * f <= e * d
    ensures a * f < e * b
  {
    MultiplyLess(a * d, c * b, f);
    MultiplyLess(e * d, c * f, b);
    assert (a * f) * d == (a * d) * f;
    assert (c * b) * f == (c * f) * b;
    assert (e * b) * d == (e * d) * b;
    MultiplyLess(a * f, e * b, d);
  }

  /** a/b <= c/d and c/d <= e/f give a/b <= e/f. */
  lemma FractionAtMost(a: nat, b: nat, c: nat, d: nat, e: nat, f: nat)
    requires b > 0 && d > 0 && f > 0
    requires a * d <= c * b && c * f <= e * d
    ensures a * f <= e * b
  {
    MultiplyLess(c * b, a * d, f);
    MultiplyLess(e * d, c * f, b);
    assert (a * f) * d == (a * d) * f;
    assert (c * b) * f == (c * f) * b;
    assert (e * b) * d == (e * d) * b;
    MultiplyLess(e * b, a * f, d);
  }
}
