/** Minima and maxima, and facts about quotients and remainders. */
module Arith {

  function Min(a: int, b: int): int { if a < b then a else b }

  function Max(a: int, b: int): int { if a < b then b else a }

  lemma MulDistr(a: int, b: int, c: int)
    ensures (a + b) * c == a * c + b * c
  {
  }

  lemma MulAssoc(a: int, b: int, c: int)
    ensures a * b * c == a * (b * c)
  {
  }

  lemma MulSame(a: int, b: int, c: int)
    requires a == b
    ensures a * c == b * c
  {
  }

  lemma MulLess(a: int, b: int, c: int)
    requires a < b && c > 0
    ensures a * c < b * c
  {
    MulDistr(a, b - a, c);
    MulPositive(b - a, c);
  }

  lemma MulPositive(a: int, b: int)
    requires a > 0 && b > 0
    ensures a * b > 0
  {
  }

  lemma MulBound(d: int, n: nat)
    requires n > 0
    ensures d >= 1 ==> d * n >= n
    ensures d <= -1 ==> d * n <= 0 - n
  {
    if d >= 1 {
      assert d * n == n + (d - 1) * n;
    } else if d <= -1 {
      assert d * n == 0 - n + (d + 1) * n;
    }
  }

  lemma DivModUnique(x: int, q: int, r: int, n: nat)
    requires n > 0 && 0 <= r < n && x == q * n + r
    ensures x / n == q && x % n == r
  {
    var d := q - x / n;
    assert d * n == q * n - (x / n) * n;
    MulBound(d, n);
  }

  /** Two numbers less than n apart have different remainders. */
  lemma ModApart(x: nat, y: nat, n: nat)
    requires n > 0 && x < y < x + n
    ensures x % n != y % n
  {
    var q, r := x / n, x % n;
    if r + (y - x) < n {
      DivModUnique(y, q, r + (y - x), n);
    } else {
      assert (q + 1) * n == q * n + n;
      DivModUnique(y, q + 1, r + (y - x) - n, n);
    }
  }

  lemma ModWraps(x: nat, n: nat)
    requires n > 0
    ensures (x + n) % n == x % n
  {
    assert (x / n + 1) * n == (x / n) * n + n;
    DivModUnique(x + n, x / n + 1, x % n, n);
  }
}
