/** Division facts the solver does not find by itself. */
module Arithmetic {

  lemma MulAtLeast(n: int, k: int)
    requires n >= 0
    ensures k >= 1 ==> n * k >= n
    ensures k <= -1 ==> n * k <= -n
  {
    if k >= 1 { assert n * k - n == n * (k - 1) && n * (k - 1) >= 0; }
    if k <= -1 { assert n * k + n == n * (k + 1) && n * (k + 1) <= 0; }
  }

  /** Quotient and remainder are the only pair that fits. */
  lemma DivModOf(x: int, k: int, r: int, n: int)
    requires 0 <= r < n && x == n * k + r
    ensures x / n == k && x % n == r
  {
    var q, m := x / n, x % n;
    assert x == n * q + m;
    assert n * (q - k) == n * q - n * k;
    MulAtLeast(n, q - k);
  }

  /** Taking the remainder early does not change a sum's remainder. */
  lemma ModSuccessor(x: nat, n: nat)
    requires n > 0
    ensures (x % n + 1) % n == (x + 1) % n
  {
    var q, r := x / n, x % n;
    assert x == n * q + r;
    if r + 1 < n {
      DivModOf(x + 1, q, r + 1, n);
      DivModOf(r + 1, 0, r + 1, n);
    } else {
      assert n * (q + 1) == n * q + n;
      DivModOf(x + 1, q + 1, 0, n);
      DivModOf(r + 1, 1, 0, n);
    }
  }

  lemma Split(x: int, n: int)
    requires n > 0
    ensures x == n * (x / n) + x % n && 0 <= x % n < n
  {
  }

  /** Stepping past a multiple is what raises a quotient. */
  lemma DivStep(x: nat, n: nat)
    requires n > 0
    ensures (x + 1) / n == x / n + if (x + 1) % n == 0 then 1 else 0
  {
    var q, r := x / n, x % n;
    Split(x, n);
    if r + 1 < n {
      DivModOf(x + 1, q, r + 1, n);
    } else {
      assert n * (q + 1) == n * q + n;
      DivModOf(x + 1, q + 1, 0, n);
    }
  }

  /** A multiple of a multiple. */
  lemma MultipleOfMultiple(x: int, n: int, k: int)
    requires n > 0 && k > 0 && x % (n * k) == 0
    ensures x % n == 0
  {
    var q := x / (n * k);
    Split(x, n * k);
    assert x == n * (k * q);
    DivModOf(x, k * q, 0, n);
  }

  /** Sums of a multiple and a remainder compare by quotient, then by remainder. */
  lemma QuotientFirst(n: nat, q: int, r: nat, k: int, m: nat)
    requires r < n && m < n
    ensures n * q + r < n * k + m <==> q < k || (q == k && r < m)
  {
    assert n * q - n * k == n * (q - k);
    MulAtLeast(n, q - k);
  }

  lemma BelowMultiple(n: nat, q: nat, r: nat, limit: nat)
    requires r < n && q + 1 <= limit
    ensures 0 <= n * q + r < limit * n
  {
    QuotientFirst(n, q, r, limit, 0);
    assert n * limit == limit * n;
    MulAtLeast(n, q);
  }

  lemma SmallMod(x: nat, n: nat)
    requires x < n
    ensures x / n == 0 && x % n == x
  {
    DivModOf(x, 0, x, n);
  }

  /** The last multiple of n that is not above x. */
  function Floor(x: nat, n: nat): nat
    requires n > 0
  {
    n * (x / n)
  }

  lemma MultipleBelow(x: nat, n: nat)
    requires n > 0
    ensures 0 <= Floor(x, n) <= x < Floor(x, n) + n
    ensures Floor(x, n) % n == 0
  {
    Split(x, n);
    DivModOf(n * (x / n), x / n, 0, n);
  }

  /** Between a number and a multiple above it, its own block ends. */
  lemma BlockEnds(a: int, h: int, n: nat)
    requires n > 0 && h % n == 0 && a < h
    ensures a - a % n + n <= h
  {
    var q, k := a / n, h / n;
    Split(a, n);
    Split(h, n);
    QuotientFirst(n, q, a % n, k, 0);
    assert n * k - n * (q + 1) == n * (k - q - 1);
    MulAtLeast(n, k - q - 1);
  }

  /** A multiple of d below n leaves at least the remainder of n. */
  lemma LastMultiple(x: nat, n: nat, d: nat)
    requires d > 0 && x < n && x % d == 0
    ensures x + n % d <= n
  {
    Split(x, d);
    Split(n, d);
    QuotientFirst(d, x / d, 0, n / d, n % d);
    assert d * (n / d) - d * (x / d) == d * (n / d - x / d);
    MulAtLeast(d, n / d - x / d);
  }

  lemma WithoutRemainder(x: nat, n: nat)
    requires n > 0
    ensures x % n <= x && (x - x % n) % n == 0
  {
    MultipleBelow(x, n);
    Split(x, n);
  }

  /** Stepping back by one step keeps the remainder. */
  lemma ModMinus(x: int, n: int)
    requires n > 0
    ensures (x - n) % n == x % n
  {
    Split(x, n);
    assert n * (x / n - 1) == n * (x / n) - n;
    DivModOf(x - n, x / n - 1, x % n, n);
  }

  /** A positive multiple is at least the divisor. */
  lemma MultipleGap(x: int, n: int)
    requires n > 0 && x > 0 && x % n == 0
    ensures x >= n
  {
    if x < n { DivModOf(x, 0, x, n); }
  }

  /** x and y differ by a multiple of n exactly when they have the same remainder. */
  lemma SameRemainder(x: int, y: int, n: int)
    requires n > 0
    ensures (x - y) % n == 0 <==> x % n == y % n
  {
    Split(x, n);
    Split(y, n);
    if x % n == y % n {
      assert x - y == n * (x / n - y / n);
      DivModOf(x - y, x / n - y / n, 0, n);
    }
    if (x - y) % n == 0 {
      Split(x - y, n);
      assert x == n * ((x - y) / n + y / n) + y % n;
      DivModOf(x, (x - y) / n + y / n, y % n, n);
    }
  }
}
