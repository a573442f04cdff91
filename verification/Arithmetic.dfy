/** Division and remainder. */
module Arithmetic {

  lemma MulAtLeast(a: nat, n: nat)
    requires a >= 1
    ensures a * n >= n
  {
    assert a * n == (a - 1) * n + n;
  }

  lemma SmallMultiple(a: int, n: int)
    requires 0 <= n && -n < a * n < n
    ensures a == 0
  {
    if a >= 1 {
      MulAtLeast(a, n);
    } else if a <= -1 {
      assert (-a) * n == -(a * n);
      MulAtLeast(-a, n);
    }
  }

  lemma Quotient(x: nat, d: nat)
    requires d > 0
    ensures x == x / d * d + x % d && 0 <= x % d < d && x / d >= 0
  {
  }

  /** Quotient and remainder are the only way to split a number. */
  lemma DivMod(x: nat, n: nat, q: nat, r: nat)
    requires x == q * n + r && r < n
    ensures x / n == q && x % n == r
  {
    var d, m := x / n, x % n;
    assert x == d * n + m;
    assert (q - d) * n == m - r;
    SmallMultiple(q - d, n);
  }

  lemma NextMod(k: nat, n: nat)
    requires n > 0
    ensures (k + 1) % n == if k % n == n - 1 then 0 else k % n + 1
  {
    var q, r := k / n, k % n;
    if r == n - 1 {
      assert (q + 1) * n == q * n + n;
      DivMod(k + 1, n, q + 1, 0);
    } else {
      DivMod(k + 1, n, q, r + 1);
    }
  }

  lemma MulMono(m: nat, a: nat, b: nat)
    requires a <= b
    ensures m * a <= m * b
  {
    assert m * b == m * a + m * (b - a);
    assert m * (b - a) >= 0;
  }

  lemma MulStrict(m: nat, a: nat, b: nat)
    requires a < b
    ensures a * m + m <= b * m
  {
    MulMono(m, a + 1, b);
    assert m * (a + 1) == a * m + m;
  }

  lemma MulOrder(m: nat, a: nat, b: nat)
    requires m > 0
    ensures a < b <==> a * m < b * m
  {
    if a < b {
      MulStrict(m, a, b);
    } else {
      MulMono(m, b, a);
    }
  }

  lemma Distribute(a: int, b: int, c: int)
    ensures (a + b) * c == a * c + b * c
  {
  }

  lemma MulCancel(a: nat, b: nat, c: nat)
    requires c > 0 && a * c == b * c
    ensures a == b
  {
    if a < b {
      MulStrict(c, a, b);
    } else if b < a {
      MulStrict(c, b, a);
    }
  }

  lemma MulSwap(a: int, b: int, c: int)
    ensures a * b * c == b * (a * c) == a * (b * c)
  {
  }

  // ---------------------------------------------------------------- powers of two

  function Pow2(n: nat): (p: nat)
    ensures p > 0
  {
    if n == 0 then 1 else 2 * Pow2(n - 1)
  }

  lemma {:induction false} Pow2Add(m: nat, n: nat)
    ensures Pow2(m + n) == Pow2(m) * Pow2(n)
  {
    if m == 0 {
    } else {
      Pow2Add(m - 1, n);
      assert 2 * (Pow2(m - 1) * Pow2(n)) == (2 * Pow2(m - 1)) * Pow2(n);
    }
  }

  lemma {:induction false} Pow2Monotonic(m: nat, n: nat)
    requires m < n
    ensures 2 * Pow2(m) <= Pow2(n)
  {
    if m == n - 1 {
    } else {
      Pow2Monotonic(m, n - 1);
    }
  }

  lemma PowWords()
    ensures Pow2(11) == 0x800 && Pow2(20) == 0x10_0000 && Pow2(21) == 0x20_0000 && Pow2(22) == 0x40_0000 && Pow2(31) == 0x8000_0000 && Pow2(32) == 0x1_0000_0000
    ensures Pow2(52) == 0x10_0000_0000_0000 && Pow2(53) == 0x20_0000_0000_0000 && Pow2(54) == 0x40_0000_0000_0000
  {
    assert Pow2(4) == 16;
    Pow2Add(4, 4);
    Pow2Add(3, 8);
    Pow2Add(4, 8);
    Pow2Add(8, 8);
    Pow2Add(4, 16);
    Pow2Add(16, 16);
    Pow2Add(1, 20);
    Pow2Add(2, 20);
    Pow2Add(11, 20);
    Pow2Add(20, 32);
  }
}
