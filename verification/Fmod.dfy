/** The remainder of lib/math.c: shifting and subtracting in two words. */
module Fmod {
  import opened Arithmetic
  import opened Options
  import opened Doubles

  /** A number scaled by a power of two lies in an interval exactly when the number lies in the scaled one. */
  lemma Unscale(x: nat, a: nat, b: nat)
    requires Pow2(a + b) <= x * Pow2(b) < 2 * Pow2(a + b)
    ensures Pow2(a) <= x < 2 * Pow2(a)
  {
    Pow2Add(a, b);
    if x < Pow2(a) {
      MulStrict(Pow2(b), x, Pow2(a));
    }
    MulSwap(2, Pow2(a), Pow2(b));
    if x >= 2 * Pow2(a) {
      MulMono(Pow2(b), 2 * Pow2(a), x);
    }
  }

  lemma ShiftedLow(lo: nat, k: nat, i: nat)
    requires i == lo * Pow2(k) && 0x8000_0000 <= i < WORD && k <= 31
    ensures IsLog(0, lo, -1043 - k)
  {
    PowWords();
    Unscale(lo, 31 - k, k);
  }

  lemma ShiftedHigh(hi: nat, lo: nat, k: nat, i: nat)
    requires i == hi * 2048 * Pow2(k) && 0x8000_0000 <= i < WORD && k <= 20 && hi < HIDDEN && lo < WORD
    ensures IsLog(hi, lo, -1022 - k)
  {
    PowWords();
    Pow2Add(20, 11);
    MulSwap(hi, 2048, Pow2(k));
    Unscale(hi, 20 - k, k);
    Pow2Add(20 - k, 32);
  }

  lemma Doubled(x: nat, k: nat, i: nat)
    requires i == x * Pow2(k)
    ensures i * 2 == x * Pow2(k + 1)
  {
    assert x * (2 * Pow2(k)) == 2 * (x * Pow2(k));
  }

  /** The logarithm: from the exponent, or for a small number by looking for the highest bit. */
  method Ilogb(hx: nat, lx: nat) returns (ix: int)
    requires hx < INFINITE && lx < WORD && (hx > 0 || lx > 0)
    ensures IsLog(hx, lx, ix) && -1074 <= ix < 1024 && (ix >= -1022 <==> hx >= HIDDEN)
    ensures ix >= -1022 ==> ix == Exponent(hx) - 1023
  {
    if hx < HIDDEN {
      if hx == 0 {
        ix := LogOfLow(lx);
      } else {
        ix := LogOfHigh(hx, lx);
      }
    } else {
      ix := hx / HIDDEN - 1023;
      NormalBounds(hx, lx);
    }
  }

  method LogOfLow(lx: nat) returns (ix: int)
    requires 0 < lx < WORD
    ensures -1074 <= ix <= -1043 && IsLog(0, lx, ix)
  {
    hide IsLog;
    PowWords();
    assert Pow2(0) == 1;
    hide Pow2;
    var i: nat;
    ix, i := -1043, lx;
    while 0 < i < 0x8000_0000
      invariant -1074 <= ix <= -1043 && 0 < i < WORD && i == lx * Pow2(-1043 - ix)
      decreases WORD - i
    {
      Doubled(lx, -1043 - ix, i);
      ShiftsLeft(lx, -1043 - ix + 1, 32);
      i := i * 2;
      ix := ix - 1;
    }
    ShiftedLow(lx, -1043 - ix, i);
  }

  method LogOfHigh(hx: nat, lx: nat) returns (ix: int)
    requires 0 < hx < HIDDEN && lx < WORD
    ensures -1074 <= ix < -1022 && IsLog(hx, lx, ix)
  {
    hide IsLog;
    PowWords();
    assert Pow2(0) == 1;
    hide Pow2;
    var i: nat;
    ix, i := -1022, hx * 2048;
    while 0 < i < 0x8000_0000
      invariant -1042 <= ix <= -1022 && 0 < i < WORD && i == hx * 2048 * Pow2(-1022 - ix)
      invariant ix == -1022 ==> i < 0x8000_0000
      decreases WORD - i
    {
      Doubled(hx * 2048, -1022 - ix, i);
      HighShift(hx, -1022 - ix + 1);
      i := i * 2;
      ix := ix - 1;
    }
    ShiftedHigh(hx, lx, -1022 - ix, i);
  }

  lemma HighShift(hx: nat, k: nat)
    requires hx > 0 && hx * 2048 * Pow2(k) < WORD
    ensures k <= 20
  {
    PowWords();
    MulSwap(hx, 2048, Pow2(k));
    ShiftsLeft(hx, k, 21);
  }

  // ---------------------------------------------------------------- aligned mantissas

  /** Brings the highest bit of a number to bit 20 of the high word. */
  method Align(hx: nat, lx: nat, ix: int) returns (h: nat, l: nat)
    requires hx < INFINITE && lx < WORD && IsLog(hx, lx, ix) && (ix >= -1022 <==> hx >= HIDDEN)
    requires ix >= -1022 ==> ix == Exponent(hx) - 1023
    ensures l < WORD && h < 2 * HIDDEN && IsMantissa(hx, lx, ix, Two(h, l))
  {
    PowWords();
    if ix >= -1022 {
      NormalMantissa(hx, lx);
      h, l := HIDDEN + hx % HIDDEN, lx;
    } else {
      SmallMantissa(hx, lx, ix);
      var n := -1022 - ix;
      if n <= 31 {
        ShiftLeft(hx, lx, n);
        h := hx * Pow2(n) + lx / Pow2(32 - n);
        l := lx * Pow2(n) % WORD;
      } else {
        LowOnly(hx, lx, ix);
        ShiftFar(hx, lx, n);
        h, l := lx * Pow2(n - 32), 0;
      }
    }
  }

  lemma LowOnly(hi: nat, lo: nat, ix: int)
    requires hi < HIDDEN && IsLog(hi, lo, ix) && ix <= -1054
    ensures hi == 0
  {
    PowWords();
    if ix < -1054 {
      Pow2Monotonic(ix + 1074, 20);
    }
  }

  // ---------------------------------------------------------------- shifting and subtracting

  /** A multiple of the divisor does not matter. */
  lemma ModMinus(a: nat, b: nat, k: nat)
    requires b > 0 && b * k <= a
    ensures (a - b * k) % b == a % b
  {
    var q, r := (a - b * k) / b, (a - b * k) % b;
    assert a == (q + k) * b + r by { assert (q + k) * b == q * b + b * k; }
    DivMod(a, b, q + k, r);
  }

  lemma ScaledMod(a: nat, b: nat, c: nat)
    requires b > 0 && c > 0
    ensures b * c > 0 && a * c % (b * c) == a % b * c
  {
    var q, r := a / b, a % b;
    MulSwap(q, b, c);
    assert a * c == q * (b * c) + r * c by { assert (q * b + r) * c == q * b * c + r * c; }
    MulStrict(c, r, b);
    MulAtLeast(c, b);
    DivMod(a * c, b * c, q, r * c);
  }

  /** One step: the scaled remainder is as before. */
  lemma RemainderStep(x: nat, y: nat, n: nat)
    requires 0 < y && x < 2 * y && n > 0
    ensures x < y ==> 2 * x * Pow2(n - 1) % y == x * Pow2(n) % y
    ensures x >= y ==> 2 * (x - y) * Pow2(n - 1) % y == x * Pow2(n) % y
  {
    MulSwap(2, x, Pow2(n - 1));
    if x >= y {
      MulSwap(2, x - y, Pow2(n - 1));
      assert (x - y) * Pow2(n) == x * Pow2(n) - y * Pow2(n);
      ModMinus(x * Pow2(n), y, Pow2(n));
    }
  }

  /** The remainder of the scaled mantissa: shifts and subtracts `n` times.  No word overflows. */
  method ShiftAndSubtract(hx0: nat, lx0: nat, hy: nat, ly: nat, n0: nat) returns (hx: nat, lx: nat)
    requires lx0 < WORD && ly < WORD && hx0 < 2 * HIDDEN && hy < 2 * HIDDEN
    requires 0 < Two(hy, ly) && Two(hx0, lx0) < 2 * Two(hy, ly)
    ensures lx < WORD && hx < 2 * HIDDEN && Two(hx, lx) == Two(hx0, lx0) * Pow2(n0) % Two(hy, ly)
  {
    hide TwiceHi, TwiceLo, MinusHi, MinusLo, Two, Pow2;
    ghost var x0, y: nat := Two(hx0, lx0), Two(hy, ly);
    TwoIs(hx0, lx0);
    TwoIs(hy, ly);
    hx, lx := hx0, lx0;
    var n := n0;
    while n > 0
      invariant lx < WORD && Two(hx, lx) < 2 * y
      invariant Two(hx, lx) * Pow2(n) % y == x0 * Pow2(n0) % y
    {
      var hz, lz := MinusHi(hx, lx, hy, ly), MinusLo(lx, ly);
      Minus(hx, lx, hy, ly);
      Signed(hz, lz);
      TwoIs(hx, lx);
      RemainderStep(Two(hx, lx), y, n);
      n := n - 1;
      if hz < 0 {
        Twice(hx, lx);
        hx, lx := Doubling(hx, lx);
      } else {
        if hz == 0 && lz == 0 {
          NullRemainder(y, n);
          return 0, 0;
        }
        hx, lx := Doubling(hz, lz);
      }
    }
    var hz, lz := MinusHi(hx, lx, hy, ly), MinusLo(lx, ly);
    Minus(hx, lx, hy, ly);
    Signed(hz, lz);
    TwoIs(hx, lx);
    LastStep(Two(hx, lx), y);
    if hz >= 0 {
      hx, lx := hz, lz;
    }
    Signed(hx, lx);
  }

  lemma NullRemainder(y: nat, n: nat)
    requires y > 0
    ensures 2 * 0 * Pow2(n) % y == 0 && Two(0, 0) == 0
  {
  }

  lemma LastStep(x: nat, y: nat)
    requires 0 < y && x < 2 * y
    ensures x * Pow2(0) % y == if x < y then x else x - y
  {
    if x >= y {
      ModMinus(x, y, 1);
    }
  }

  // ---------------------------------------------------------------- back to a floating-point number

  lemma NotYetNormal(m: nat, iy: int, r: nat)
    requires Makes(m, iy, r) && 0 < m < Pow2(52)
    ensures iy > -1074 && Makes(2 * m, iy - 1, r)
  {
    assert r > 0 by {
      if r == 0 {
        MulAtLeast(m, Pow2(iy + 1074));
      }
    }
    MulAtLeast(r, Pow2(52));
    assert Pow2(0) == 1;
    if iy > -1074 {
      MulSwap(2, m, Pow2(iy + 1073));
    }
  }

  /** Shifts the remainder until its highest bit is in place. */
  method Normalize(hx0: nat, lx0: nat, iy0: int, ghost r: nat) returns (hx: nat, lx: nat, iy: int)
    requires lx0 < WORD && hx0 < 2 * HIDDEN && Two(hx0, lx0) > 0 && Makes(Two(hx0, lx0), iy0, r)
    ensures lx < WORD && HIDDEN <= hx < 2 * HIDDEN && iy <= iy0 && Makes(Two(hx, lx), iy, r)
  {
    hide Makes, Pow2, TwiceHi, TwiceLo;
    PowWords();
    hx, lx, iy := hx0, lx0, iy0;
    while hx < HIDDEN
      invariant lx < WORD && hx < 2 * HIDDEN && Two(hx, lx) > 0 && iy <= iy0
      invariant Makes(Two(hx, lx), iy, r)
      decreases 2 * HIDDEN * WORD - Two(hx, lx)
    {
      NotYetNormal(Two(hx, lx), iy, r);
      hx, lx := Doubling(hx, lx);
      iy := iy - 1;
    }
  }

  /** A small result is an exact multiple of the smallest number. */
  lemma PackSmall(m: nat, iy: int, r: nat)
    requires iy < -1022 && m < Pow2(53) && Makes(m, iy, r)
    ensures m == r * Pow2(-1022 - iy) && r < Pow2(52)
  {
    var n := -1022 - iy;
    Pow2Add(n, iy + 1074);
    MulSwap(r, Pow2(n), Pow2(iy + 1074));
    MulCancel(m, r * Pow2(n), Pow2(iy + 1074));
    if r >= Pow2(52) {
      assert Pow2(n) >= 2;
      MulMono(Pow2(n), Pow2(52), r);
      MulMono(Pow2(52), 2, Pow2(n));
    }
  }

  /** Shifting two words right by less than a word, when no bits are lost. */
  lemma ShiftRight(h: nat, l: nat, p: nat, q: nat, r: nat)
    requires p > 0 && q > 0 && p * q == WORD && l < WORD && Two(h, l) == r * p
    ensures Two(h / p, h * q % WORD + l / p) == r && 0 <= h * q % WORD + l / p < WORD && h / p >= 0
  {
    var a, b := h / p, h % p;
    Quotient(h, p);
    MulSwap(a, p, q);
    Distribute(a * p, b, q);
    MulStrict(q, b, p);
    DivMod(h * q, WORD, a, b * q);
    LowPart(h, l, p, q, r);
  }

  lemma LowPart(h: nat, l: nat, p: nat, q: nat, r: nat)
    requires p > 0 && q > 0 && p * q == WORD && l < WORD && Two(h, l) == r * p
    ensures r >= h * q && l / p == r - h * q < q
  {
    MulSwap(h, q, p);
    assert h * WORD == h * q * p;
    assert l == (r - h * q) * p by { Distribute(r, -(h * q), p); }
    if r < h * q {
      MulStrict(p, r, h * q);
    }
    DivMod(l, p, r - h * q, 0);
    if r - h * q >= q {
      MulMono(p, q, r - h * q);
    }
  }

  /** Puts a remainder that is not null together. */
  method Pack(negative: bool, hx0: nat, lx0: nat, iy: int, ghost r: nat) returns (x: Double)
    requires lx0 < WORD && HIDDEN <= hx0 < 2 * HIDDEN && iy < 1024 && Makes(Two(hx0, lx0), iy, r)
    ensures Finite(x) && x.negative == negative && Val(x.hi, x.lo) == r
  {
    hide Val, Makes, Pow2, Two;
    if iy >= -1022 {
      PackNormal(hx0, lx0, iy, r);
      ExponentFits(hx0, iy);
      x := Double(negative, hx0 - HIDDEN + (iy + 1023) * HIDDEN, lx0);
    } else {
      TwoBelow(hx0, lx0);
      PackSmall(Two(hx0, lx0), iy, r);
      var hx, lx := Shift(hx0, lx0, -1022 - iy, r);
      SmallIs(hx, lx, r);
      x := Double(negative, hx, lx);
    }
  }

  /** Shifts a small result to its place. */
  method Shift(hx0: nat, lx0: nat, n: nat, ghost r: nat) returns (hx: nat, lx: nat)
    requires lx0 < WORD && hx0 < 2 * HIDDEN && Two(hx0, lx0) == r * Pow2(n)
    ensures lx < WORD && Two(hx, lx) == r
  {
    hide Pow2, RightLo, RightHi;
    hx, lx := hx0, lx0;
    if n <= 20 {
      ShiftRightBy(hx, lx, n, r);
      lx := RightLo(hx, lx, n);
      hx := RightHi(hx, n);
    } else if n <= 31 {
      ShiftRightBy(hx, lx, n, r);
      lx := RightLo(hx, lx, n);
      hx := 0;
    } else {
      ShiftRightFar(hx, lx, n, r);
      lx, hx := RightHi(hx, n - 32), 0;
    }
  }

  /** The two words of a number shifted right; the bits of the two parts of the low word are apart. */
  function RightHi(h: nat, n: nat): int {
    h / Pow2(n)
  }

  function RightLo(h: nat, l: nat, n: nat): int
    requires n <= 31
  {
    h * Pow2(32 - n) % WORD + l / Pow2(n)
  }

  lemma TwoBelow(h: nat, l: nat)
    requires h < 2 * HIDDEN && l < WORD
    ensures 0 <= Two(h, l) < Pow2(53)
  {
    PowWords();
  }

  lemma SmallIs(h: nat, l: nat, r: nat)
    requires Two(h, l) == r && r < Pow2(52) && l < WORD
    ensures h < HIDDEN && Val(h, l) == r
  {
    PowWords();
  }

  lemma ShiftRightBy(h: nat, l: nat, n: nat, r: nat)
    requires n <= 31 && h < 2 * HIDDEN && l < WORD && Two(h, l) == r * Pow2(n)
    ensures Two(RightHi(h, n), RightLo(h, l, n)) == r && 0 <= RightLo(h, l, n) < WORD && 0 <= RightHi(h, n)
    ensures n > 20 ==> RightHi(h, n) == 0
  {
    hide Pow2, Two;
    PowWords();
    Pow2Add(n, 32 - n);
    ShiftRight(h, l, Pow2(n), Pow2(32 - n), r);
    if n > 20 {
      NoHighBits(h, n);
    }
  }

  lemma NoHighBits(h: nat, n: nat)
    requires h < 2 * HIDDEN && n > 20
    ensures RightHi(h, n) == 0
  {
    PowWords();
    if n > 21 {
      Pow2Monotonic(21, n);
    }
    DivMod(h, Pow2(n), 0, h);
  }

  /** Shifting right by a word or more. */
  lemma ShiftRightFar(h: nat, l: nat, n: nat, r: nat)
    requires n >= 32 && h < 2 * HIDDEN && l < WORD && Two(h, l) == r * Pow2(n)
    ensures 0 <= Two(0, RightHi(h, n - 32)) == r < WORD && 0 <= RightHi(h, n - 32)
  {
    PowWords();
    Pow2Add(n - 32, 32);
    MulSwap(r, Pow2(n - 32), WORD);
    DivMod(Two(h, l), WORD, h, l);
    DivMod(Two(h, l), WORD, r * Pow2(n - 32), 0);
    DivMod(h, Pow2(n - 32), r, 0);
    MulAtLeast(Pow2(n - 32), r);
  }

  // ---------------------------------------------------------------- the remainder

  function Rem(a: nat, b: nat): nat {
    if b == 0 then 0 else a % b
  }

  lemma LogsInOrder(hx: nat, lx: nat, ix: int, hy: nat, ly: nat, iy: int)
    requires IsLog(hx, lx, ix) && IsLog(hy, ly, iy) && Val(hy, ly) <= Val(hx, lx)
    ensures iy <= ix
  {
    if ix < iy {
      Pow2Monotonic(ix + 1074, iy + 1074);
    }
  }

  /** The remainder of the mantissas is the remainder of the numbers. */
  lemma Scales(vx: nat, vy: nat, mx: nat, my: nat, ix: int, iy: int)
    requires -1074 <= iy <= ix && my > 0 && vy > 0
    requires mx * Pow2(ix + 1074) == vx * Pow2(52) && my * Pow2(iy + 1074) == vy * Pow2(52)
    ensures Makes(mx * Pow2(ix - iy) % my, iy, vx % vy)
  {
    hide Pow2;
    var c := Pow2(iy + 1074);
    Pow2Add(ix - iy, iy + 1074);
    MulSwap(mx, Pow2(ix - iy), c);
    ScaledMod(mx * Pow2(ix - iy), my, c);
    ScaledMod(vx, vy, Pow2(52));
  }

  /** The remainder is exact for all finite numbers, and has the sign of the first.  There is none of an infinite
      number, nor by null. */
  method Fmod(x: Double, y: Double) returns (r: Option<Double>)
    requires Shaped(x) && Shaped(y)
    ensures r == None <==> Null(y) || !Finite(x) || NotANumber(y)
    ensures r.Some? ==> Finite(r.value) && r.value.negative == x.negative
    ensures r.Some? ==> Val(r.value.hi, r.value.lo) == if Finite(y) then Rem(Val(x.hi, x.lo), Val(y.hi, y.lo)) else Val(x.hi, x.lo)
  {
    var hx, lx, hy, ly := x.hi, x.lo, y.hi, y.lo;
    if (hy == 0 && ly == 0) || hx >= INFINITE || hy > INFINITE || (hy == INFINITE && ly > 0) {
      return None;
    }
    hide Val, IsLog, IsMantissa, Makes, Pow2, Two, Rem;
    Ordered(x, y);
    if hx <= hy {
      if hx < hy || lx < ly {
        return Some(x);
      }
      if lx == ly {
        NullIs();
        return Some(Double(x.negative, 0, 0));
      }
    }
    ghost var vx, vy := Val(hx, lx), Val(hy, ly);
    var ix := Ilogb(hx, lx);
    var iy := Ilogb(hy, ly);
    LogsInOrder(hx, lx, ix, hy, ly, iy);
    hx, lx := Align(hx, lx, ix);
    hy, ly := Align(hy, ly, iy);
    Mantissas(x, y, ix, iy, Two(hx, lx), Two(hy, ly));
    hx, lx := ShiftAndSubtract(hx, lx, hy, ly, ix - iy);
    Signed(hx, lx);
    if hx == 0 && lx == 0 {
      NullMakes(iy, Rem(vx, vy));
      NullIs();
      return Some(Double(x.negative, 0, 0));
    }
    hx, lx, iy := Normalize(hx, lx, iy, Rem(vx, vy));
    var packed := Pack(x.negative, hx, lx, iy, Rem(vx, vy));
    r := Some(packed);
  }

  lemma NullIs()
    ensures Val(0, 0) == 0
  {
  }

  lemma NullMakes(iy: int, r: nat)
    requires Makes(0, iy, r)
    ensures r == 0
  {
    if r > 0 {
      MulAtLeast(r, Pow2(52));
    }
  }

  /** The words are in the order of the numbers, and a smaller number is its own remainder. */
  lemma Ordered(x: Double, y: Double)
    requires Shaped(x) && Shaped(y) && !Null(y)
    ensures var vx, vy := Val(x.hi, x.lo), Val(y.hi, y.lo);
            && vy > 0
            && (if x.hi < y.hi || (x.hi == y.hi && x.lo < y.lo) then vx < vy && Rem(vx, vy) == vx
                else vy <= vx && (x.hi == y.hi && x.lo == y.lo ==> Rem(vx, vy) == 0))
  {
    ValMonotonic(0, 0, y.hi, y.lo);
    if Two(x.hi, x.lo) < Two(y.hi, y.lo) {
      ValMonotonic(x.hi, x.lo, y.hi, y.lo);
      DivMod(Val(x.hi, x.lo), Val(y.hi, y.lo), 0, Val(x.hi, x.lo));
    } else if Two(y.hi, y.lo) < Two(x.hi, x.lo) {
      ValMonotonic(y.hi, y.lo, x.hi, x.lo);
    }
    hide Val;
  }

  lemma Mantissas(x: Double, y: Double, ix: int, iy: int, mx: int, my: int)
    requires IsMantissa(x.hi, x.lo, ix, mx) && IsMantissa(y.hi, y.lo, iy, my) && iy <= ix && Val(y.hi, y.lo) > 0
    ensures 0 < my && 0 <= mx < 2 * my
    ensures Makes(mx * Pow2(ix - iy) % my, iy, Rem(Val(x.hi, x.lo), Val(y.hi, y.lo)))
  {
    PowWords();
    Scales(Val(x.hi, x.lo), Val(y.hi, y.lo), mx, my, ix, iy);
  }
}
