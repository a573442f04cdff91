/** Floating-point numbers as the two words that lib/math.c works on. */
module Doubles {
  import opened Arithmetic

  const WORD := 0x1_0000_0000
  const HIDDEN := 0x10_0000
  const INFINITE := 0x7ff0_0000

  /** A sign and the two words of the rest, the higher one first. */
  datatype Double = Double(negative: bool, hi: nat, lo: nat)

  predicate Shaped(x: Double) {
    x.hi < 0x8000_0000 && x.lo < WORD
  }

  predicate Finite(x: Double) {
    Shaped(x) && x.hi < INFINITE
  }

  predicate Null(x: Double) {
    x.hi == 0 && x.lo == 0
  }

  predicate NotANumber(x: Double) {
    x.hi > INFINITE || (x.hi == INFINITE && x.lo > 0)
  }

  /** Two words as one number. */
  function Two(hi: int, lo: int): int {
    hi * WORD + lo
  }

  function Exponent(hi: nat): nat {
    hi / HIDDEN
  }

  /** The absolute value of a finite number, as a multiple of the smallest one. */
  function Val(hi: nat, lo: nat): nat {
    if hi < HIDDEN then Two(hi, lo) else (Pow2(52) + Two(hi % HIDDEN, lo)) * Pow2(Exponent(hi) - 1)
  }

  /** A normal number lies between two powers of two. */
  lemma NormalBounds(hi: nat, lo: nat)
    requires HIDDEN <= hi && lo < WORD
    ensures var m := Pow2(52) + Two(hi % HIDDEN, lo); Pow2(52) <= m < Pow2(53)
    ensures Pow2(Exponent(hi) + 51) <= Val(hi, lo) < Pow2(Exponent(hi) + 52)
  {
    PowWords();
    var m, e := Pow2(52) + Two(hi % HIDDEN, lo), Exponent(hi) - 1;
    Pow2Add(52, e);
    Pow2Add(53, e);
    MulMono(Pow2(e), Pow2(52), m);
    MulMono(Pow2(e), m + 1, Pow2(53));
    assert Pow2(e) * (m + 1) == m * Pow2(e) + Pow2(e);
  }

  /** The order of the words is the order of the numbers. */
  lemma ValMonotonic(hi: nat, lo: nat, hi': nat, lo': nat)
    requires lo < WORD && lo' < WORD && Two(hi, lo) < Two(hi', lo')
    ensures Val(hi, lo) < Val(hi', lo')
  {
    if hi' < HIDDEN {
    } else if hi < HIDDEN {
      SmallBelowNormal(hi, lo, hi', lo');
    } else if Exponent(hi) == Exponent(hi') {
      SameExponent(hi, lo, hi', lo');
    } else {
      NormalBounds(hi, lo);
      NormalBounds(hi', lo');
      var e, e' := Exponent(hi), Exponent(hi');
      hide Val;
      if e + 1 < e' {
        Pow2Monotonic(e + 52, e' + 51);
      }
    }
  }

  lemma SmallBelowNormal(hi: nat, lo: nat, hi': nat, lo': nat)
    requires hi < HIDDEN <= hi' && lo < WORD && lo' < WORD
    ensures Val(hi, lo) < Val(hi', lo')
  {
    PowWords();
    assert Val(hi, lo) < Pow2(52);
    NormalBounds(hi', lo');
    hide Val;
    if Exponent(hi') > 1 {
      Pow2Monotonic(52, Exponent(hi') + 51);
    }
  }

  lemma SameExponent(hi: nat, lo: nat, hi': nat, lo': nat)
    requires HIDDEN <= hi && Exponent(hi) == Exponent(hi') && Two(hi, lo) < Two(hi', lo')
    ensures Val(hi, lo) < Val(hi', lo')
  {
    var e := Exponent(hi);
    assert hi == e * HIDDEN + hi % HIDDEN && hi' == e * HIDDEN + hi' % HIDDEN;
    MulStrict(Pow2(e - 1), Pow2(52) + Two(hi % HIDDEN, lo), Pow2(52) + Two(hi' % HIDDEN, lo'));
  }

  // ---------------------------------------------------------------- arithmetic in two words

  lemma TwoIs(hi: int, lo: int)
    ensures Two(hi, lo) == hi * WORD + lo
  {
  }

  /** The two words of twice a number. */
  function TwiceHi(h: int, l: nat): int {
    h + h + l / 0x8000_0000
  }

  function TwiceLo(l: nat): (r: nat)
    ensures r < WORD
  {
    (l + l) % WORD
  }

  lemma Twice(h: int, l: nat)
    requires l < WORD
    ensures Two(TwiceHi(h, l), TwiceLo(l)) == 2 * Two(h, l)
  {
    if l < 0x8000_0000 {
    } else {
      DivMod(l + l, WORD, 1, l + l - WORD);
    }
  }

  /** The two words of a difference. */
  function MinusHi(hx: int, lx: nat, hy: int, ly: nat): int {
    hx - hy - if lx < ly then 1 else 0
  }

  function MinusLo(lx: nat, ly: nat): (r: nat)
    ensures r < WORD
  {
    (lx - ly) % WORD
  }

  lemma Minus(hx: int, lx: nat, hy: int, ly: nat)
    requires lx < WORD && ly < WORD
    ensures Two(MinusHi(hx, lx, hy, ly), MinusLo(lx, ly)) == Two(hx, lx) - Two(hy, ly)
  {
  }

  /** The sign of the high word is that of the number. */
  lemma Signed(h: int, l: nat)
    requires l < WORD
    ensures h < 0 <==> Two(h, l) < 0
    ensures h == 0 && l == 0 <==> Two(h, l) == 0
    ensures Two(h, l) < 2 * HIDDEN * WORD ==> h < 2 * HIDDEN
  {
  }

  /** Twice a number in two words. */
  method Doubling(h: nat, l: nat) returns (h': nat, l': nat)
    requires l < WORD
    ensures l' < WORD && Two(h', l') == 2 * Two(h, l)
  {
    Twice(h, l);
    h', l' := TwiceHi(h, l), TwiceLo(l);
  }

  /** `ix` is the logarithm of a number, rounded down. */
  predicate IsLog(hi: nat, lo: nat, ix: int) {
    ix >= -1074 && Pow2(ix + 1074) <= Val(hi, lo) < 2 * Pow2(ix + 1074)
  }

  // ---------------------------------------------------------------- aligned mantissas

  /** The mantissa `m`, with its highest bit at 52, and the logarithm make up the number. */
  predicate IsMantissa(hi: nat, lo: nat, ix: int, m: int) {
    ix >= -1074 && Pow2(52) <= m < Pow2(53) && m * Pow2(ix + 1074) == Val(hi, lo) * Pow2(52)
  }

  lemma NormalMantissa(hi: nat, lo: nat)
    requires HIDDEN <= hi && lo < WORD
    ensures IsMantissa(hi, lo, Exponent(hi) - 1023, Two(HIDDEN + hi % HIDDEN, lo))
  {
    PowWords();
    NormalBounds(hi, lo);
    var m, e := Pow2(52) + Two(hi % HIDDEN, lo), Exponent(hi) - 1;
    Pow2Add(e, 52);
    MulSwap(m, Pow2(e), Pow2(52));
  }

  /** Shifting a small number until its highest bit is at 52. */
  lemma SmallMantissa(hi: nat, lo: nat, ix: int)
    requires hi < HIDDEN && lo < WORD && IsLog(hi, lo, ix) && ix < -1022
    ensures IsMantissa(hi, lo, ix, Val(hi, lo) * Pow2(-1022 - ix))
  {
    PowWords();
    var n, v := -1022 - ix, Val(hi, lo);
    Pow2Add(ix + 1074, n);
    MulMono(Pow2(n), Pow2(ix + 1074), v);
    MulStrict(Pow2(n), v, 2 * Pow2(ix + 1074));
    MulSwap(2, Pow2(ix + 1074), Pow2(n));
    MulSwap(v, Pow2(n), Pow2(ix + 1074));
  }

  /** Shifting two words left by less than a word. */
  lemma ShiftLeft(hi: nat, lo: nat, n: nat)
    requires lo < WORD && n <= 32
    ensures Two(hi * Pow2(n) + lo / Pow2(32 - n), lo * Pow2(n) % WORD) == Two(hi, lo) * Pow2(n)
  {
    hide Two;
    LowShift(lo, n);
    Distribute(hi * WORD, lo, Pow2(n));
    MulSwap(hi, WORD, Pow2(n));
    TwoIs(hi, lo);
    TwoIs(hi * Pow2(n) + lo / Pow2(32 - n), lo * Pow2(n) % WORD);
    Distribute(hi * Pow2(n), lo / Pow2(32 - n), WORD);
  }

  lemma LowShift(lo: nat, n: nat)
    requires lo < WORD && n <= 32
    ensures lo * Pow2(n) == lo / Pow2(32 - n) * WORD + lo * Pow2(n) % WORD
  {
    hide Pow2;
    PowWords();
    Pow2Add(n, 32 - n);
    Quotient(lo, Pow2(32 - n));
    LowShiftBy(lo, Pow2(n), Pow2(32 - n), lo / Pow2(32 - n), lo % Pow2(32 - n));
  }

  lemma LowShiftBy(lo: nat, p: nat, q: nat, d: nat, r: nat)
    requires p * q == WORD && lo == d * q + r && r < q && p > 0
    ensures lo * p == d * WORD + lo * p % WORD
  {
    MulStrict(p, r, q);
    MulSwap(d, q, p);
    Distribute(d * q, r, p);
    DivMod(lo * p, WORD, d, r * p);
  }

  /** Shifting two words, the higher of which is null, left by a word or more. */
  lemma ShiftFar(hi: nat, lo: nat, n: nat)
    requires hi == 0 && 32 <= n
    ensures Two(lo * Pow2(n - 32), 0) == Two(hi, lo) * Pow2(n)
  {
    PowWords();
    Pow2Add(n - 32, 32);
    MulSwap(lo, Pow2(n - 32), WORD);
  }

  lemma ShiftsLeft(x: nat, k: nat, n: nat)
    requires x > 0 && x * Pow2(k) < Pow2(n)
    ensures k < n
  {
    if k >= n {
      if k > n {
        Pow2Monotonic(n, k);
      }
      MulMono(Pow2(k), 1, x);
    }
  }

  /** The mantissa `m` and the logarithm `iy` make up `r`. */
  predicate Makes(m: int, iy: int, r: nat) {
    iy >= -1074 && r * Pow2(52) == m * Pow2(iy + 1074)
  }

  lemma PackNormal(h: nat, l: nat, iy: int, r: nat)
    requires HIDDEN <= h < 2 * HIDDEN && l < WORD && iy >= -1022 && Makes(Two(h, l), iy, r)
    ensures Val(h - HIDDEN + (iy + 1023) * HIDDEN, l) == r
  {
    PowWords();
    var m, hi := Two(h, l), h - HIDDEN + (iy + 1023) * HIDDEN;
    DivMod(hi, HIDDEN, iy + 1023, h - HIDDEN);
    Pow2Add(iy + 1022, 52);
    MulSwap(m, Pow2(iy + 1022), Pow2(52));
    MulCancel(r, m * Pow2(iy + 1022), Pow2(52));
    hide Pow2;
    MulAtLeast(iy + 1023, HIDDEN);
    assert Pow2(52) + Two(hi % HIDDEN, l) == m;
  }

  lemma ExponentFits(h: nat, iy: int)
    requires HIDDEN <= h < 2 * HIDDEN && -1022 <= iy < 1024
    ensures 0 <= h - HIDDEN + (iy + 1023) * HIDDEN < INFINITE
  {
  }
}
