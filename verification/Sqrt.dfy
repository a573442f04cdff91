/** The square root of lib/math.c: one bit at a time, in two words. */
module Sqrt {
  import opened Arithmetic
  import opened Options
  import opened Doubles

  // ---------------------------------------------------------------- one bit of a root

  /** `p` is the root of `n` but for the bits below `w`, and `y` is what remains, scaled. */
  predicate PartOf(n: nat, p: nat, w: nat, y: int) {
    y * w == 2 * (n - p * p) && p * p <= n < (p + w) * (p + w)
  }

  lemma Square(p: int, r: int)
    ensures (p + r) * (p + r) == p * p + 2 * p * r + r * r
  {
  }

  /** With `r` the bit to find, the test `2 p + r <= y` tells whether the root has it. */
  lemma OneBit(n: nat, p: nat, r: nat, y: int)
    requires r > 0 && PartOf(n, p, 2 * r, y)
    ensures 2 * p + r <= y ==> PartOf(n, p + r, r, 2 * (y - (2 * p + r)))
    ensures 2 * p + r > y ==> PartOf(n, p, r, 2 * y)
  {
    Square(p, r);
    MulSwap(y, 2, r);
    assert y * r == n - p * p;
    Distribute(2 * p, r, r);
    if 2 * p + r <= y {
      MulMonoInt(r, 2 * p + r, y);
      Distribute(y, -(2 * p + r), r);
      assert (p + r) + r == p + 2 * r;
      MulSwap(2, y - (2 * p + r), r);
    } else {
      MulStrictInt(r, y, 2 * p + r);
      MulSwap(2, y, r);
    }
  }

  lemma MulMonoInt(m: nat, a: int, b: int)
    requires a <= b
    ensures a * m <= b * m
  {
    Distribute(b - a, a, m);
    assert (b - a) * m >= 0;
  }

  lemma MulStrictInt(m: nat, a: int, b: int)
    requires a < b && m > 0
    ensures a * m < b * m
  {
    MulMonoInt(m, a + 1, b);
    Distribute(a, 1, m);
  }

  /** What remains fits the two words. */
  lemma Remains(n: nat, p: nat, w: nat, y: int)
    requires w > 0 && PartOf(n, p, w, y)
    ensures 0 <= y < 4 * p + 2 * w
    ensures y == 0 <==> n == p * p
  {
    Square(p, w);
    MulSwap(2, p, w);
    Distribute(4 * p, 2 * w, w);
    if y >= 4 * p + 2 * w {
      MulMonoInt(w, 4 * p + 2 * w, y);
    }
    if y < 0 {
      MulStrictInt(w, y, 0);
    }
    if y > 0 {
      MulStrictInt(w, 0, y);
    }
  }

  // ---------------------------------------------------------------- the bits in two words

  /** The bit before the lowest `k`, or none. */
  function Bit(k: nat): nat {
    if k == 0 then 0 else Pow2(k - 1)
  }

  lemma NextBit(k: nat)
    requires k > 0
    ensures Bit(k) / 2 == Bit(k - 1) && Pow2(k) == 2 * Bit(k) && Bit(k) == Pow2(k - 1)
  {
  }

  /** Two words are compared the higher one first. */
  lemma Compare(h: int, l: nat, h': int, l': nat)
    requires l < WORD && l' < WORD
    ensures h < h' || (h == h' && l <= l') <==> Two(h, l) <= Two(h', l')
  {
  }

  lemma CompareHigh(h: int, h': int, l': nat)
    requires l' < WORD
    ensures h <= h' <==> Two(h, 0) <= Two(h', l')
  {
  }

  /** The invariant of the first loop. */
  predicate High(n: nat, q: nat, s0: int, k: nat, ix0: int, ix1: nat) {
    ix1 < WORD && s0 == 2 * q && q + Pow2(k) <= Pow2(22) && PartOf(n, q * WORD, Pow2(k) * WORD, Two(ix0, ix1))
  }

  lemma HighStep(n: nat, q: nat, s0: int, k: nat, ix0: int, ix1: nat)
    requires k > 0 && High(n, q, s0, k, ix0, ix1)
    ensures var r := Bit(k); var t := s0 + r;
            if t <= ix0 then High(n, q + r, t + r, k - 1, TwiceHi(ix0 - t, ix1), TwiceLo(ix1))
            else High(n, q, s0, k - 1, TwiceHi(ix0, ix1), TwiceLo(ix1))
  {
    hide PartOf, TwiceHi, TwiceLo;
    NextBit(k);
    var r := Bit(k);
    var t := s0 + r;
    CompareHigh(t, ix0, ix1);
    MulSwap(2, r, WORD);
    Distribute(2 * q, r, WORD);
    Distribute(q, r, WORD);
    MulSwap(2, q, WORD);
    OneBit(n, q * WORD, r * WORD, Two(ix0, ix1));
    Twice(ix0 - t, ix1);
    Twice(ix0, ix1);
  }

  /** The first 22 bits of the root. */
  method HighBits(ix00: int, ix10: nat, ghost n: nat) returns (q: nat, s0: int, ix0: int, ix1: nat)
    requires ix10 < WORD && PartOf(n, 0, Pow2(54), Two(ix00, ix10))
    ensures High(n, q, s0, 0, ix0, ix1)
  {
    hide High, TwiceHi, TwiceLo, Two;
    q, s0, ix0, ix1 := 0, 0, ix00, ix10;
    ghost var k: nat := 22;
    HighStart(n, ix0, ix1);
    var r := 0x20_0000;
    while r != 0
      invariant k <= 22 && r == Bit(k) && High(n, q, s0, k, ix0, ix1)
      decreases r
    {
      HighStep(n, q, s0, k, ix0, ix1);
      NextBit(k);
      var t := s0 + r;
      if t <= ix0 {
        s0 := t + r;
        ix0 := ix0 - t;
        q := q + r;
      }
      ix0, ix1 := TwiceHi(ix0, ix1), TwiceLo(ix1);
      r := r / 2;
      k := k - 1;
    }
  }

  lemma HighStart(n: nat, ix0: int, ix1: nat)
    requires ix1 < WORD && PartOf(n, 0, Pow2(54), Two(ix0, ix1))
    ensures High(n, 0, 0, 22, ix0, ix1) && Bit(22) == 0x20_0000
  {
    PowWords();
    Pow2Add(22, 32);
  }

  /** The invariant of the second loop: the words `s0` and `s1` are twice the root so far. */
  predicate Low(n: nat, q: nat, q1: nat, s0: int, s1: nat, k: nat, a: nat, ix0: int, ix1: nat) {
    && ix1 < WORD && s1 < WORD && q1 == a * Pow2(k) && q1 + Pow2(k) <= WORD && k <= 32
    && Two(s0, s1) == 2 * Two(q, q1) && PartOf(n, Two(q, q1), Pow2(k), Two(ix0, ix1))
  }

  lemma LowStart(n: nat, q: nat, s0: int, ix0: int, ix1: nat)
    requires High(n, q, s0, 0, ix0, ix1)
    ensures Low(n, q, 0, s0, 0, 32, 0, ix0, ix1) && Bit(32) == 0x8000_0000
  {
    PowWords();
    assert Pow2(0) == 1;
  }

  /** Adding the bit to the double root carries only in the first round. */
  lemma Carry(q1: nat, s0: int, s1: nat, k: nat, a: nat, q: nat)
    requires 0 < k <= 32 && s1 < WORD && q1 == a * Pow2(k) && q1 + Pow2(k) <= WORD && Two(s0, s1) == 2 * Two(q, q1)
    ensures var r := Bit(k);
            && s1 + r < WORD
            && (s1 + r >= 0x8000_0000 && (s1 + r + r) % WORD < 0x8000_0000 <==> s1 + r + r >= WORD)
  {
    hide Pow2, Bit, Two;
    NextBit(k);
    if k == 32 {
      FirstBit(a, q, s0, s1);
    } else {
      BelowHalf(a, k);
      NoCarry(q1, s0, s1, q, Pow2(k));
    }
    CarryIs(s1, Bit(k));
  }

  lemma FirstBit(a: nat, q: nat, s0: int, s1: nat)
    requires a * Pow2(32) + Pow2(32) <= WORD && s1 < WORD && Two(s0, s1) == 2 * Two(q, a * Pow2(32))
    ensures a == 0 && Bit(32) == 0x8000_0000 && s1 == 0
  {
    PowWords();
    Unique(s0, s1, 2 * q, 0);
  }

  lemma CarryIs(s1: nat, r: nat)
    requires r > 0 && (s1 + 4 * r <= WORD || (s1 == 0 && r == 0x8000_0000))
    ensures s1 + r < WORD
    ensures s1 + r >= 0x8000_0000 && (s1 + r + r) % WORD < 0x8000_0000 <==> s1 + r + r >= WORD
  {
  }

  /** Multiples of a smaller power of two do not lie across the middle of a word. */
  lemma BelowHalf(a: nat, k: nat)
    requires k < 32
    ensures a * Pow2(k) + Pow2(k) <= 0x8000_0000 || a * Pow2(k) >= 0x8000_0000
  {
    hide Pow2;
    PowWords();
    Pow2Add(31 - k, k);
    if a < Pow2(31 - k) {
      MulStrict(Pow2(k), a, Pow2(31 - k));
    } else {
      MulMono(Pow2(k), Pow2(31 - k), a);
    }
  }

  lemma NoCarry(q1: nat, s0: int, s1: nat, q: nat, w: nat)
    requires w > 0 && s1 < WORD && Two(s0, s1) == 2 * Two(q, q1) && q1 + w <= WORD && (q1 + w <= 0x8000_0000 || q1 >= 0x8000_0000)
    ensures s1 + 2 * w <= WORD
  {
    if q1 < 0x8000_0000 {
      Unique(s0, s1, 2 * q, 2 * q1);
    } else {
      Unique(s0, s1, 2 * q + 1, 2 * q1 - WORD);
    }
  }

  lemma Unique(h: int, l: nat, h': int, l': nat)
    requires l < WORD && l' < WORD && Two(h, l) == Two(h', l')
    ensures h == h' && l == l'
  {
  }

  lemma LowTake(q: nat, q1: nat, s0: int, s1: nat, k: nat, a: nat)
    requires 0 < k <= 32 && s1 < WORD && q1 == a * Pow2(k) && q1 + Pow2(k) <= WORD && Two(s0, s1) == 2 * Two(q, q1)
    ensures var r := Bit(k); var t1 := (s1 + r) % WORD; var s1' := (t1 + r) % WORD;
            && Two(s0, t1) == 2 * Two(q, q1) + r
            && Two(if t1 >= 0x8000_0000 && s1' < 0x8000_0000 then s0 + 1 else s0, s1') == 2 * Two(q, q1 + r)
            && q1 == 2 * a * Pow2(k - 1) && q1 + r == (2 * a + 1) * Pow2(k - 1)
            && Pow2(k) == 2 * r && Pow2(k - 1) == r && r > 0
  {
    NextBit(k);
    Carry(q1, s0, s1, k, a, q);
    MulSwap(a, 2, Pow2(k - 1));
    MulSwap(2, a, Pow2(k - 1));
    Distribute(2 * a, 1, Pow2(k - 1));
    hide Pow2;
    AddWord(s1, Bit(k));
    AddWord(s1 + Bit(k), Bit(k));
  }

  lemma AddWord(x: nat, r: nat)
    requires x < WORD && r < WORD
    ensures (x + r) % WORD == if x + r < WORD then x + r else x + r - WORD
  {
  }

  lemma LowStep(n: nat, q: nat, q1: nat, s0: int, s1: nat, k: nat, a: nat, ix0: int, ix1: nat)
    requires k > 0 && Low(n, q, q1, s0, s1, k, a, ix0, ix1)
    ensures var r := Bit(k); var t1 := (s1 + r) % WORD; var s1' := (t1 + r) % WORD;
            if s0 < ix0 || (s0 == ix0 && t1 <= ix1) then
              Low(n, q, q1 + r, if t1 >= 0x8000_0000 && s1' < 0x8000_0000 then s0 + 1 else s0, s1', k - 1, 2 * a + 1,
                  TwiceHi(MinusHi(ix0, ix1, s0, t1), MinusLo(ix1, t1)), TwiceLo(MinusLo(ix1, t1)))
            else Low(n, q, q1, s0, s1, k - 1, 2 * a, TwiceHi(ix0, ix1), TwiceLo(ix1))
  {
    hide PartOf, TwiceHi, TwiceLo, MinusHi, MinusLo, Two, Pow2, Bit;
    LowTake(q, q1, s0, s1, k, a);
    var r := Bit(k);
    var t1 := (s1 + r) % WORD;
    Compare(s0, t1, ix0, ix1);
    TwoIs(q, q1);
    OneBit(n, Two(q, q1), r, Two(ix0, ix1));
    TwoIs(q, q1 + r);
    Minus(ix0, ix1, s0, t1);
    Twice(MinusHi(ix0, ix1, s0, t1), MinusLo(ix1, t1));
    Twice(ix0, ix1);
  }

  /** The other 32 bits of the root. */
  method LowBits(q: nat, s00: int, ix00: int, ix10: nat, ghost n: nat) returns (q1: nat, ix0: int, ix1: nat)
    requires High(n, q, s00, 0, ix00, ix10)
    ensures ix1 < WORD && q1 < WORD && PartOf(n, Two(q, q1), 1, Two(ix0, ix1))
  {
    hide Low, High, TwiceHi, TwiceLo, MinusHi, MinusLo, Two, PartOf;
    var s0, s1: nat := s00, 0;
    q1, ix0, ix1 := 0, ix00, ix10;
    ghost var k: nat, a: nat := 32, 0;
    LowStart(n, q, s0, ix0, ix1);
    var r := 0x8000_0000;
    while r != 0
      invariant k <= 32 && r == Bit(k) && Low(n, q, q1, s0, s1, k, a, ix0, ix1)
      decreases r
    {
      LowStep(n, q, q1, s0, s1, k, a, ix0, ix1);
      NextBit(k);
      var t1, t := (s1 + r) % WORD, s0;
      if t < ix0 || (t == ix0 && t1 <= ix1) {
        s1 := (t1 + r) % WORD;
        if t1 >= 0x8000_0000 && s1 < 0x8000_0000 {
          s0 := s0 + 1;
        }
        ix0, ix1 := MinusHi(ix0, ix1, t, t1), MinusLo(ix1, t1);
        q1 := q1 + r;
        a := 2 * a + 1;
      } else {
        a := 2 * a;
      }
      ix0, ix1 := TwiceHi(ix0, ix1), TwiceLo(ix1);
      r := r / 2;
      k := k - 1;
    }
    LowEnd(n, q, q1, s0, s1, a, ix0, ix1);
  }

  lemma LowEnd(n: nat, q: nat, q1: nat, s0: int, s1: nat, a: nat, ix0: int, ix1: nat)
    requires Low(n, q, q1, s0, s1, 0, a, ix0, ix1)
    ensures ix1 < WORD && q1 < WORD && PartOf(n, Two(q, q1), 1, Two(ix0, ix1))
  {
    assert Pow2(0) == 1;
  }

  // ---------------------------------------------------------------- the number to take the root of

  lemma ScaledMantissa(hi: nat, lo: nat, n: nat, m: int)
    requires lo < WORD && 0 < Two(hi, lo) && hi < HIDDEN && m == Two(hi, lo) * Pow2(n) && Pow2(52) <= m < Pow2(53)
    ensures n <= 52 && IsMantissa(hi, lo, -1022 - n, m)
  {
    ShiftsLeft(Two(hi, lo), n, 53);
    Pow2Add(n, 52 - n);
    MulSwap(Two(hi, lo), Pow2(n), Pow2(52 - n));
  }

  /** What the shifts by a part of a word leave in the high word. */
  lemma HighWord(h: nat, l: nat, i: nat)
    requires l < WORD && i <= 20 && HIDDEN <= h * Pow2(i) < 2 * HIDDEN
    ensures HIDDEN <= h * Pow2(i) + l / Pow2(32 - i) < 2 * HIDDEN
  {
    hide Pow2;
    PowWords();
    Pow2Add(i, 32 - i);
    QuotientBelow(l, Pow2(i), Pow2(32 - i));
    Room(h, i);
  }

  lemma QuotientBelow(l: nat, p: nat, q: nat)
    requires p * q == WORD && q > 0 && l < WORD
    ensures 0 <= l / q < p
  {
    Quotient(l, q);
    if l / q >= p {
      MulMono(q, p, l / q);
    }
  }

  lemma Room(h: nat, i: nat)
    requires i <= 20 && h * Pow2(i) < 2 * HIDDEN
    ensures h * Pow2(i) + Pow2(i) <= 2 * HIDDEN
  {
    hide Pow2;
    PowWords();
    Pow2Add(21 - i, i);
    if h >= Pow2(21 - i) {
      MulMono(Pow2(i), Pow2(21 - i), h);
    } else {
      MulStrict(Pow2(i), h, Pow2(21 - i));
    }
  }

  /** A small number is first shifted by parts of 21 bits. */
  lemma Shift21(ix1: nat, v: nat, n: nat)
    requires 0 < v && ix1 < WORD && ix1 == v * Pow2(n)
    ensures n < 32 && Two(ix1 / 2048, ix1 * 0x20_0000 % WORD) == v * Pow2(n + 21) && ix1 / 2048 < 2 * HIDDEN
  {
    PowWords();
    ShiftsLeft(v, n, 32);
    Pow2Add(n, 21);
    hide Pow2;
    ShiftLeft(0, ix1, 21);
    MulSwap(v, Pow2(n), Pow2(21));
  }

  lemma MoreBits(h: nat, ix0: nat, i: nat)
    requires h > 0 && ix0 == h * Pow2(i) && ix0 < HIDDEN
    ensures i < 20 && 2 * ix0 == h * Pow2(i + 1)
  {
    PowWords();
    ShiftsLeft(h, i, 20);
    MulSwap(h, 2, Pow2(i));
  }

  /** Brings the highest bit of a positive number to bit 20 of the high word.  When the loop over parts of 21
      bits has done so already, the last shift is by a whole word, which C leaves open; that the word may then be
      left as it is does no harm, for its lower 21 bits are null and the others are cut off. */
  method Scale(hi: nat, lo: nat) returns (ix0: nat, ix1: nat, m: int)
    requires hi < INFINITE && lo < WORD && 0 < Two(hi, lo)
    ensures HIDDEN <= ix0 < 2 * HIDDEN && ix1 < WORD && m < 1024 && IsMantissa(hi, lo, m, Two(ix0, ix1))
  {
    hide Pow2, Two, IsMantissa;
    ix0, ix1 := hi, lo;
    m := ix0 / HIDDEN;
    if m == 0 {
      ghost var n: nat := 0;
      One();
      while ix0 == 0
        invariant ix1 < WORD && ix0 < 2 * HIDDEN && m + n == 0 && Two(ix0, ix1) == Two(hi, lo) * Pow2(n)
        invariant n > 0 ==> ix1 % 0x20_0000 == 0
        invariant n == 0 ==> ix0 < HIDDEN
        decreases 53 - n
      {
        TwoIs(0, ix1);
        Shift21(ix1, Two(hi, lo), n);
        LowBitsNull(ix1);
        m := m - 21;
        ix0, ix1 := ix1 / 2048, ix1 * 0x20_0000 % WORD;
        n := n + 21;
      }
      var i;
      ix0, ix1, i := ScaleWord(ix0, ix1, hi, lo, n);
      m := m - i + 1;
    } else {
      NormalMantissa(hi, lo);
      OfNormal(hi);
    }
    m := m - 1023;
    ix0 := ix0 % HIDDEN + HIDDEN;
  }

  lemma OfNormal(hi: nat)
    requires HIDDEN <= hi < INFINITE
    ensures hi % HIDDEN < HIDDEN && hi / HIDDEN < 2047
  {
  }

  /** The shifts by single bits. */
  method ScaleWord(h: nat, l: nat, ghost hi: nat, ghost lo: nat, ghost n: nat) returns (ix0: nat, ix1: nat, i: nat)
    requires lo < WORD && hi < HIDDEN && 0 < Two(hi, lo) && Two(h, l) == Two(hi, lo) * Pow2(n) && l < WORD
    requires 0 < h < 2 * HIDDEN && (h >= HIDDEN ==> l % 0x20_0000 == 0)
    ensures HIDDEN <= ix0 < 2 * HIDDEN && ix1 < WORD && n + i <= 52 && IsMantissa(hi, lo, -1022 - (n + i), Two(ix0, ix1))
  {
    hide Pow2, Two, IsMantissa;
    i := 0;
    ix0 := h;
    One();
    while ix0 < HIDDEN
      invariant ix0 < 2 * HIDDEN && ix0 == h * Pow2(i) && i <= 20 && (i == 0 ==> ix0 == h)
      decreases 2 * HIDDEN - ix0
    {
      MoreBits(h, ix0, i);
      ix0 := ix0 * 2;
      i := i + 1;
    }
    assert i == 0 ==> l % 0x20_0000 == 0;
    HighWord(h, l, i);
    ShiftLeft(h, l, i);
    Together(hi, lo, h, l, n, i);
    ix0 := ix0 + l / Pow2(32 - i);
    ix1 := l * Pow2(i) % WORD;
  }

  lemma One()
    ensures Pow2(0) == 1
  {
  }

  lemma LowBitsNull(x: nat)
    ensures x * 0x20_0000 % WORD % 0x20_0000 == 0
  {
    var q, r := x * 0x20_0000 / WORD, x * 0x20_0000 % WORD;
    assert r == 0x20_0000 * (x - q * 2048);
  }

  lemma Together(hi: nat, lo: nat, h: nat, l: nat, n: nat, i: nat)
    requires lo < WORD && hi < HIDDEN && 0 < Two(hi, lo) && Two(h, l) == Two(hi, lo) * Pow2(n) && i <= 20 && l < WORD
    requires HIDDEN <= h * Pow2(i) + l / Pow2(32 - i) < 2 * HIDDEN
    ensures var x, y := h * Pow2(i) + l / Pow2(32 - i), l * Pow2(i) % WORD;
            n + i <= 52 && IsMantissa(hi, lo, -1022 - (n + i), Two(x, y))
  {
    PowWords();
    hide Pow2;
    ShiftLeft(h, l, i);
    Pow2Add(n, i);
    MulSwap(Two(hi, lo), Pow2(n), Pow2(i));
    ScaledMantissa(hi, lo, n + i, Two(h * Pow2(i) + l / Pow2(32 - i), l * Pow2(i) % WORD));
  }

  // ---------------------------------------------------------------- the root

  /** The exponent of the smallest number, negated. */
  const LEAST := 1074

  /** `r` with last place `u` is nearest to the root of `v`, all in multiples of the smallest number. */
  predicate Nearest(v: nat, r: nat, u: nat) {
    (2 * r - u) * (2 * r - u) < 4 * (v * Pow2(LEAST)) < (2 * r + u) * (2 * r + u)
  }

  /** The root bits of an even number, rounded to one bit less. */
  lemma Rounding(n: nat, q: nat, r: nat)
    requires n % 2 == 0 && q * q <= n < (q + 1) * (q + 1) && q > 0
    requires 2 * r == if n == q * q then q else q + q % 2
    ensures (2 * r - 1) * (2 * r - 1) < n < (2 * r + 1) * (2 * r + 1)
  {
    Square(q, 1);
    Square(q, -1);
    if q % 2 == 1 {
      Square(q + 1, 1);
    }
  }

  /** The square of an odd number is odd. */
  lemma EvenRoot(n: nat, q: nat)
    requires n % 2 == 0 && n == q * q
    ensures q % 2 == 0
  {
    var k, b := q / 2, q % 2;
    assert q * q == 2 * (2 * k * k + 2 * k * b) + b * b;
  }

  /** The root of the scaled mantissa is the root of the number. */
  lemma RootScales(v: nat, a: nat, m: int, r: nat)
    requires -537 <= m && a * Pow2(2 * m + 1074) == v * Pow2(52)
    requires (2 * r - 1) * (2 * r - 1) < a * Pow2(54) < (2 * r + 1) * (2 * r + 1)
    ensures Nearest(v, r * Pow2(m + 1022), Pow2(m + 1022))
  {
    hide Pow2;
    var u := Pow2(m + 1022);
    Pow2Add(m + 1022, m + 1022);
    assert m + 1022 + (m + 1022) == 2 * m + 2044;
    UnitSquared(v, a, m);
    Scaled(2 * r - 1, u);
    Scaled(2 * r + 1, u);
    MulStrictInt(u * u, (2 * r - 1) * (2 * r - 1), a * Pow2(54));
    MulStrictInt(u * u, a * Pow2(54), (2 * r + 1) * (2 * r + 1));
    Distribute(2 * r, -1, u);
    Distribute(2 * r, 1, u);
    MulSwap(2, r, u);
  }

  lemma Scaled(x: int, u: nat)
    ensures x * x * (u * u) == (x * u) * (x * u)
  {
    MulSwap(x, x, u);
    MulSwap(x * x, u, u);
    MulSwap(x, u, x * u);
  }

  lemma Four()
    ensures Pow2(2) == 4
  {
  }

  lemma UnitSquared(v: nat, a: nat, m: int)
    requires -537 <= m && a * Pow2(2 * m + 1074) == v * Pow2(52)
    ensures a * Pow2(54) * Pow2(2 * m + 2044) == 4 * (v * Pow2(LEAST))
  {
    hide Pow2;
    Pow2Add(54, 2 * m + 2044);
    Pow2Add(2 * m + 1074, 1024);
    Pow2Add(52, 1024);
    Pow2Add(2, LEAST);
    Four();
    MulSwap(a, Pow2(54), Pow2(2 * m + 2044));
    MulSwap(a, Pow2(2 * m + 1074), Pow2(1024));
    MulSwap(v, Pow2(52), Pow2(1024));
    MulSwap(v, 4, Pow2(LEAST));
  }

  /** Doubling the mantissa when the logarithm is odd, so that it can be halved. */
  lemma Halved(v: nat, x: nat, m: int, a: nat)
    requires m >= -1074 && x * Pow2(m + 1074) == v * Pow2(52) && a == if m % 2 == 1 then 2 * x else x
    ensures a * Pow2(2 * (m / 2) + 1074) == v * Pow2(52)
  {
    if m % 2 == 1 {
      MulSwap(2, x, Pow2(m + 1073));
    }
  }

  lemma RootBounds(a: nat, q: nat)
    requires Pow2(52) <= a <= Pow2(54) - 2 && q * q <= a * Pow2(54) < (q + 1) * (q + 1)
    ensures Pow2(53) <= q <= Pow2(54) - 2
  {
    hide Pow2;
    Pow2Add(52, 54);
    Pow2Add(53, 53);
    UpperRoot(Pow2(54), a, q);
    LowerRoot(Pow2(53), Pow2(52), Pow2(54), a, q);
  }

  lemma UpperRoot(t: nat, a: nat, q: nat)
    requires 2 <= t && a <= t - 2 && q * q <= a * t
    ensures q <= t - 2
  {
    MulMonoInt(t, a, t - 2);
    Distribute(t, -2, t);
    Square(t, -1);
    if q >= t - 1 {
      SquareMono(t - 1, q);
    }
  }

  lemma LowerRoot(s: nat, b: nat, t: nat, a: nat, q: nat)
    requires b * t == s * s && b <= a && a * t < (q + 1) * (q + 1)
    ensures s <= q
  {
    MulMonoInt(t, b, a);
    if q < s {
      SquareMono(q + 1, s);
    }
  }

  lemma SquareMono(a: nat, b: nat)
    requires a <= b
    ensures a * a <= b * b
  {
    MulMonoInt(a, a, b);
    MulMonoInt(b, a, b);
  }

  /** The start of the loops. */
  lemma Start(a: nat, t: nat)
    requires a < t
    ensures PartOf(a * t, 0, t, 2 * a)
  {
    MulStrictInt(t, a, t);
    MulSwap(2, a, t);
  }

  lemma MantissaBounds(m: nat, a: nat, odd: bool)
    requires Pow2(52) <= m < Pow2(53) && a == if odd then 2 * m else m
    ensures Pow2(52) <= a <= Pow2(54) - 2
  {
    PowWords();
  }

  /** The root of a positive number is the nearest floating-point number.  That of null is null, of a negative
      number there is none.  Additions round to the nearest number. */
  method Sqrt(x: Double) returns (r: Option<Double>)
    requires Shaped(x)
    ensures r == None <==> NotANumber(x) || (x.negative && !Null(x))
    ensures Null(x) || (x.hi == INFINITE && r.Some?) ==> r == Some(x)
    ensures Finite(x) && !Null(x) && r.Some? ==>
      && Finite(r.value) && !r.value.negative && Exponent(r.value.hi) > 0
      && Nearest(Val(x.hi, x.lo), Val(r.value.hi, r.value.lo), Pow2(Exponent(r.value.hi) - 1))
  {
    hide Pow2, Val, Nearest;
    if x.hi >= INFINITE {
      return if NotANumber(x) || x.negative then None else Some(x);
    }
    if Null(x) {
      return Some(x);
    }
    if x.negative {
      return None;
    }
    Positive(x);
    var hi, lo := PositiveRoot(x.hi, x.lo);
    r := Some(Double(false, hi, lo));
  }

  lemma Positive(x: Double)
    requires Shaped(x) && !Null(x)
    ensures 0 < Two(x.hi, x.lo)
  {
  }

  method PositiveRoot(hi: nat, lo: nat) returns (hi': nat, lo': nat)
    requires hi < INFINITE && lo < WORD && 0 < Two(hi, lo)
    ensures hi' < INFINITE && lo' < WORD && Exponent(hi') > 0
    ensures Nearest(Val(hi, lo), Val(hi', lo'), Pow2(Exponent(hi') - 1))
  {
    hide Pow2, Val, Nearest, PartOf, Two, TwiceHi, TwiceLo, High, IsMantissa;
    var ix0: int, ix1, m := Scale(hi, lo);
    ghost var x: nat, a: nat, n: nat := MantissaIs(hi, lo, m, ix0, ix1);
    Twice(ix0, ix1);
    if m % 2 == 1 {
      ix0, ix1 := TwiceHi(ix0, ix1), TwiceLo(ix1);
    }
    m := m / 2;
    Twice(ix0, ix1);
    ix0, ix1 := TwiceHi(ix0, ix1), TwiceLo(ix1);
    var q, s0, q1;
    q, s0, ix0, ix1 := HighBits(ix0, ix1, n);
    q1, ix0, ix1 := LowBits(q, s0, ix0, ix1, n);
    RootIs(a, n, q, q1, ix0, ix1);
    ghost var root := Two(q, q1);
    RoundUp(q, q1);
    if ix0 != 0 || ix1 != 0 {
      if q1 == 0xffff_ffff {
        q1 := 0;
        q := q + 1;
      } else {
        q1 := q1 + q1 % 2;
      }
    }
    RoundedIs(a, n, root, q, q1, Val(hi, lo), m);
    hi' := q / 2 + 0x3fe0_0000 + m * HIDDEN;
    lo' := q1 / 2 + if q % 2 == 1 then 0x8000_0000 else 0;
  }

  /** What the loops start from: the mantissa `x`, which is doubled to `a`, and `n` to take the root of. */
  lemma MantissaIs(hi: nat, lo: nat, m: int, ix0: int, ix1: nat) returns (x: nat, a: nat, n: nat)
    requires ix0 >= 0 && ix1 < WORD && m < 1024 && IsMantissa(hi, lo, m, Two(ix0, ix1))
    ensures x == Two(ix0, ix1) && a == (if m % 2 == 1 then 2 * x else x) && n == a * Pow2(54) && -1074 <= m
    ensures a * Pow2(2 * (m / 2) + 1074) == Val(hi, lo) * Pow2(52)
    ensures Pow2(52) <= a <= Pow2(54) - 2 && PartOf(n, 0, Pow2(54), 2 * a)
  {
    x := Two(ix0, ix1);
    a := if m % 2 == 1 then 2 * x else x;
    n := a * Pow2(54);
    hide Pow2, Val, PartOf;
    Halved(Val(hi, lo), x, m, a);
    MantissaBounds(x, a, m % 2 == 1);
    Start(a, Pow2(54));
  }

  lemma RootIs(a: nat, n: nat, q: nat, q1: nat, ix0: int, ix1: nat)
    requires ix1 < WORD && PartOf(n, Two(q, q1), 1, Two(ix0, ix1)) && n == a * Pow2(54) && Pow2(52) <= a <= Pow2(54) - 2
    ensures var root := Two(q, q1);
            && root * root <= n < (root + 1) * (root + 1) && Pow2(53) <= root <= Pow2(54) - 2
            && (ix0 == 0 && ix1 == 0 <==> n == root * root)
  {
    hide Pow2;
    Remains(n, Two(q, q1), 1, Two(ix0, ix1));
    Signed(ix0, ix1);
    RootBounds(a, Two(q, q1));
  }

  lemma RoundedIs(a: nat, n: nat, root: nat, q: nat, q1: nat, v: nat, m: int)
    requires n == a * Pow2(54) && root * root <= n < (root + 1) * (root + 1) && Pow2(53) <= root <= Pow2(54) - 2
    requires q1 < WORD && Two(q, q1) == if n == root * root then root else root + root % 2
    requires -537 <= m <= 511 && a * Pow2(2 * m + 1074) == v * Pow2(52)
    ensures var hi, lo := q / 2 + 0x3fe0_0000 + m * HIDDEN, q1 / 2 + if q % 2 == 1 then 0x8000_0000 else 0;
            && 0 <= hi < INFINITE && lo < WORD && Exponent(hi) == m + 1023 && Nearest(v, Val(hi, lo), Pow2(m + 1022))
  {
    hide Pow2, Nearest, Val, Two;
    var lo := q1 / 2 + if q % 2 == 1 then 0x8000_0000 else 0;
    var r := Two(q / 2, lo);
    Halves(a, n, root, q, q1);
    Rounding(n, root, r);
    RootScales(v, a, m, r);
    Unit(r, m);
    RootWords(q / 2, lo, m, r, root);
    PackNormal(q / 2, lo, m, r * Pow2(m + 1022));
  }

  lemma Halves(a: nat, n: nat, root: nat, q: nat, q1: nat)
    requires n == a * Pow2(54) && root * root <= n && q1 < WORD
    requires Two(q, q1) == if n == root * root then root else root + root % 2
    ensures n % 2 == 0 && 2 * Two(q / 2, q1 / 2 + if q % 2 == 1 then 0x8000_0000 else 0) == Two(q, q1)
    ensures q1 / 2 + (if q % 2 == 1 then 0x8000_0000 else 0) < WORD
  {
    EvenScale(a, n);
    hide Pow2;
    if n == root * root {
      EvenRoot(n, root);
    }
    HalfWords(q, q1);
  }

  /** The words of the result: its exponent takes the place of the highest bit. */
  lemma RootWords(h: nat, l: nat, m: int, r: nat, root: nat)
    requires l < WORD && Two(h, l) == r && Pow2(53) <= root <= Pow2(54) - 2 && root <= 2 * r <= root + 1 && -537 <= m <= 511
    ensures HIDDEN <= h < 2 * HIDDEN && var hi := h + 0x3fe0_0000 + m * HIDDEN;
            hi == h - HIDDEN + (m + 1023) * HIDDEN && 0 <= hi < INFINITE && Exponent(hi) == m + 1023
  {
    PowWords();
    hide Pow2;
    DivMod(h + 0x3fe0_0000 + m * HIDDEN, HIDDEN, m + 1023, h - HIDDEN);
  }

  lemma RoundUp(q: nat, q1: nat)
    requires q1 < WORD
    ensures var root := Two(q, q1);
            (if q1 == 0xffff_ffff then Two(q + 1, 0) else Two(q, q1 + q1 % 2)) == root + root % 2
    ensures q1 != 0xffff_ffff ==> q1 + q1 % 2 < WORD
  {
  }

  lemma EvenScale(a: nat, n: nat)
    requires n == a * Pow2(54)
    ensures n % 2 == 0
  {
    MulSwap(a, 2, Pow2(53));
    assert n == 2 * (a * Pow2(53));
  }

  lemma HalfWords(q: nat, q1: nat)
    requires q1 < WORD && Two(q, q1) % 2 == 0
    ensures 2 * Two(q / 2, q1 / 2 + if q % 2 == 1 then 0x8000_0000 else 0) == Two(q, q1)
    ensures q1 / 2 + (if q % 2 == 1 then 0x8000_0000 else 0) < WORD
  {
    assert q == 2 * (q / 2) + q % 2 && q1 == 2 * (q1 / 2) + q1 % 2;
    assert q1 % 2 == 0 by {
      assert Two(q, q1) == 2 * (0x8000_0000 * q) + q1;
    }
  }

  lemma Unit(r: nat, m: int)
    requires m >= -537
    ensures Makes(r, m, r * Pow2(m + 1022))
  {
    Pow2Add(m + 1022, 52);
    MulSwap(r, Pow2(m + 1022), Pow2(52));
  }
}
