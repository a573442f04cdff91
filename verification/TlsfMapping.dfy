/** Sizes and size classes of the TLSF allocator: the bit arithmetic of lib/tlsf.c. */
module TlsfMapping {
  import opened Arithmetic

  const MAX_LOG2_SLI := 5
  const MAX_SLI := 32
  const FLI_OFFSET := 6
  const REAL_FLI := 24
  const SMALL_BLOCK := 128
  const BHDR_OVERHEAD := 16
  const MIN_BLOCK_SIZE := 16
  const MAX_SIZE := 0x4000_0000

  // ---------------------------------------------------------------- the highest bit of a size

  /** The table of logarithms. */
  function Table(v: nat): int
    requires v < 256
  {
    if v == 0 then -1 else if v < 2 then 0 else if v < 4 then 1 else if v < 8 then 2 else if v < 16 then 3
    else if v < 32 then 4 else if v < 64 then 5 else if v < 128 then 6 else 7
  }

  function MsBit(x: nat): (r: int)
    requires x < 0x1_0000_0000
  {
    if x <= 0xff then Table(x)
    else if x <= 0xffff then Table(x / 0x100) + 8
    else if x <= 0xff_ffff then Table(x / 0x1_0000) + 16
    else Table(x / 0x100_0000) + 24
  }

  lemma TableIs(v: nat)
    requires 0 < v < 256
    ensures 0 <= Table(v) < 8 && Pow2(Table(v)) <= v < 2 * Pow2(Table(v))
  {
    assert Pow2(3) == 8 && Pow2(4) == 16 && Pow2(5) == 32 && Pow2(6) == 64 && Pow2(7) == 128;
  }

  lemma PowBytes()
    ensures Pow2(8) == 0x100 && Pow2(16) == 0x1_0000 && Pow2(24) == 0x100_0000
  {
    assert Pow2(4) == 16;
    Pow2Add(4, 4);
    Pow2Add(8, 8);
    Pow2Add(8, 16);
  }

  /** Scaling keeps an interval. */
  lemma Scaled(v: nat, lo: nat, p: nat, x: nat)
    requires lo <= v < 2 * lo && v * p <= x < v * p + p
    ensures lo * p <= x < 2 * (lo * p)
  {
    MulMono(p, lo, v);
    MulMono(p, v + 1, 2 * lo);
    assert p * (v + 1) == v * p + p && p * (2 * lo) == 2 * (lo * p);
  }

  lemma HigherByte(x: nat, a: nat)
    requires 0 < x / Pow2(a) < 256
    ensures var r := Table(x / Pow2(a)) + a; 0 <= r && Pow2(r) <= x < 2 * Pow2(r)
  {
    var v, p := x / Pow2(a), Pow2(a);
    TableIs(v);
    Pow2Add(Table(v), a);
    Quotient(x, p);
    Scaled(v, Pow2(Table(v)), p, x);
  }

  /** The position of the highest bit is the logarithm, rounded down. */
  lemma MsBitIs(x: nat)
    requires 0 < x < 0x1_0000_0000
    ensures 0 <= MsBit(x) < 32 && Pow2(MsBit(x)) <= x < 2 * Pow2(MsBit(x))
  {
    PowBytes();
    if x <= 0xff {
      TableIs(x);
    } else if x <= 0xffff {
      TableIs(x / 0x100);
      HigherByte(x, 8);
    } else if x <= 0xff_ffff {
      TableIs(x / 0x1_0000);
      HigherByte(x, 16);
    } else {
      TableIs(x / 0x100_0000);
      HigherByte(x, 24);
    }
  }

  /** Logarithms are unique. */
  lemma LogIs(x: nat, m: nat)
    requires x < 0x1_0000_0000 && Pow2(m) <= x < 2 * Pow2(m)
    ensures MsBit(x) == m
  {
    MsBitIs(x);
    if m < MsBit(x) {
      Pow2Monotonic(m, MsBit(x));
    } else if MsBit(x) < m {
      Pow2Monotonic(MsBit(x), m);
    }
  }

  // ---------------------------------------------------------------- size classes

  /** Where the blocks of a size are kept: the class of first level `fl` and second level `sl`. */
  function ClassIndex(fl: nat, sl: nat): nat {
    fl * MAX_SLI + sl
  }

  /** The sizes of class `c` are those from `Low(c)` to below `Low(c + 1)`. */
  function Width(c: nat): nat {
    if c < 32 then 4 else Pow2(c / 32 + 1)
  }

  function Low(c: nat): nat {
    if c < 32 then 4 * c else (32 + c % 32) * Pow2(c / 32 + 1)
  }

  lemma LowNext(c: nat)
    ensures Low(c + 1) == Low(c) + Width(c)
  {
    assert Pow2(2) == 4;
    if c >= 32 {
      var p := Pow2(c / 32 + 1);
      if c % 32 == 31 {
        assert (c + 1) / 32 == c / 32 + 1 && (c + 1) % 32 == 0;
        assert Pow2(c / 32 + 2) == 2 * p;
        assert Low(c) == 63 * p && Low(c + 1) == 64 * p;
      } else {
        assert (c + 1) / 32 == c / 32 && (c + 1) % 32 == c % 32 + 1;
        assert (33 + c % 32) * p == (32 + c % 32) * p + p;
      }
    }
  }

  /** Higher classes hold larger blocks. */
  lemma {:induction false} LowMonotonic(c: nat, d: nat)
    requires c < d
    ensures Low(c) + Width(c) <= Low(d)
  {
    LowNext(d - 1);
    if c >= d - 1 {
    } else {
      LowMonotonic(c, d - 1);
    }
  }

  /** The class of a size. */
  function ClassOf(r: nat): (c: nat)
    requires r < MAX_SIZE
    ensures c < REAL_FLI * MAX_SLI
  {
    if r < SMALL_BLOCK then r / 4
    else
      MsBitBelow30(r);
      MsBitIs(r);
      SecondLevel(r, MsBit(r));
      ClassIndex(MsBit(r) - FLI_OFFSET, r / Pow2(MsBit(r) - MAX_LOG2_SLI) - MAX_SLI)
  }

  /** The classes divide up the sizes. */
  lemma ClassOfIs(r: nat)
    requires r < MAX_SIZE
    ensures Low(ClassOf(r)) <= r < Low(ClassOf(r) + 1)
  {
    if r < SMALL_BLOCK {
      LowNext(r / 4);
    } else {
      MsBitBelow30(r);
      MsBitIs(r);
      SecondLevel(r, MsBit(r));
    }
  }

  /** The mapping of a block's size to its class. */
  method MappingInsert(r: nat) returns (fl: nat, sl: nat)
    requires r < MAX_SIZE
    ensures fl < REAL_FLI && sl < MAX_SLI && ClassIndex(fl, sl) == ClassOf(r)
  {
    if r < SMALL_BLOCK {
      fl := 0;
      sl := r / (SMALL_BLOCK / MAX_SLI);
    } else {
      MsBitBelow30(r);
      MsBitIs(r);
      SecondLevel(r, MsBit(r));
      fl := MsBit(r);
      sl := r / Pow2(fl - MAX_LOG2_SLI) - MAX_SLI;
      fl := fl - FLI_OFFSET;
    }
  }

  lemma MsBitBelow30(r: nat)
    requires SMALL_BLOCK <= r < MAX_SIZE
    ensures 7 <= MsBit(r) < 30
  {
    MsBitIs(r);
    assert Pow2(6) == 64;
    Pow2Add(6, 24);
    PowBytes();
    if MsBit(r) < 7 {
      if MsBit(r) < 6 {
        Pow2Monotonic(MsBit(r), 6);
      }
    } else if MsBit(r) > 29 {
      Pow2Monotonic(29, MsBit(r));
    }
  }

  /** The five bits below the highest one number the second level. */
  lemma SecondLevel(r: nat, m: nat)
    requires m >= 7 && Pow2(m) <= r < 2 * Pow2(m)
    ensures var sl := r / Pow2(m - 5) - 32;
            0 <= sl < 32 && var c := ClassIndex(m - 6, sl); Low(c) <= r < Low(c + 1)
  {
    var p := Pow2(m - 5);
    Pow2Add(5, m - 5);
    assert Pow2(5) == 32;
    hide Pow2;
    var q := r / p;
    Quotient(r, p);
    QuotientBounds(q, p, r % p, r);
    var c := ClassIndex(m - 6, q - 32);
    assert c / 32 == m - 6 && c % 32 == q - 32;
    LowNext(c);
  }

  lemma QuotientBounds(q: nat, p: nat, rem: nat, r: nat)
    requires r == q * p + rem && rem < p && 32 * p <= r < 64 * p
    ensures 32 <= q < 64
  {
    Distribute(q, 1, p);
    MulOrder(p, 32, q + 1);
    MulOrder(p, q, 64);
  }

  // ---------------------------------------------------------------- good fit

  /** The size that a request is rounded to before the search. */
  function Rounded(r: nat): (r': nat)
    requires r < MAX_SIZE
  {
    if r < SMALL_BLOCK then r
    else
      MsBitBelow30(r);
      var t := Pow2(MsBit(r) - MAX_LOG2_SLI);
      r + (t - 1) - (r + (t - 1)) % t
  }

  /** Multiples in an interval of the length of one step. */
  lemma RoundUp(r: nat, t: nat)
    requires t > 0
    ensures var r' := r + (t - 1) - (r + (t - 1)) % t;
            r <= r' < r + t && r' == (r + (t - 1)) / t * t
  {
    Quotient(r + (t - 1), t);
  }

  lemma AtMost64(r: nat, t: nat)
    requires t > 0 && 32 * t <= r < 64 * t
    ensures 32 <= (r + (t - 1)) / t <= 64
  {
    RoundUp(r, t);
    MulOrder(t, (r + (t - 1)) / t, 32);
    MulOrder(t, (r + (t - 1)) / t, 65);
  }

  /** With m the logarithm of the request: it is rounded to a multiple of 2^(m-5), which is at most the next
      power of two. */
  lemma RoundedTo(r: nat) returns (m: nat, t: nat, q: nat)
    requires SMALL_BLOCK <= r < MAX_SIZE
    ensures m == MsBit(r) && 7 <= m < 30 && t == Pow2(m - 5) && q == (r + (t - 1)) / t
    ensures 32 <= q <= 64 && Rounded(r) == q * t && r <= Rounded(r) < r + t
    ensures 32 * t == Pow2(m) && Pow2(m) <= r < 2 * Pow2(m)
  {
    MsBitBelow30(r);
    MsBitIs(r);
    m := MsBit(r);
    t := Pow2(m - 5);
    q := (r + (t - 1)) / t;
    RoundUp(r, t);
    Pow2Add(5, m - 5);
    assert Pow2(5) == 32;
    AtMost64(r, t);
  }

  /** Rounding a request adds less than a thirty-second of it. */
  lemma RoundingIsSmall(r: nat)
    requires r < MAX_SIZE
    ensures r <= Rounded(r) && (32 * (Rounded(r) - r) < r || Rounded(r) == r)
  {
    if r >= SMALL_BLOCK {
      var _, _, _ := RoundedTo(r);
    }
  }

  lemma LowIs(fl: nat, sl: nat)
    requires fl > 0 && sl < 32
    ensures Low(ClassIndex(fl, sl)) == (32 + sl) * Pow2(fl + 1)
  {
    assert ClassIndex(fl, sl) / 32 == fl && ClassIndex(fl, sl) % 32 == sl;
  }

  lemma LowHere(m: nat, t: nat, q: nat)
    requires m >= 7 && t == Pow2(m - 5) && 32 <= q < 64
    ensures Low(ClassIndex(m - 6, q - 32)) == q * t
  {
    LowIs(m - 6, q - 32);
    assert 32 + (q - 32) == q && m - 6 + 1 == m - 5;
  }

  lemma LowAbove(m: nat, t: nat)
    requires m >= 7 && t == Pow2(m - 5)
    ensures Low(ClassIndex(m - 5, 0)) == 64 * t
  {
    LowIs(m - 5, 0);
    assert Pow2(m - 5 + 1) == 2 * t;
  }

  /** The class at which the search starts holds no block below the rounded size: its smallest size is exactly
      that size. */
  lemma SearchClass(r: nat) returns (m: nat, t: nat, m1: nat, sl: nat)
    requires SMALL_BLOCK <= r < MAX_SIZE && Rounded(r) < MAX_SIZE
    ensures m == MsBit(r) && 7 <= m < 30 && t == Pow2(m - 5)
    ensures r + (t - 1) < 0x1_0000_0000 && m1 == MsBit(r + (t - 1)) && 7 <= m1 < 30
    ensures sl == (r + (t - 1)) / Pow2(m1 - 5) - 32 && sl < 32 && Low(ClassIndex(m1 - 6, sl)) == Rounded(r)
  {
    hide Pow2, Low, MsBit, Rounded;
    var q;
    m, t, q := RoundedTo(r);
    var r1 := r + (t - 1);
    Quotient(r1, t);
    if q < 64 {
      MulMono(t, q + 1, 64);
      LogIs(r1, m);
      m1, sl := m, q - 32;
      LowHere(m, t, q);
    } else {
      NextPower(r1, t, m);
      m1, sl := m + 1, 0;
      LowAbove(m, t);
      PowBytes();
    }
  }

  /** A rounded size that is a power of two is found one level up. */
  lemma NextPower(r1: nat, t: nat, m: nat)
    requires m >= 7 && t == Pow2(m - 5) && 32 * t == Pow2(m) && 64 * t <= r1 < 65 * t && r1 < 0x1_0000_0000
    ensures MsBit(r1) == m + 1 && r1 / Pow2(m - 4) == 32
  {
    LogIs(r1, m + 1);
    DivMod(r1, 2 * t, 32, r1 - 64 * t);
  }

  lemma SmallClass(r: nat)
    requires r < SMALL_BLOCK && r % 16 == 0
    ensures Rounded(r) == r && Low(ClassIndex(0, r / 4)) == r
  {
  }

  lemma RoundedLarge(r: nat, t: nat)
    requires SMALL_BLOCK <= r < MAX_SIZE && MsBit(r) >= 5 && t == Pow2(MsBit(r) - 5)
    ensures Rounded(r) == r + (t - 1) - (r + (t - 1)) % t
  {
  }

  lemma MultipleStays(x: nat, t: nat, q: nat)
    requires t > 0 && x == q * t
    ensures x + (t - 1) - (x + (t - 1)) % t == x
  {
    DivMod(x + (t - 1), t, q, t - 1);
  }

  /** The mapping of a request to the class where the search starts; the size is rounded up. */
  method MappingSearch(r: nat) returns (size: nat, fl: nat, sl: nat)
    requires r < MAX_SIZE && r % 16 == 0 && Rounded(r) < MAX_SIZE
    ensures size == Rounded(r) && fl < REAL_FLI && sl < MAX_SLI
    ensures Low(ClassIndex(fl, sl)) == size
  {
    hide Pow2, Low, MsBit, Rounded;
    size := r;
    if size < SMALL_BLOCK {
      SmallClass(r);
      fl := 0;
      sl := size / (SMALL_BLOCK / MAX_SLI);
    } else {
      ghost var m, t', m1, sl' := SearchClass(r);
      RoundedLarge(r, t');
      var t := Pow2(MsBit(size) - MAX_LOG2_SLI) - 1;
      size := size + t;
      fl := MsBit(size);
      sl := size / Pow2(fl - MAX_LOG2_SLI) - MAX_SLI;
      fl := fl - FLI_OFFSET;
      size := size - size % (t + 1);
    }
  }

  /** Every block in the class found, or in a higher one, is as large as the rounded request. */
  lemma GoodFit(r: nat, c: nat, d: nat, size: nat)
    requires r < MAX_SIZE && Low(c) == Rounded(r) && c <= d && Low(d) <= size
    ensures r <= Rounded(r) <= size
  {
    RoundingIsSmall(r);
    if c < d {
      LowMonotonic(c, d);
    }
  }

  /** Rounding again changes nothing, so a second search looks at the same classes. */
  lemma RoundingIsIdempotent(r: nat)
    requires r < MAX_SIZE && Rounded(r) < MAX_SIZE
    ensures Rounded(Rounded(r)) == Rounded(r)
  {
    if r >= SMALL_BLOCK {
      hide Pow2, MsBit, Rounded;
      var m, t, q := RoundedTo(r);
      var r' := Rounded(r);
      if q < 64 {
        MulOrder(t, q, 64);
        LogIs(r', m);
        RoundedLarge(r', t);
        MultipleStays(r', t, q);
      } else {
        NextLog(r', m);
        RoundedLarge(r', 2 * t);
        MultipleStays(r', 2 * t, 32);
      }
    }
  }

  lemma NextLog(r: nat, m: nat)
    requires m >= 7 && r == 2 * Pow2(m) && r < 0x1_0000_0000
    ensures MsBit(r) == m + 1 && Pow2(m + 1 - 5) == 2 * Pow2(m - 5)
  {
    LogIs(r, m + 1);
  }

  /** Requests in multiples of 16 stay so. */
  lemma RoundedAligned(r: nat)
    requires r < MAX_SIZE && r % 16 == 0
    ensures Rounded(r) % 16 == 0
  {
    if r >= SMALL_BLOCK {
      var m, t, q := RoundedTo(r);
      if m >= 9 {
        Pow2Add(4, m - 9);
        assert Pow2(4) == 16;
        Multiple16(Rounded(r), Pow2(m - 9), q);
      } else {
        assert t == 4 || t == 8 by { assert Pow2(2) == 4 && Pow2(3) == 8; }
        SmallStep(r, t, q);
      }
    }
  }

  lemma Multiple16(x: nat, p: nat, q: nat)
    requires x == q * (16 * p)
    ensures x % 16 == 0
  {
    assert x == 16 * (p * q);
  }

  lemma SmallStep(r: nat, t: nat, q: nat)
    requires r % 16 == 0 && (t == 4 || t == 8) && q == (r + (t - 1)) / t
    ensures q * t == r
  {
    DivMod(r + (t - 1), t, if t == 4 then r / 16 * 4 else r / 16 * 2, t - 1);
  }
}
