/** The bitmaps of the TLSF allocator, as 32-bit words. */
module TlsfBitmap {

  /** One, shifted left by `k`. */
  function Bit(k: nat): bv32
    requires k < 32
  {
    if k == 0 then 0x1 else if k == 1 then 0x2 else if k == 2 then 0x4 else if k == 3 then 0x8 else
    if k == 4 then 0x10 else if k == 5 then 0x20 else if k == 6 then 0x40 else if k == 7 then 0x80 else
    if k == 8 then 0x100 else if k == 9 then 0x200 else if k == 10 then 0x400 else if k == 11 then 0x800 else
    if k == 12 then 0x1000 else if k == 13 then 0x2000 else if k == 14 then 0x4000 else if k == 15 then 0x8000 else
    if k == 16 then 0x10000 else if k == 17 then 0x20000 else if k == 18 then 0x40000 else if k == 19 then 0x80000 else
    if k == 20 then 0x100000 else if k == 21 then 0x200000 else if k == 22 then 0x400000 else if k == 23 then 0x800000 else
    if k == 24 then 0x1000000 else if k == 25 then 0x2000000 else if k == 26 then 0x4000000 else if k == 27 then 0x8000000 else
    if k == 28 then 0x10000000 else if k == 29 then 0x20000000 else if k == 30 then 0x40000000 else 0x80000000
  }

  /** All ones, shifted left by `k`. */
  function From(k: nat): bv32
    requires k < 32
  {
    0 - Bit(k)
  }

  /** The bit of a word that another word selects. */
  function Select(x: bv32, q: bv32): nat {
    if x & q == 0 then 0 else 1
  }

  predicate Has(x: bv32, k: nat)
    requires k < 32
  {
    Select(x, Bit(k)) == 1
  }

  function Set(x: bv32, k: nat): bv32
    requires k < 32
  {
    x | Bit(k)
  }

  function Clear(x: bv32, k: nat): bv32
    requires k < 32
  {
    x & !Bit(k)
  }

  /** The bits from `s` on. */
  function Upper(x: bv32, s: nat): bv32
    requires s < 32
  {
    x & From(s)
  }

  predicate OneHot(x: bv32) {
    x != 0 && x & (x - 1) == 0
  }

  // ---------------------------------------------------------------- the lowest bit

  /** The table of logarithms, as far as it is used for single bits. */
  function Table(v: bv32): int {
    if v == 0 then -1 else if v < 2 then 0 else if v < 4 then 1 else if v < 8 then 2 else if v < 16 then 3
    else if v < 32 then 4 else if v < 64 then 5 else if v < 128 then 6 else 7
  }

  function LsBit(i: bv32): int {
    var x := i & (0 - i);
    if x <= 0xffff then (if x <= 0xff then Table(x) else Table(x >> 8) + 8)
    else (if x <= 0xff_ffff then Table(x >> 16) + 16 else Table(x >> 24) + 24)
  }

  lemma OneHotValues(x: bv32)
    requires OneHot(x)
    ensures x == 0x1 || x == 0x2 || x == 0x4 || x == 0x8 || x == 0x10 || x == 0x20 || x == 0x40 || x == 0x80
      || x == 0x100 || x == 0x200 || x == 0x400 || x == 0x800 || x == 0x1000 || x == 0x2000 || x == 0x4000 || x == 0x8000
      || x == 0x10000 || x == 0x20000 || x == 0x40000 || x == 0x80000 || x == 0x100000 || x == 0x200000 || x == 0x400000 || x == 0x800000
      || x == 0x1000000 || x == 0x2000000 || x == 0x4000000 || x == 0x8000000 || x == 0x10000000 || x == 0x20000000 || x == 0x40000000 || x == 0x80000000
  {
  }

  /** Every single bit is bit `k` for some `k`, which the lowest-bit function finds. */
  lemma BitOfOneHot(x: bv32) returns (k: nat)
    requires OneHot(x)
    ensures k < 32 && Bit(k) == x && LsBit(x) == k
  {
    OneHotValues(x);
    k := LsBit(x);
  }

  lemma BitIsOneHot(k: nat)
    requires k < 32
    ensures OneHot(Bit(k)) && LsBit(Bit(k)) == k
  {
    if k < 16 {
      assert k == 0 || k == 1 || k == 2 || k == 3 || k == 4 || k == 5 || k == 6 || k == 7
        || k == 8 || k == 9 || k == 10 || k == 11 || k == 12 || k == 13 || k == 14 || k == 15;
    } else {
      assert k == 16 || k == 17 || k == 18 || k == 19 || k == 20 || k == 21 || k == 22 || k == 23
        || k == 24 || k == 25 || k == 26 || k == 27 || k == 28 || k == 29 || k == 30 || k == 31;
    }
  }

  lemma OneHotsDiffer(p: bv32, q: bv32)
    requires OneHot(p) && OneHot(q) && p != q
    ensures p & q == 0 && LsBit(p) != LsBit(q)
  {
  }

  lemma OrOther(x: bv32, p: bv32, q: bv32)
    requires p & q == 0
    ensures Select(x | p, q) == Select(x, q)
  {
  }

  lemma OrSame(x: bv32, q: bv32)
    requires q != 0
    ensures Select(x | q, q) == 1
  {
  }

  lemma AndNotOther(x: bv32, p: bv32, q: bv32)
    requires p & q == 0
    ensures Select(x & !p, q) == Select(x, q)
  {
  }

  lemma AndNotSame(x: bv32, q: bv32)
    ensures Select(x & !q, q) == 0
  {
  }

  lemma SetOneHot(x: bv32, p: bv32, q: bv32)
    requires OneHot(p) && OneHot(q)
    ensures Select(x | p, q) == if LsBit(q) == LsBit(p) then 1 else Select(x, q)
  {
    hide Select, LsBit;
    if p == q {
      OrSame(x, q);
    } else {
      OneHotsDiffer(p, q);
      OrOther(x, p, q);
    }
  }

  lemma ClearOneHot(x: bv32, p: bv32, q: bv32)
    requires OneHot(p) && OneHot(q)
    ensures Select(x & !p, q) == if LsBit(q) == LsBit(p) then 0 else Select(x, q)
  {
    hide Select, LsBit;
    if p == q {
      AndNotSame(x, q);
    } else {
      OneHotsDiffer(p, q);
      AndNotOther(x, p, q);
    }
  }

  lemma SetBit(x: bv32, k: nat, j: nat)
    requires k < 32 && j < 32
    ensures Has(Set(x, k), j) <==> j == k || Has(x, j)
  {
    hide Bit, LsBit, Select;
    BitIsOneHot(k);
    BitIsOneHot(j);
    SetOneHot(x, Bit(k), Bit(j));
  }

  lemma ClearBit(x: bv32, k: nat, j: nat)
    requires k < 32 && j < 32
    ensures Has(Clear(x, k), j) <==> j != k && Has(x, j)
  {
    ClearSelect(x, k, j);
    hide Bit, Select, Clear;
  }

  lemma ClearSelect(x: bv32, k: nat, j: nat)
    requires k < 32 && j < 32
    ensures Select(Clear(x, k), Bit(j)) == if j == k then 0 else Select(x, Bit(j))
  {
    hide Bit, LsBit, Select;
    BitIsOneHot(k);
    BitIsOneHot(j);
    ClearOneHot(x, Bit(k), Bit(j));
  }

  function Lowest(x: bv32): bv32 {
    x & (0 - x)
  }

  lemma LowestFacts(x: bv32)
    requires x != 0
    ensures OneHot(Lowest(x)) && Select(x, Lowest(x)) == 1 && LsBit(Lowest(x)) == LsBit(x)
  {
  }

  lemma LowerIsClear(x: bv32, p: bv32)
    requires OneHot(p) && LsBit(p) < LsBit(x)
    ensures Select(x, p) == 0
  {
  }

  /** The lowest bit of a word is set, and no lower one is. */
  lemma LsBitIs(x: bv32)
    requires x != 0
    ensures 0 <= LsBit(x) < 32 && Has(x, LsBit(x))
    ensures forall j | 0 <= j < LsBit(x) :: !Has(x, j)
  {
    hide Bit, LsBit, Select, Lowest;
    LowestFacts(x);
    var k := BitOfOneHot(Lowest(x));
    forall j | 0 <= j < k ensures !Has(x, j) {
      BitIsOneHot(j);
      LowerIsClear(x, Bit(j));
    }
  }

  /** A word is zero exactly when it has no bit. */
  lemma NoBits(x: bv32)
    ensures x == 0 <==> forall j | 0 <= j < 32 :: !Has(x, j)
  {
    if x != 0 {
      hide Bit, Select, LsBit;
      LsBitIs(x);
    }
  }

  lemma MaskOneHot(x: bv32, p: bv32, q: bv32)
    requires OneHot(p) && OneHot(q)
    ensures Select(x & (0 - p), q) == if LsBit(q) >= LsBit(p) then Select(x, q) else 0
  {
    OrderOneHot(p, q);
    MaskedOneHot(p, q);
    if q >= p {
      MaskKeeps(x, 0 - p, q);
    } else {
      MaskDrops(x, 0 - p, q);
    }
  }

  lemma MaskedOneHot(p: bv32, q: bv32)
    requires OneHot(p) && OneHot(q)
    ensures (0 - p) & q == if q >= p then q else 0
  {
  }

  lemma MaskKeeps(x: bv32, m: bv32, q: bv32)
    requires m & q == q
    ensures Select(x & m, q) == Select(x, q)
  {
  }

  lemma MaskDrops(x: bv32, m: bv32, q: bv32)
    requires m & q == 0
    ensures Select(x & m, q) == 0
  {
  }

  lemma OrderOneHot(p: bv32, q: bv32)
    requires OneHot(p) && OneHot(q)
    ensures q >= p <==> LsBit(q) >= LsBit(p)
  {
  }

  /** The mask of the bits from `s` on. */
  lemma Masked(x: bv32, s: nat, j: nat)
    requires s < 32 && j < 32
    ensures Has(Upper(x, s), j) <==> j >= s && Has(x, j)
  {
    hide Bit, LsBit, Select;
    BitIsOneHot(s);
    BitIsOneHot(j);
    MaskOneHot(x, Bit(s), Bit(j));
  }

  /** The lowest bit from `s` on, if there is one. */
  lemma LowestFrom(x: bv32, s: nat)
    requires s < 32
    ensures var r := LsBit(Upper(x, s));
            if Upper(x, s) == 0 then r == -1 && forall j | s <= j < 32 :: !Has(x, j)
            else s <= r < 32 && Has(x, r) && forall j | s <= j < r :: !Has(x, j)
  {
    hide Bit, From, Select, LsBit, Upper;
    var y := Upper(x, s);
    forall j | 0 <= j < 32 ensures Has(y, j) <==> j >= s && Has(x, j) {
      Masked(x, s, j);
    }
    if y == 0 {
      NothingLowest();
      NoBits(y);
    } else {
      LsBitIs(y);
    }
  }

  lemma NothingLowest()
    ensures LsBit(0) == -1
  {
  }
}
