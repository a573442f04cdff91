/** The free lists of the TLSF allocator: one doubly linked list for every class, with bitmaps of the lists that
    are not empty.  Each field of the block headers is a map from block addresses; null is 0. */
module TlsfLists {
  import opened TlsfMapping
  import opened TlsfBitmap

  const CLASSES := 768

  type Field = map<nat, nat>

  function Get(m: Field, a: nat): nat {
    if a in m then m[a] else 0
  }

  /** The links of the free blocks. */
  datatype Links = Links(prev: Field, next: Field)

  /** The heads of the lists and the bitmaps. */
  datatype Index = Index(matrix: seq<nat>, sl: seq<bv32>, fl: bv32)

  predicate Shaped(x: Index) {
    |x.matrix| == CLASSES && |x.sl| == REAL_FLI
  }

  function At(s: seq<nat>, j: int): nat {
    if 0 <= j < |s| then s[j] else 0
  }

  /** List `s` starts at `head`, and its links are right in both directions. */
  ghost predicate ListOk(k: Links, head: nat, s: seq<nat>) {
    && head == At(s, 0)
    && (forall j, j' | 0 <= j < j' < |s| :: s[j] != s[j'])
    && (forall j | 0 <= j < |s| :: s[j] != 0 && Get(k.next, s[j]) == At(s, j + 1) && Get(k.prev, s[j]) == At(s, j - 1))
  }

  /** No block is on two lists. */
  ghost predicate Apart(s: seq<nat>, t: seq<nat>) {
    forall i, j | 0 <= i < |s| && 0 <= j < |t| :: s[i] != t[j]
  }

  ghost predicate ListsOk(k: Links, x: Index, lists: seq<seq<nat>>) {
    && Shaped(x) && |lists| == CLASSES
    && (forall c | 0 <= c < CLASSES :: ListOk(k, x.matrix[c], lists[c]))
    && (forall c, d | 0 <= c < d < CLASSES :: Apart(lists[c], lists[d]))
  }

  /** A bit is set exactly when there is something in its list, or its lists. */
  ghost predicate BitsOk(x: Index) {
    && Shaped(x)
    && (forall f, s | 0 <= f < REAL_FLI && 0 <= s < MAX_SLI :: Has(x.sl[f], s) <==> x.matrix[ClassIndex(f, s)] != 0)
    && (forall f | 0 <= f < 32 :: Has(x.fl, f) <==> f < REAL_FLI && x.sl[f] != 0)
  }

  // ---------------------------------------------------------------- taking a block out of its list

  /** The links around block `b` go past it. */
  function Unlink(k: Links, b: nat): Links {
    var p, n := Get(k.prev, b), Get(k.next, b);
    Links((if n != 0 then k.prev[n := p] else k.prev)[b := 0], (if p != 0 then k.next[p := n] else k.next)[b := 0])
  }

  function Without(s: seq<nat>, j: nat): seq<nat>
    requires j < |s|
  {
    s[..j] + s[j + 1..]
  }

  lemma WithoutAt(s: seq<nat>, j: nat, i: int)
    requires j < |s|
    ensures At(Without(s, j), i) == if i < j then At(s, i) else At(s, i + 1)
  {
  }

  /** The links of the other members after block `j` has gone. */
  lemma UnlinkedAt(k: Links, s: seq<nat>, j: nat, m: nat)
    requires ListOk(k, At(s, 0), s) && j < |s| && m < |s| && m != j
    ensures var k' := Unlink(k, s[j]);
            && Get(k'.next, s[m]) == (if m + 1 == j then At(s, j + 1) else At(s, m + 1))
            && Get(k'.prev, s[m]) == (if m == j + 1 then At(s, j - 1) else At(s, m - 1))
  {
    hide ListOk, At;
    AtNeighbours(k, s, j, m);
  }

  /** Every member has its own place. */
  lemma OwnPlace(k: Links, s: seq<nat>, m: nat, i: int)
    requires ListOk(k, At(s, 0), s) && m < |s|
    ensures At(s, i) == s[m] <==> i == m
    ensures s[m] != 0 && Get(k.next, s[m]) == At(s, m + 1) && Get(k.prev, s[m]) == At(s, m - 1)
  {
  }

  /** What the links of a member say about another one. */
  lemma AtNeighbours(k: Links, s: seq<nat>, j: nat, m: nat)
    requires ListOk(k, At(s, 0), s) && j < |s| && m < |s| && m != j
    ensures s[m] != s[j] && s[m] != 0
    ensures Get(k.prev, s[j]) == s[m] <==> m + 1 == j
    ensures Get(k.next, s[j]) == s[m] <==> m == j + 1
    ensures Get(k.next, s[j]) == At(s, j + 1) && Get(k.prev, s[j]) == At(s, j - 1)
    ensures Get(k.next, s[m]) == At(s, m + 1) && Get(k.prev, s[m]) == At(s, m - 1)
  {
    hide ListOk;
    OwnPlace(k, s, j, j);
    OwnPlace(k, s, m, j);
    OwnPlace(k, s, m, j - 1);
    OwnPlace(k, s, m, j + 1);
  }

  lemma WithoutDistinct(s: seq<nat>, j: nat)
    requires j < |s| && forall i, i' | 0 <= i < i' < |s| :: s[i] != s[i']
    ensures var t := Without(s, j); forall i, i' | 0 <= i < i' < |t| :: t[i] != t[i']
    ensures s[j] !in Without(s, j)
  {
  }

  lemma Unlinked(k: Links, s: seq<nat>, j: nat)
    requires ListOk(k, At(s, 0), s) && j < |s|
    ensures var t := Without(s, j); ListOk(Unlink(k, s[j]), At(t, 0), t)
  {
    var t, k' := Without(s, j), Unlink(k, s[j]);
    WithoutDistinct(s, j);
    forall i | 0 <= i < |t| ensures t[i] != 0 && Get(k'.next, t[i]) == At(t, i + 1) && Get(k'.prev, t[i]) == At(t, i - 1) {
      WithoutAt(s, j, i);
      WithoutAt(s, j, i + 1);
      WithoutAt(s, j, i - 1);
      UnlinkedAt(k, s, j, if i < j then i else i + 1);
    }
  }

  /** Other lists do not notice. */
  lemma UnlinkElsewhere(k: Links, s: seq<nat>, j: nat, head: nat, t: seq<nat>)
    requires ListOk(k, At(s, 0), s) && j < |s| && ListOk(k, head, t) && Apart(s, t)
    ensures ListOk(Unlink(k, s[j]), head, t)
  {
    var k' := Unlink(k, s[j]);
    forall i | 0 <= i < |t| ensures Get(k'.next, t[i]) == Get(k.next, t[i]) && Get(k'.prev, t[i]) == Get(k.prev, t[i]) {
      NotTheirs(k, s, j, t, i);
      hide ListOk;
    }
    hide Unlink;
  }

  /** A member of another list is neither block `j` nor one of its neighbours. */
  lemma NotTheirs(k: Links, s: seq<nat>, j: nat, t: seq<nat>, i: nat)
    requires ListOk(k, At(s, 0), s) && j < |s| && Apart(s, t) && i < |t|
    ensures t[i] != s[j]
    ensures Get(k.prev, s[j]) != 0 ==> Get(k.prev, s[j]) != t[i]
    ensures Get(k.next, s[j]) != 0 ==> Get(k.next, s[j]) != t[i]
  {
    assert Get(k.prev, s[j]) == At(s, j - 1) && Get(k.next, s[j]) == At(s, j + 1);
    hide ListOk;
  }

  // ---------------------------------------------------------------- putting a block at the head of a list

  function Push(k: Links, head: nat, b: nat): Links {
    var prev := k.prev[b := 0];
    Links(if head != 0 then prev[head := b] else prev, k.next[b := head])
  }

  lemma Pushed(k: Links, s: seq<nat>, b: nat)
    requires ListOk(k, At(s, 0), s) && b != 0 && b !in s
    ensures ListOk(Push(k, At(s, 0), b), b, [b] + s)
  {
    var t, k' := [b] + s, Push(k, At(s, 0), b);
    forall i | 0 <= i < |t| ensures t[i] != 0 && Get(k'.next, t[i]) == At(t, i + 1) && Get(k'.prev, t[i]) == At(t, i - 1) {
      assert i > 0 ==> t[i] == s[i - 1];
    }
  }

  lemma PushElsewhere(k: Links, s: seq<nat>, b: nat, head: nat, t: seq<nat>)
    requires ListOk(k, At(s, 0), s) && ListOk(k, head, t) && Apart(s, t) && b !in t
    ensures ListOk(Push(k, At(s, 0), b), head, t)
  {
    assert s != [] ==> At(s, 0) == s[0];
  }

  // ---------------------------------------------------------------- heads and bitmaps

  /** The list of class (fl, sl) now starts at `next`; the bits follow when it is empty. */
  function Unhead(x: Index, fl: nat, sl: nat, next: nat): (r: Index)
    requires Shaped(x) && fl < REAL_FLI && sl < MAX_SLI
    ensures Shaped(r)
  {
    var x1 := x.(matrix := x.matrix[ClassIndex(fl, sl) := next]);
    if next != 0 then x1
    else
      var x2 := x1.(sl := x1.sl[fl := Clear(x1.sl[fl], sl)]);
      if x2.sl[fl] != 0 then x2 else x2.(fl := Clear(x2.fl, fl))
  }

  function Rehead(x: Index, fl: nat, sl: nat, b: nat): (r: Index)
    requires Shaped(x) && fl < REAL_FLI && sl < MAX_SLI
    ensures Shaped(r)
  {
    Index(x.matrix[ClassIndex(fl, sl) := b], x.sl[fl := Set(x.sl[fl], sl)], Set(x.fl, fl))
  }

  lemma IndexIsInjective(f: nat, s: nat, f': nat, s': nat)
    requires s < MAX_SLI && s' < MAX_SLI && ClassIndex(f, s) == ClassIndex(f', s')
    ensures f == f' && s == s'
  {
  }

  lemma UnheadBits(x: Index, fl: nat, sl: nat, next: nat)
    requires BitsOk(x) && fl < REAL_FLI && sl < MAX_SLI && x.matrix[ClassIndex(fl, sl)] != 0
    ensures BitsOk(Unhead(x, fl, sl, next))
  {
    hide Bit, Select, Clear;
    if next != 0 {
      forall f, s | 0 <= f < REAL_FLI && 0 <= s < MAX_SLI
        ensures Has(x.sl[f], s) <==> x.matrix[ClassIndex(fl, sl) := next][ClassIndex(f, s)] != 0
      {
      }
    } else {
      LastUnheaded(x, fl, sl);
    }
  }

  lemma LastUnheaded(x: Index, fl: nat, sl: nat)
    requires BitsOk(x) && fl < REAL_FLI && sl < MAX_SLI && x.matrix[ClassIndex(fl, sl)] != 0
    ensures BitsOk(Unhead(x, fl, sl, 0))
  {
    hide Bit, Select, Clear;
    var x' := Unhead(x, fl, sl, 0);
    forall f, s | 0 <= f < REAL_FLI && 0 <= s < MAX_SLI
      ensures Has(x'.sl[f], s) <==> x'.matrix[ClassIndex(f, s)] != 0
    {
      ClearBit(x.sl[fl], sl, s);
      if ClassIndex(f, s) == ClassIndex(fl, sl) {
        IndexIsInjective(f, s, fl, sl);
      }
    }
    NoBits(x.sl[fl]);
    assert Has(x.sl[fl], sl);
    forall f | 0 <= f < 32 ensures Has(x'.fl, f) <==> f < REAL_FLI && x'.sl[f] != 0 {
      ClearBit(x.fl, fl, f);
    }
  }

  lemma ReheadBits(x: Index, fl: nat, sl: nat, b: nat)
    requires BitsOk(x) && fl < REAL_FLI && sl < MAX_SLI && b != 0
    ensures BitsOk(Rehead(x, fl, sl, b))
  {
    hide Bit, Select, Set;
    var x' := Rehead(x, fl, sl, b);
    forall f, s | 0 <= f < REAL_FLI && 0 <= s < MAX_SLI
      ensures Has(x'.sl[f], s) <==> x'.matrix[ClassIndex(f, s)] != 0
    {
      SetBit(x.sl[fl], sl, s);
      if ClassIndex(f, s) == ClassIndex(fl, sl) {
        IndexIsInjective(f, s, fl, sl);
      }
    }
    SetBit(x.sl[fl], sl, sl);
    NoBits(x'.sl[fl]);
    forall f | 0 <= f < 32 ensures Has(x'.fl, f) <==> f < REAL_FLI && x'.sl[f] != 0 {
      SetBit(x.fl, fl, f);
    }
  }

  // ---------------------------------------------------------------- the search

  /** Bits that are not set stand for empty lists. */
  lemma EmptyRange(x: Index, f: nat, lo: nat, hi: nat)
    requires BitsOk(x) && f < REAL_FLI && hi <= MAX_SLI && forall s | lo <= s < hi :: !Has(x.sl[f], s)
    ensures forall c | ClassIndex(f, lo) <= c < ClassIndex(f, hi) :: x.matrix[c] == 0
  {
    forall c | ClassIndex(f, lo) <= c < ClassIndex(f, hi) ensures x.matrix[c] == 0 {
      assert c == ClassIndex(f, c - f * 32) && lo <= c - f * 32 < hi;
    }
  }

  lemma EmptyLevels(x: Index, lo: nat, hi: nat)
    requires BitsOk(x) && hi <= REAL_FLI && forall f | lo <= f < hi :: !Has(x.fl, f)
    ensures forall c | ClassIndex(lo, 0) <= c < ClassIndex(hi, 0) :: x.matrix[c] == 0
  {
    forall c | ClassIndex(lo, 0) <= c < ClassIndex(hi, 0) ensures x.matrix[c] == 0 {
      var f := c / 32;
      assert lo <= f < hi && x.sl[f] == 0;
      NoBits(x.sl[f]);
      EmptyRange(x, f, 0, 32);
    }
  }

  lemma EmptyUpTo(x: Index, f: nat, lo: nat, g: nat)
    requires BitsOk(x) && f < g <= REAL_FLI && lo <= MAX_SLI && forall s | lo <= s < MAX_SLI :: !Has(x.sl[f], s)
    requires forall h | f < h < g :: !Has(x.fl, h)
    ensures forall c | ClassIndex(f, lo) <= c < ClassIndex(g, 0) :: x.matrix[c] == 0
  {
    hide BitsOk, Has;
    EmptyRange(x, f, lo, 32);
    EmptyLevels(x, f + 1, g);
  }

  lemma BitsShaped(x: Index)
    requires BitsOk(x)
    ensures Shaped(x)
    ensures forall f | 0 <= f < 32 :: Has(x.fl, f) <==> f < REAL_FLI && x.sl[f] != 0
    ensures forall f, s | 0 <= f < REAL_FLI && 0 <= s < MAX_SLI :: Has(x.sl[f], s) <==> x.matrix[ClassIndex(f, s)] != 0
  {
  }

  /** The first list, from class (fl, sl) on, that is not empty; null only if all are. */
  method FindSuitableBlock(x: Index, fl: nat, sl: nat) returns (b: nat, fl': nat, sl': nat)
    requires BitsOk(x) && fl < REAL_FLI && sl < MAX_SLI
    ensures b == 0 ==> forall c | ClassIndex(fl, sl) <= c < CLASSES :: x.matrix[c] == 0
    ensures b != 0 ==>
      && fl' < REAL_FLI && sl' < MAX_SLI && ClassIndex(fl, sl) <= ClassIndex(fl', sl') && x.matrix[ClassIndex(fl', sl')] == b
      && forall c | ClassIndex(fl, sl) <= c < ClassIndex(fl', sl') :: x.matrix[c] == 0
  {
    hide Bit, Select, Upper, LsBit, BitsOk, Has;
    BitsShaped(x);
    b, fl', sl' := 0, fl, sl;
    var tmp := Upper(x.sl[fl], sl);
    LowestFrom(x.sl[fl], sl);
    if tmp != 0 {
      sl' := LsBit(tmp);
      EmptyRange(x, fl, sl, sl');
      b := x.matrix[ClassIndex(fl, sl')];
    } else {
      var f := LsBit(Upper(x.fl, fl + 1));
      LowestFrom(x.fl, fl + 1);
      if f > 0 {
        EmptyUpTo(x, fl, sl, f);
        fl' := f;
        LsBitIs(x.sl[f]);
        sl' := LsBit(x.sl[f]);
        EmptyRange(x, f, 0, sl');
        b := x.matrix[ClassIndex(f, sl')];
      } else {
        EmptyUpTo(x, fl, sl, REAL_FLI);
      }
    }
  }
}
