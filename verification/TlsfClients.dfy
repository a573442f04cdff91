/** The clients' view of the TLSF allocator: whose block is whose, and that nobody's bytes change. */
module TlsfClients {
  import opened TlsfMapping
  import opened TlsfLists
  import opened TlsfBlocks
  import opened TlsfHeap

  /** The contents of memory; a place without a value holds part of a header or a link. */
  type Bytes = map<nat, nat>

  /** Memory after headers or links have been written to `n` bytes at `a`. */
  function Clobber(m: Bytes, a: nat, n: nat): Bytes {
    map x | x in m && !(a <= x < a + n) :: m[x]
  }

  predicate SameByte(m: Bytes, m': Bytes, x: nat) {
    (x in m <==> x in m') && (x in m ==> m[x] == m'[x])
  }

  /** The bytes from `lo` on, before `hi`, are as they were. */
  ghost predicate SameBytes(m: Bytes, m': Bytes, lo: nat, hi: nat) {
    forall x | lo <= x < hi :: SameByte(m, m', x)
  }

  /** Where the client's bytes in block `b` start. */
  function Buffer(b: nat): nat {
    b + BHDR_OVERHEAD
  }

  /** Used blocks belong to a client, or hold the description of an area. */
  ghost predicate Owned(h: Phys, order: seq<nat>, live: set<nat>, info: set<nat>) {
    && live !! info
    && (forall b | b in live || b in info :: b in order && !IsFree(h, b) && Size(h, b) > 0)
    && (forall i | 0 <= i < |order| && !IsFree(h, order[i]) && Size(h, order[i]) > 0 :: order[i] in live || order[i] in info)
  }

  // ---------------------------------------------------------------- writes that the clients do not see

  /** The links in a free block are not in the bytes of a used one. */
  lemma LinksApart(h: Phys, base: nat, order: seq<nat>, x: nat, f: nat)
    requires PhysOk(h, base, order) && x in order && f in order && !IsFree(h, x) && IsFree(h, f)
    ensures Buffer(f) + 16 <= Buffer(x) || End(h, x) <= Buffer(f)
  {
    var i :| 0 <= i < |order| && order[i] == x;
    var j :| 0 <= j < |order| && order[j] == f;
    Disjoint(h, base, order, i, j);
    assert BlockOk(h, base, f);
  }

  /** The neighbours of a block on its list are free blocks too. */
  lemma NeighbourFree(k: Heap, base: nat, order: seq<nat>, lists: seq<seq<nat>>, hole: set<nat>, c: nat, b: nat)
    requires HeapOk(k, base, order, lists, hole) && c < CLASSES && b in lists[c]
    ensures b in order && IsFree(k.phys, b)
    ensures var p := Get(k.links.prev, b); p != 0 ==> p in order && IsFree(k.phys, p)
    ensures var n := Get(k.links.next, b); n != 0 ==> n in order && IsFree(k.phys, n)
  {
    var s := lists[c];
    assert ListOk(k.links, k.index.matrix[c], s);
    var j :| 0 <= j < |s| && s[j] == b;
    assert j > 0 ==> Get(k.links.prev, b) == s[j - 1];
    assert j + 1 < |s| ==> Get(k.links.next, b) == s[j + 1];
  }

  /** Memory after block `b` with neighbours `p` and `n` has been unlinked. */
  function Unlinking(m: Bytes, b: nat, p: nat, n: nat): Bytes {
    var m1 := if n != 0 then Clobber(m, Buffer(n), 8) else m;
    var m2 := if p != 0 then Clobber(m1, Buffer(p) + 8, 8) else m1;
    Clobber(m2, Buffer(b), 16)
  }

  lemma UnlinkingKeeps(k: Heap, base: nat, order: seq<nat>, lists: seq<seq<nat>>, hole: set<nat>, c: nat, b: nat, m: Bytes, x: nat)
    requires HeapOk(k, base, order, lists, hole) && c < CLASSES && b in lists[c] && x in order && !IsFree(k.phys, x)
    ensures SameBytes(m, Unlinking(m, b, Get(k.links.prev, b), Get(k.links.next, b)), Buffer(x), End(k.phys, x))
  {
    hide PhysOk, ListsOk, BitsOk, Linked;
    NeighbourFree(k, base, order, lists, hole, c, b);
    var p, n := Get(k.links.prev, b), Get(k.links.next, b);
    LinksApart(k.phys, base, order, x, b);
    if p != 0 {
      LinksApart(k.phys, base, order, x, p);
    }
    if n != 0 {
      LinksApart(k.phys, base, order, x, n);
    }
  }

  /** The bytes of all used blocks are as before. */
  ghost predicate UsedKept(h: Phys, order: seq<nat>, m: Bytes, m': Bytes) {
    forall x | x in order && !IsFree(h, x) :: SameBytes(m, m', Buffer(x), End(h, x))
  }

  lemma UnlinkingKeepsAll(k: Heap, base: nat, order: seq<nat>, lists: seq<seq<nat>>, hole: set<nat>, c: nat, b: nat, m: Bytes)
    requires HeapOk(k, base, order, lists, hole) && c < CLASSES && b in lists[c]
    ensures UsedKept(k.phys, order, m, Unlinking(m, b, Get(k.links.prev, b), Get(k.links.next, b)))
  {
    hide PhysOk, ListsOk, BitsOk, Linked;
    forall x | x in order && !IsFree(k.phys, x)
      ensures SameBytes(m, Unlinking(m, b, Get(k.links.prev, b), Get(k.links.next, b)), Buffer(x), End(k.phys, x))
    {
      UnlinkingKeeps(k, base, order, lists, hole, c, b, m, x);
    }
  }

  /** Memory after block `b` has become the head before `head`. */
  function Pushing(m: Bytes, b: nat, head: nat): Bytes {
    var m1 := Clobber(m, Buffer(b), 16);
    if head != 0 then Clobber(m1, Buffer(head), 8) else m1
  }

  lemma PushingKeepsAll(k: Heap, base: nat, order: seq<nat>, lists: seq<seq<nat>>, hole: set<nat>, c: nat, b: nat, m: Bytes)
    requires HeapOk(k, base, order, lists, hole) && c < CLASSES && b in order && IsFree(k.phys, b)
    ensures UsedKept(k.phys, order, m, Pushing(m, b, k.index.matrix[c]))
  {
    var head := k.index.matrix[c];
    assert ListOk(k.links, head, lists[c]);
    if head != 0 {
      assert lists[c][0] == head;
      NeighbourFree(k, base, order, lists, hole, c, head);
    }
    hide ListsOk, BitsOk, Linked;
    forall x | x in order && !IsFree(k.phys, x) ensures SameBytes(m, Pushing(m, b, head), Buffer(x), End(k.phys, x)) {
      LinksApart(k.phys, base, order, x, b);
      if head != 0 {
        LinksApart(k.phys, base, order, x, head);
      }
    }
  }

  /** The block at `i` and its neighbours. */
  lemma Neighbours(h: Phys, base: nat, order: seq<nat>, i: nat)
    requires PhysOk(h, base, order) && i < |order| && !IsFree(h, order[i]) && Size(h, order[i]) > 0
    ensures i + 1 < |order| && order[i + 1] == End(h, order[i]) && order[i] in h.words
    ensures Word(h, order[i]).prevFree ==>
      i > 0 && IsFree(h, order[i - 1]) && Get(h.prevHdr, order[i]) == order[i - 1] && order[i] == End(h, order[i - 1])
      && (i > 1 ==> !IsFree(h, order[i - 2]))
    ensures !Word(h, order[i]).prevFree && i > 0 ==> !IsFree(h, order[i - 1])
    ensures IsFree(h, order[i + 1]) ==>
      i + 2 < |order| && order[i + 2] == End(h, order[i + 1]) && !IsFree(h, order[i + 2])
  {
    assert i + 1 < |order|;
    assert PairOk(h, order[i], order[i + 1]);
    if i > 0 {
      assert PairOk(h, order[i - 1], order[i]) && BlockOk(h, base, order[i - 1]);
      if i > 1 {
        assert PairOk(h, order[i - 2], order[i - 1]);
      }
    }
    if IsFree(h, order[i + 1]) {
      assert BlockOk(h, base, order[i + 1]);
      assert PairOk(h, order[i + 1], order[i + 2]);
    }
  }

  /** A header is not in the bytes of a block. */
  lemma HeaderApart(h: Phys, base: nat, order: seq<nat>, x: nat, f: nat)
    requires PhysOk(h, base, order) && x in order && f in order
    ensures f + BHDR_OVERHEAD <= Buffer(x) || End(h, x) <= f
  {
    var i :| 0 <= i < |order| && order[i] == x;
    var j :| 0 <= j < |order| && order[j] == f;
    if x != f {
      Disjoint(h, base, order, i, j);
    }
  }

  // ---------------------------------------------------------------- what clients see

  /** The blocks of the clients keep their sizes and their bytes. */
  ghost predicate ClientsKept(clients: set<nat>, h: Phys, h': Phys, m: Bytes, m': Bytes) {
    forall x | x in clients :: Size(h', x) == Size(h, x) && SameBytes(m, m', Buffer(x), End(h, x))
  }

  lemma ClientsChain(clients: set<nat>, h: Phys, h1: Phys, h2: Phys, m: Bytes, m1: Bytes, m2: Bytes)
    requires ClientsKept(clients, h, h1, m, m1) && ClientsKept(clients, h1, h2, m1, m2)
    ensures ClientsKept(clients, h, h2, m, m2)
  {
    forall x | x in clients ensures Size(h2, x) == Size(h, x) && SameBytes(m, m2, Buffer(x), End(h, x)) {
      BytesChain(m, m1, m2, Buffer(x), End(h, x));
    }
  }

  lemma BytesChain(m: Bytes, m1: Bytes, m2: Bytes, lo: nat, hi: nat)
    requires SameBytes(m, m1, lo, hi) && SameBytes(m1, m2, lo, hi)
    ensures SameBytes(m, m2, lo, hi)
  {
    forall x | lo <= x < hi ensures SameByte(m, m2, x) {
      assert SameByte(m, m1, x) && SameByte(m1, m2, x);
    }
  }

  lemma UsedClients(clients: set<nat>, h: Phys, order: seq<nat>, m: Bytes, m': Bytes)
    requires UsedKept(h, order, m, m') && forall x | x in clients :: x in order && !IsFree(h, x)
    ensures ClientsKept(clients, h, h, m, m')
  {
  }

  /** Memory after two headers have been written. */
  function Headers(m: Bytes, b: nat, next: nat): Bytes {
    Clobber(Clobber(m, b, BHDR_OVERHEAD), next, BHDR_OVERHEAD)
  }

  predicate Among(order: seq<nat>, i: nat, k: nat, x: nat) {
    exists m :: i <= m <= k && m < |order| && order[m] == x
  }

  /** The set without the blocks `i` to `k`. */
  function Rest(s: set<nat>, order: seq<nat>, i: nat, k: nat): set<nat> {
    set x | x in s && !Among(order, i, k, x)
  }

  lemma MergeClients(h: Phys, base: nat, order: seq<nat>, i: nat, k: nat, free: bool, clients: set<nat>, m: Bytes)
    requires PhysOk(h, base, order) && i <= k < |order| - 1 && order[i] + BHDR_OVERHEAD <= order[k + 1]
    requires forall x | x in clients :: x in order && !Among(order, i, k, x)
    ensures ClientsKept(clients, h, Merged(h, order[i], order[k + 1], free), m, Headers(m, order[i], order[k + 1]))
  {
    var h', m' := Merged(h, order[i], order[k + 1], free), Headers(m, order[i], order[k + 1]);
    forall x | x in clients ensures Size(h', x) == Size(h, x) && SameBytes(m, m', Buffer(x), End(h, x)) {
      HeaderApart(h, base, order, x, order[i]);
      HeaderApart(h, base, order, x, order[k + 1]);
    }
  }

  /** An owned block that is not merged stays owned. */
  lemma OwnedStays(h: Phys, order: seq<nat>, i: nat, k: nat, free: bool, x: nat)
    requires Sorted(order) && i <= k < |order| - 1 && order[i] + BHDR_OVERHEAD < order[k + 1]
    requires x in order && !IsFree(h, x) && Size(h, x) > 0 && !Among(order, i, k, x)
    ensures var h' := Merged(h, order[i], order[k + 1], free);
            x in Cut(order, i, k) && !IsFree(h', x) && Size(h', x) > 0
  {
    var j :| 0 <= j < |order| && order[j] == x;
    assert Cut(order, i, k)[if j <= i then j else j - k + i] == x;
  }

  /** Who owns what after blocks `i` to `k` have become one. */
  lemma MergeOwned(h: Phys, base: nat, order: seq<nat>, live: set<nat>, info: set<nat>, i: nat, k: nat, free: bool)
    requires PhysOk(h, base, order) && Owned(h, order, live, info) && i <= k < |order| - 1
    requires order[i] + BHDR_OVERHEAD < order[k + 1]
    ensures Owned(Merged(h, order[i], order[k + 1], free), Cut(order, i, k),
                  Rest(live, order, i, k) + (if free then {} else {order[i]}), Rest(info, order, i, k))
  {
    AllAscending(h, base, order);
    hide PhysOk, Merged;
    var h', order' := Merged(h, order[i], order[k + 1], free), Cut(order, i, k);
    var live', info' := Rest(live, order, i, k) + (if free then {} else {order[i]}), Rest(info, order, i, k);
    assert Among(order, i, k, order[i]);
    MergedHere(h, order, i, k, free);
    forall x | x in live' || x in info' ensures x in order' && !IsFree(h', x) && Size(h', x) > 0 {
      if x != order[i] {
        OwnedStays(h, order, i, k, free, x);
      }
    }
    forall m | 0 <= m < |order'| && !IsFree(h', order'[m]) && Size(h', order'[m]) > 0
      ensures order'[m] in live' || order'[m] in info'
    {
      OwnedBefore(h, order, i, k, free, m);
    }
  }

  lemma MergedHere(h: Phys, order: seq<nat>, i: nat, k: nat, free: bool)
    requires Sorted(order) && i <= k < |order| - 1 && order[i] + BHDR_OVERHEAD < order[k + 1]
    ensures var h' := Merged(h, order[i], order[k + 1], free);
            order[i] in Cut(order, i, k) && IsFree(h', order[i]) == free && Size(h', order[i]) > 0
  {
    assert Cut(order, i, k)[i] == order[i];
  }

  lemma OwnedBefore(h: Phys, order: seq<nat>, i: nat, k: nat, free: bool, m: nat)
    requires Sorted(order) && i <= k < |order| - 1 && order[i] + BHDR_OVERHEAD < order[k + 1] && m < |Cut(order, i, k)|
    ensures var h' := Merged(h, order[i], order[k + 1], free); var x := Cut(order, i, k)[m];
            x == order[i] || (x in order && IsFree(h', x) == IsFree(h, x) && Size(h', x) == Size(h, x) && !Among(order, i, k, x))
  {
    var n := if m <= i then m else m - i + k;
    assert Cut(order, i, k)[m] == order[n];
  }

  lemma SplitClients(h: Phys, base: nat, order: seq<nat>, i: nat, n: nat, clients: set<nat>, m: Bytes)
    requires PhysOk(h, base, order) && i + 1 < |order| && order[i + 1] == End(h, order[i])
    requires order[i] + BHDR_OVERHEAD + n + BHDR_OVERHEAD <= order[i + 1]
    requires forall x | x in clients :: x in order && x != order[i]
    ensures var m' := Splitting(m, order[i], n, order[i + 1]);
            && ClientsKept(clients, h, Split(h, order[i], n, order[i + 1]), m, m')
            && SameBytes(m, m', Buffer(order[i]), Buffer(order[i]) + n)
  {
    var b: nat, next: nat := order[i], order[i + 1];
    var rest: nat := b + BHDR_OVERHEAD + n;
    var h', m' := Split(h, b, n, next), Splitting(m, b, n, next);
    forall x | x in clients ensures Size(h', x) == Size(h, x) && SameBytes(m, m', Buffer(x), End(h, x)) {
      HeaderApart(h, base, order, x, b);
      HeaderApart(h, base, order, x, next);
      var j :| 0 <= j < |order| && order[j] == x;
      Disjoint(h, base, order, i, j);
    }
  }

  /** Memory after a block has been split: three headers have been written. */
  function Splitting(m: Bytes, b: nat, n: nat, next: nat): Bytes {
    Clobber(Headers(m, b, next), b + BHDR_OVERHEAD + n, BHDR_OVERHEAD)
  }

  lemma SplitOwned(h: Phys, base: nat, order: seq<nat>, live: set<nat>, info: set<nat>, i: nat, n: nat)
    requires PhysOk(h, base, order) && Owned(h, order, live, info) && i + 1 < |order| && order[i + 1] == End(h, order[i])
    requires 0 < n && order[i] + BHDR_OVERHEAD + n + BHDR_OVERHEAD < order[i + 1] && !IsFree(h, order[i])
    ensures var rest: nat := order[i] + BHDR_OVERHEAD + n;
            Owned(Split(h, order[i], n, order[i + 1]), Inserted(order, i, rest), live, info)
  {
    hide PhysOk;
    AllAscending(h, base, order);
    var rest: nat := order[i] + BHDR_OVERHEAD + n;
    NotInside(h, base, order, i, rest);
    var h', order' := Split(h, order[i], n, order[i + 1]), Inserted(order, i, rest);
    SplitSame(h, order, i, n);
    assert order'[i] == order[i] && !IsFree(h', order[i]) && Size(h', order[i]) == n;
    hide PhysOk, Split, Inserted, Sorted;
    forall m | 0 <= m < |order'| && !IsFree(h', order'[m]) && Size(h', order'[m]) > 0
      ensures order'[m] in live || order'[m] in info
    {
      SplitUsed(h, order, live, info, i, n, m);
    }
  }

  lemma SplitUsed(h: Phys, order: seq<nat>, live: set<nat>, info: set<nat>, i: nat, n: nat, m: nat)
    requires Owned(h, order, live, info) && Sorted(order) && i + 1 < |order| && order[i + 1] == End(h, order[i])
    requires order[i] + BHDR_OVERHEAD + n + BHDR_OVERHEAD < order[i + 1] && !IsFree(h, order[i]) && m < |order| + 1
    requires forall j | 0 <= j < |order| :: order[j] != order[i] + BHDR_OVERHEAD + n
    requires var h', x := Split(h, order[i], n, order[i + 1]), Inserted(order, i, order[i] + BHDR_OVERHEAD + n)[m];
             !IsFree(h', x) && Size(h', x) > 0
    ensures Inserted(order, i, order[i] + BHDR_OVERHEAD + n)[m] in live + info
  {
    SplitBefore(h, order, i, n, m);
    hide Split, Inserted, Sorted;
    var q := if m <= i then m else m - 1;
    assert order[q] in live || order[q] in info;
  }

  // ---------------------------------------------------------------- areas

  /** An area: the block with its description, which is its first, and its sentinel. */
  datatype Area = Area(ib: nat, end: nat)

  /** A block has a description exactly when it is the first one of an area; it is not the only one. */
  predicate StartOk(h: Phys, order: seq<nat>, info: set<nat>, i: nat)
    requires i < |order|
  {
    && (order[i] in info <==> i == 0 || Size(h, order[i - 1]) == 0)
    && (i > 0 && order[i - 1] in info ==> Size(h, order[i]) > 0)
  }

  ghost predicate Starts(h: Phys, order: seq<nat>, info: set<nat>) {
    && (forall i | 0 <= i < |order| :: StartOk(h, order, info, i))
    && (forall b | b in info :: b in order && Size(h, b) == 16)
  }

  /** The sentinel at the end of an area is the first one after its start. */
  ghost predicate Spans(h: Phys, order: seq<nat>, a: Area) {
    a.ib < a.end && forall x | x in order && a.ib <= x < a.end :: Size(h, x) > 0
  }

  /** The list of areas; none is side by side with another. */
  ghost predicate Listed(h: Phys, order: seq<nat>, info: set<nat>, areas: seq<Area>) {
    && (forall j | 0 <= j < |areas| :: Spans(h, order, areas[j]))
    && (forall j | 0 <= j < |areas| :: areas[j].ib in info && areas[j].end in order && Size(h, areas[j].end) == 0)
    && (forall j, k | 0 <= j < |areas| && 0 <= k < |areas| && j != k ::
         areas[j].ib != areas[k].ib && areas[j].end != areas[k].end && areas[j].end + BHDR_OVERHEAD != areas[k].ib)
  }

  /** Every area is on the list. */
  ghost predicate Covered(info: set<nat>, areas: seq<Area>) {
    forall b | b in info :: exists j :: 0 <= j < |areas| && areas[j].ib == b
  }

  ghost predicate AreasOk(h: Phys, order: seq<nat>, info: set<nat>, areas: seq<Area>) {
    Starts(h, order, info) && Listed(h, order, info, areas)
  }

  /** Merging blocks of which only the first may be a sentinel, and none is the first of an area, leaves the
      areas alone. */
  lemma MergeStarts(h: Phys, order: seq<nat>, info: set<nat>, i: nat, k: nat, free: bool)
    requires Sorted(order) && Starts(h, order, info) && i <= k < |order| - 1 && order[i] + BHDR_OVERHEAD < order[k + 1]
    requires order[i] !in info && Size(h, order[k]) > 0
    ensures Starts(Merged(h, order[i], order[k + 1], free), Cut(order, i, k), Rest(info, order, i, k))
  {
    var h', order', info' := Merged(h, order[i], order[k + 1], free), Cut(order, i, k), Rest(info, order, i, k);
    forall m | 0 <= m < |order'| ensures StartOk(h', order', info', m) {
      MergeStart(h, order, info, i, k, free, m);
    }
    forall b | b in info' ensures b in order' && Size(h', b) == 16 {
      var j :| 0 <= j < |order| && order[j] == b;
      assert order'[if j <= i then j else j - k + i] == b;
    }
    hide Merged, Cut, StartOk;
  }

  lemma MergeStart(h: Phys, order: seq<nat>, info: set<nat>, i: nat, k: nat, free: bool, m: nat)
    requires Sorted(order) && Starts(h, order, info) && i <= k < |order| - 1 && order[i] + BHDR_OVERHEAD < order[k + 1]
    requires order[i] !in info && Size(h, order[k]) > 0 && m < |Cut(order, i, k)|
    ensures StartOk(Merged(h, order[i], order[k + 1], free), Cut(order, i, k), Rest(info, order, i, k), m)
  {
    var n := if m <= i then m else m - i + k;
    assert Cut(order, i, k)[m] == order[n];
    assert StartOk(h, order, info, n);
    RestAt(order, info, i, k, n);
    if m > 0 {
      MergedSize(h, order, i, k, free, m);
      assert Cut(order, i, k)[m - 1] == order[if m - 1 <= i then m - 1 else m - 1 - i + k];
      RestAt(order, info, i, k, if m - 1 <= i then m - 1 else m - 1 - i + k);
    }
    hide Sorted, Starts, Rest, Among;
  }

  /** A block that does not merge, or is the first of those that do and no description, is in the rest if it was
      there. */
  lemma RestAt(order: seq<nat>, info: set<nat>, i: nat, k: nat, n: nat)
    requires Sorted(order) && i <= k < |order| && n < |order| && (n < i || n > k || order[n] !in info)
    ensures order[n] in Rest(info, order, i, k) <==> order[n] in info
  {
  }

  /** A block is the last of its area after the merge exactly when the one that was there before is. */
  lemma MergedSize(h: Phys, order: seq<nat>, i: nat, k: nat, free: bool, m: nat)
    requires Sorted(order) && i <= k < |order| - 1 && order[i] + BHDR_OVERHEAD < order[k + 1]
    requires Size(h, order[k]) > 0 && 0 < m < |Cut(order, i, k)|
    ensures var n := if m <= i then m else m - i + k;
            Size(Merged(h, order[i], order[k + 1], free), Cut(order, i, k)[m - 1]) == 0 <==> Size(h, order[n - 1]) == 0
  {
    assert Cut(order, i, k)[m - 1] == order[if m - 1 <= i then m - 1 else m - 1 - i + k];
  }

  lemma MergeListed(h: Phys, order: seq<nat>, info: set<nat>, areas: seq<Area>, i: nat, k: nat, free: bool)
    requires Sorted(order) && Listed(h, order, info, areas) && i <= k < |order| - 1 && order[i] + BHDR_OVERHEAD < order[k + 1]
    requires forall j | 0 <= j < |areas| :: !Among(order, i, k, areas[j].ib) && !Among(order, i, k, areas[j].end)
    ensures Listed(Merged(h, order[i], order[k + 1], free), Cut(order, i, k), Rest(info, order, i, k), areas)
  {
    var h', order' := Merged(h, order[i], order[k + 1], free), Cut(order, i, k);
    forall j | 0 <= j < |areas| ensures areas[j].end in order' && Size(h', areas[j].end) == 0 {
      var m :| 0 <= m < |order| && order[m] == areas[j].end;
      assert m < i || m > k;
      assert order'[if m <= i then m else m - k + i] == areas[j].end;
    }
    forall j | 0 <= j < |areas| ensures Spans(h', order', areas[j]) {
      MergeSpans(h, order, areas[j], i, k, free);
    }
  }

  lemma MergeSpans(h: Phys, order: seq<nat>, a: Area, i: nat, k: nat, free: bool)
    requires Spans(h, order, a) && i <= k < |order| - 1 && order[i] + BHDR_OVERHEAD < order[k + 1]
    ensures Spans(Merged(h, order[i], order[k + 1], free), Cut(order, i, k), a)
  {
    var h', order' := Merged(h, order[i], order[k + 1], free), Cut(order, i, k);
    forall x | x in order' && a.ib <= x < a.end ensures Size(h', x) > 0 {
      assert x in order;
    }
  }

  lemma SplitAreas(h: Phys, base: nat, order: seq<nat>, info: set<nat>, areas: seq<Area>, i: nat, n: nat)
    requires PhysOk(h, base, order) && AreasOk(h, order, info, areas) && i + 1 < |order| && order[i + 1] == End(h, order[i])
    requires 0 < n && order[i] + BHDR_OVERHEAD + n + BHDR_OVERHEAD < order[i + 1] && order[i] !in info
    ensures var rest: nat := order[i] + BHDR_OVERHEAD + n;
            AreasOk(Split(h, order[i], n, order[i + 1]), Inserted(order, i, rest), info, areas)
  {
    AllAscending(h, base, order);
    var rest: nat := order[i] + BHDR_OVERHEAD + n;
    NotInside(h, base, order, i, rest);
    hide PhysOk;
    SplitSame(h, order, i, n);
    SplitStarts(h, order, info, i, n);
    SplitListed(h, order, info, areas, i, n);
    hide Starts, Listed;
  }

  lemma SplitStarts(h: Phys, order: seq<nat>, info: set<nat>, i: nat, n: nat)
    requires Sorted(order) && Starts(h, order, info) && i + 1 < |order| && order[i + 1] == End(h, order[i])
    requires 0 < n && order[i] + BHDR_OVERHEAD + n + BHDR_OVERHEAD < order[i + 1] && order[i] !in info
    requires forall j | 0 <= j < |order| :: order[j] != order[i] + BHDR_OVERHEAD + n
    ensures var rest: nat := order[i] + BHDR_OVERHEAD + n;
            Starts(Split(h, order[i], n, order[i + 1]), Inserted(order, i, rest), info)
  {
    var rest: nat := order[i] + BHDR_OVERHEAD + n;
    var h', order' := Split(h, order[i], n, order[i + 1]), Inserted(order, i, rest);
    SplitSame(h, order, i, n);
    hide Split, Inserted, StartOk, Sorted;
    forall m | 0 <= m < |order'| ensures StartOk(h', order', info, m) {
      SplitStart(h, order, info, i, n, m);
    }
    forall b | b in info ensures b in order' && Size(h', b) == 16 {
      assert b in order && b != order[i];
    }
  }

  lemma SplitListed(h: Phys, order: seq<nat>, info: set<nat>, areas: seq<Area>, i: nat, n: nat)
    requires Sorted(order) && Listed(h, order, info, areas) && i + 1 < |order| && order[i + 1] == End(h, order[i])
    requires 0 < n && order[i] + BHDR_OVERHEAD + n + BHDR_OVERHEAD < order[i + 1] && order[i] !in info
    requires forall j | 0 <= j < |order| :: order[j] != order[i] + BHDR_OVERHEAD + n
    ensures var rest: nat := order[i] + BHDR_OVERHEAD + n;
            Listed(Split(h, order[i], n, order[i + 1]), Inserted(order, i, rest), info, areas)
  {
    SplitSame(h, order, i, n);
    assert forall j | 0 <= j < |areas| :: areas[j].end != order[i];
    hide Sorted;
    forall j | 0 <= j < |areas| ensures Spans(Split(h, order[i], n, order[i + 1]), Inserted(order, i, order[i] + BHDR_OVERHEAD + n), areas[j]) {
      SplitSpans(h, order, areas[j], i, n);
    }
    hide Split, Inserted;
  }

  lemma SplitSpans(h: Phys, order: seq<nat>, a: Area, i: nat, n: nat)
    requires Spans(h, order, a) && i + 1 < |order|
    requires 0 < n && order[i] + BHDR_OVERHEAD + n + BHDR_OVERHEAD < order[i + 1]
    ensures var rest: nat := order[i] + BHDR_OVERHEAD + n; Spans(Split(h, order[i], n, order[i + 1]), Inserted(order, i, rest), a)
  {
    var rest: nat := order[i] + BHDR_OVERHEAD + n;
    var h', order' := Split(h, order[i], n, order[i + 1]), Inserted(order, i, rest);
    forall x | x in order' && a.ib <= x < a.end ensures Size(h', x) > 0 {
      assert x in order || x == rest;
    }
  }

  lemma SplitStart(h: Phys, order: seq<nat>, info: set<nat>, i: nat, n: nat, m: nat)
    requires Sorted(order) && Starts(h, order, info) && i + 1 < |order| && order[i + 1] == End(h, order[i])
    requires 0 < n && order[i] + BHDR_OVERHEAD + n + BHDR_OVERHEAD < order[i + 1] && order[i] !in info
    requires var rest: nat := order[i] + BHDR_OVERHEAD + n;
             (forall j | 0 <= j < |order| :: order[j] != rest) && m < |Inserted(order, i, rest)|
    ensures var rest: nat := order[i] + BHDR_OVERHEAD + n;
            var h', order' := Split(h, order[i], n, order[i + 1]), Inserted(order, i, rest);
            StartOk(h', order', info, m)
  {
    var rest: nat := order[i] + BHDR_OVERHEAD + n;
    var order' := Inserted(order, i, rest);
    assert m != i + 1 ==> StartOk(h, order, info, if m <= i then m else m - 1);
    if m <= i {
      assert order'[m] == order[m] && (m > 0 ==> order'[m - 1] == order[m - 1]);
    } else if m == i + 1 {
      assert order'[m] == rest && order'[m - 1] == order[i];
    } else {
      assert order'[m] == order[m - 1] && order'[m - 1] == if m == i + 2 then rest else order[m - 2];
    }
  }

  /** Requests are rounded up to multiples of 16, at least the smallest block. */
  function Request(size: nat): nat {
    if size < MIN_BLOCK_SIZE then MIN_BLOCK_SIZE else (size + 15) / 16 * 16
  }

  lemma RequestAligned(size: nat)
    ensures Request(size) % 16 == 0 && size <= Request(size) && MIN_BLOCK_SIZE <= Request(size)
    ensures Request(size) == MIN_BLOCK_SIZE || Request(size) < size + 16
    ensures Request(size) < MAX_SIZE ==> Rounded(Request(size)) % 16 == 0 && MIN_BLOCK_SIZE <= Rounded(Request(size))
  {
    if Request(size) < MAX_SIZE {
      RoundedAligned(Request(size));
      RoundingIsSmall(Request(size));
    }
  }

  lemma RequestAgain(n: nat)
    requires n % 16 == 0 && MIN_BLOCK_SIZE <= n
    ensures Request(n) == n
  {
  }

  /** Every free block is smaller than `n` bytes. */
  ghost predicate NoFit(h: Phys, order: seq<nat>, n: nat) {
    forall x | x in order && IsFree(h, x) :: Size(h, x) < n
  }

  /** Some free block has at least `n` bytes. */
  ghost predicate HasFree(h: Phys, order: seq<nat>, n: nat) {
    exists x :: x in order && IsFree(h, x) && Size(h, x) >= n
  }

  lemma SmallerFree(h: Phys, order: seq<nat>, n: nat, m: nat)
    requires HasFree(h, order, n) && m <= n
    ensures HasFree(h, order, m)
  {
  }

  lemma FreeFits(h: Phys, order: seq<nat>, n: nat, m: nat)
    requires HasFree(h, order, n) && m <= n
    ensures !NoFit(h, order, m)
  {
  }

  /** What the search finds fits, and if it finds nothing, nothing fits. */
  lemma SearchResult(k: Heap, base: nat, order: seq<nat>, lists: seq<seq<nat>>, n: nat, c: nat, b: nat, d: nat)
    requires HeapOk(k, base, order, lists, {}) && c < CLASSES && Low(c) == n
    requires b == 0 ==> forall c' | c <= c' < CLASSES :: k.index.matrix[c'] == 0
    requires b != 0 ==> c <= d < CLASSES && k.index.matrix[d] == b
    ensures b != 0 ==> b in order && IsFree(k.phys, b) && n <= Size(k.phys, b) && b in lists[d]
    ensures b == 0 ==> NoFit(k.phys, order, n)
  {
    if b != 0 {
      SearchFound(k, base, order, lists, n, c, b, d);
    } else {
      hide Low;
      forall x | x in order && IsFree(k.phys, x) ensures Size(k.phys, x) < n {
        SearchMissed(k, base, order, lists, n, c, x);
      }
    }
  }

  lemma SearchFound(k: Heap, base: nat, order: seq<nat>, lists: seq<seq<nat>>, n: nat, c: nat, b: nat, d: nat)
    requires HeapOk(k, base, order, lists, {}) && Low(c) == n && b != 0 && c <= d < CLASSES && k.index.matrix[d] == b
    ensures b in order && IsFree(k.phys, b) && n <= Size(k.phys, b) && b in lists[d]
  {
    hide PhysOk, BitsOk, Low, Width, ClassOf;
    assert ListOk(k.links, b, lists[d]);
    assert lists[d][0] == b;
    ClassOfIs(Size(k.phys, b));
    if c < d {
      LowMonotonic(c, d);
    }
  }

  lemma SearchMissed(k: Heap, base: nat, order: seq<nat>, lists: seq<seq<nat>>, n: nat, c: nat, x: nat)
    requires HeapOk(k, base, order, lists, {}) && Low(c) == n && forall c' | c <= c' < CLASSES :: k.index.matrix[c'] == 0
    requires x in order && IsFree(k.phys, x)
    ensures Size(k.phys, x) < n
  {
    hide HeapOk, Low, Width, ClassOf;
    OnItsList(k, base, order, lists, x);
    var e := ClassOf(Size(k.phys, x));
    ClassOfIs(Size(k.phys, x));
    if e < c - 1 {
      LowMonotonic(e + 1, c);
    }
  }

  /** The list of a free block is not empty. */
  lemma OnItsList(k: Heap, base: nat, order: seq<nat>, lists: seq<seq<nat>>, x: nat)
    requires HeapOk(k, base, order, lists, {}) && x in order && IsFree(k.phys, x)
    ensures Size(k.phys, x) < MAX_SIZE && |k.index.matrix| == CLASSES && k.index.matrix[ClassOf(Size(k.phys, x))] != 0
  {
    hide PhysOk, BitsOk, ClassOf;
    var i: nat :| i < |order| && order[i] == x;
    var e := ClassOf(Size(k.phys, x));
    assert x in lists[e] && ListOk(k.links, k.index.matrix[e], lists[e]);
    hide ListsOk, Linked;
  }

  /** A free block off its list becomes a used one. */
  lemma UseAll(k: Heap, base: nat, order: seq<nat>, lists: seq<seq<nat>>, live: set<nat>, info: set<nat>, i: nat, m: Bytes)
    requires i < |order| && IsFree(k.phys, order[i])
    requires HeapOk(k, base, order, lists, {order[i]}) && Owned(k.phys, order, live, info)
    ensures i + 1 < |order| && order[i + 1] == End(k.phys, order[i]) && order[i] !in live
    ensures var b := order[i];
            var h' := Merged(k.phys, b, End(k.phys, b), false);
            && HeapOk(k.(phys := h'), base, order, lists, {})
            && Owned(h', order, live + {b}, info) && Size(h', b) == Size(k.phys, b) && !IsFree(h', order[i + 1])
            && ClientsKept(live, k.phys, h', m, Headers(m, b, End(k.phys, b)))
  {
    FreeHere(k.phys, base, order, i);
    UseFacts(k.phys, base, order, live, info, i);
    hide PhysOk, ListsOk, BitsOk, Linked, Owned, Sorted, Rest, ClientsKept, Headers, Among;
    MergeHeap(k, base, order, lists, {order[i]}, i, i, false);
    MergeOwned(k.phys, base, order, live, info, i, i, false);
    MergeClients(k.phys, base, order, i, i, false, live, m);
  }

  /** One block by itself. */
  lemma UseFacts(h: Phys, base: nat, order: seq<nat>, live: set<nat>, info: set<nat>, i: nat)
    requires PhysOk(h, base, order) && i < |order| && IsFree(h, order[i]) && Owned(h, order, live, info)
    ensures Sorted(order) && Cut(order, i, i) == order && order[i] !in live && order[i] !in info
    ensures Rest(live, order, i, i) + {order[i]} == live + {order[i]} && Rest(info, order, i, i) == info
    ensures forall x | x in live :: x in order && !Among(order, i, i, x)
    ensures forall m | 0 <= m < |order| && m != i :: order[m] !in {order[i]}
  {
    AllAscending(h, base, order);
  }

  lemma UseAreas(k: Heap, base: nat, order: seq<nat>, lists: seq<seq<nat>>, live: set<nat>, info: set<nat>, areas: seq<Area>, i: nat)
    requires i < |order| && IsFree(k.phys, order[i])
    requires HeapOk(k, base, order, lists, {order[i]}) && Owned(k.phys, order, live, info) && AreasOk(k.phys, order, info, areas)
    ensures AreasOk(Merged(k.phys, order[i], End(k.phys, order[i]), false), order, info, areas)
  {
    FreeHere(k.phys, base, order, i);
    UseFacts(k.phys, base, order, live, info, i);
    UseApart(k.phys, order, info, areas, i);
    hide PhysOk, ListsOk, BitsOk, Linked, Owned, Starts, Listed, Sorted, Rest, Among;
    MergeStarts(k.phys, order, info, i, i, false);
    MergeListed(k.phys, order, info, areas, i, i, false);
  }

  lemma UseApart(h: Phys, order: seq<nat>, info: set<nat>, areas: seq<Area>, i: nat)
    requires Listed(h, order, info, areas) && i < |order| && order[i] !in info && Size(h, order[i]) > 0
    ensures forall j | 0 <= j < |areas| :: !Among(order, i, i, areas[j].ib) && !Among(order, i, i, areas[j].end)
  {
  }

  lemma FreeHere(h: Phys, base: nat, order: seq<nat>, i: nat)
    requires PhysOk(h, base, order) && i < |order| && IsFree(h, order[i])
    ensures i + 1 < |order| && order[i + 1] == End(h, order[i]) && !IsFree(h, order[i + 1]) && Size(h, order[i]) > 0
  {
    assert BlockOk(h, base, order[i]) && i + 1 < |order|;
    assert PairOk(h, order[i], order[i + 1]);
  }

  lemma IndexOf(order: seq<nat>, b: nat) returns (i: nat)
    requires b in order
    ensures i < |order| && order[i] == b
  {
    i :| i < |order| && order[i] == b;
  }

  lemma NothingChanged(clients: set<nat>, h: Phys, m: Bytes, lo: nat, hi: nat)
    ensures ClientsKept(clients, h, h, m, m) && SameBytes(m, m, lo, hi)
  {
  }

  lemma SomeClients(clients: set<nat>, b: nat, h: Phys, m: Bytes, m': Bytes)
    requires ClientsKept(clients, h, h, m, m') && b in clients
    ensures ClientsKept(clients - {b}, h, h, m, m') && SameBytes(m, m', Buffer(b), Buffer(b) + Size(h, b))
  {
  }

  lemma SplitAll(k: Heap, base: nat, order: seq<nat>, lists: seq<seq<nat>>, live: set<nat>, info: set<nat>, i: nat, n: nat, m: Bytes)
    requires HeapOk(k, base, order, lists, {}) && Owned(k.phys, order, live, info)
    requires i + 1 < |order| && order[i] in live && !IsFree(k.phys, order[i + 1])
    requires n % 16 == 0 && MIN_BLOCK_SIZE <= n && n + 32 <= Size(k.phys, order[i])
    ensures var b: nat, rest: nat, next: nat := order[i], order[i] + BHDR_OVERHEAD + n, End(k.phys, order[i]);
            && b + BHDR_OVERHEAD + n + BHDR_OVERHEAD <= next
            && var h' := Split(k.phys, b, n, next); var order' := Inserted(order, i, rest);
            && HeapOk(k.(phys := h'), base, order', lists, {rest}) && rest in order' && IsFree(h', rest)
            && Owned(h', order', live, info) && Size(h', b) == n
            && ClientsKept(live - {b}, k.phys, h', m, Splitting(m, b, n, next))
            && SameBytes(m, Splitting(m, b, n, next), Buffer(b), Buffer(b) + n)
  {
    var h := k.phys;
    SplitHeap(k, base, order, lists, i, n);
    OwnedUsed(h, order, live, info);
    hide ListsOk, BitsOk, Linked;
    SplitOwned(h, base, order, live, info, i, n);
    hide Owned;
    SplitClients(h, base, order, i, n, live - {order[i]}, m);
    assert Inserted(order, i, order[i] + BHDR_OVERHEAD + n)[i + 1] == order[i] + BHDR_OVERHEAD + n;
    hide PhysOk, ClientsKept, SameBytes;
  }

  lemma SplitAllAreas(k: Heap, base: nat, order: seq<nat>, lists: seq<seq<nat>>, live: set<nat>, info: set<nat>, areas: seq<Area>,
                      i: nat, n: nat)
    requires HeapOk(k, base, order, lists, {}) && Owned(k.phys, order, live, info) && AreasOk(k.phys, order, info, areas)
    requires i + 1 < |order| && order[i] in live
    requires MIN_BLOCK_SIZE <= n && n + 32 <= Size(k.phys, order[i])
    ensures var b: nat, rest: nat, next: nat := order[i], order[i] + BHDR_OVERHEAD + n, End(k.phys, order[i]);
            && b + BHDR_OVERHEAD + n + BHDR_OVERHEAD <= next
            && AreasOk(Split(k.phys, b, n, next), Inserted(order, i, rest), info, areas)
  {
    Neighbours(k.phys, base, order, i);
    hide ListsOk, BitsOk, Linked;
    SplitAreas(k.phys, base, order, info, areas, i, n);
  }

  /** The first and the last of the blocks that merge when the one at `i` is freed. */
  function Lo(h: Phys, order: seq<nat>, i: nat): nat
    requires i < |order|
  {
    if Word(h, order[i]).prevFree && i > 0 then i - 1 else i
  }

  function Hi(h: Phys, order: seq<nat>, i: nat): nat
    requires i + 1 < |order|
  {
    if IsFree(h, order[i + 1]) then i + 1 else i
  }

  function After(h: Phys, order: seq<nat>, i: nat): set<nat>
    requires i + 1 < |order|
  {
    if IsFree(h, order[i + 1]) then {order[i + 1]} else {}
  }

  function Before(h: Phys, order: seq<nat>, i: nat): set<nat>
    requires i < |order|
  {
    if Word(h, order[i]).prevFree && i > 0 then {order[i - 1]} else {}
  }

  function Neighbouring(h: Phys, order: seq<nat>, i: nat): set<nat>
    requires i + 1 < |order|
  {
    After(h, order, i) + Before(h, order, i)
  }

  /** Where a block starts after it has been merged with a free block before it. */
  function FirstOf(h: Phys, b: nat): nat {
    if Word(h, b).prevFree then Get(h.prevHdr, b) else b
  }

  /** Where the next one starts after it has been merged with a free block behind it. */
  function NextOf(h: Phys, b: nat): nat {
    if IsFree(h, End(h, b)) then End(h, End(h, b)) else End(h, b)
  }

  /** The sizes that freeing a block has to do with have classes. */
  predicate Freeable(h: Phys, b: nat) {
    && FirstOf(h, b) + BHDR_OVERHEAD <= NextOf(h, b) < FirstOf(h, b) + BHDR_OVERHEAD + MAX_SIZE
    && Size(h, End(h, b)) < MAX_SIZE && Size(h, FirstOf(h, b)) < MAX_SIZE
  }

  lemma OwnedUsed(h: Phys, order: seq<nat>, live: set<nat>, info: set<nat>)
    requires Owned(h, order, live, info)
    ensures forall x | x in live :: x in order && !IsFree(h, x)
  {
  }

  lemma UsedChain(h: Phys, order: seq<nat>, m: Bytes, m1: Bytes, m2: Bytes)
    requires UsedKept(h, order, m, m1) && UsedKept(h, order, m1, m2)
    ensures UsedKept(h, order, m, m2)
  {
    forall x | x in order && !IsFree(h, x) ensures SameBytes(m, m2, Buffer(x), End(h, x)) {
      BytesChain(m, m1, m2, Buffer(x), End(h, x));
    }
  }

  lemma UsedSame(h: Phys, order: seq<nat>, m: Bytes)
    ensures UsedKept(h, order, m, m)
  {
  }

  lemma NotNext(h: Phys, base: nat, order: seq<nat>, i: nat)
    requires PhysOk(h, base, order) && i < |order| - 1
    ensures i > 0 ==> order[i - 1] != order[i + 1]
  {
    AllAscending(h, base, order);
  }

  /** The blocks that merge lie side by side, and neither end has another free neighbour. */
  lemma FreeRange(h: Phys, base: nat, order: seq<nat>, i: nat)
    requires PhysOk(h, base, order) && i < |order| && !IsFree(h, order[i]) && Size(h, order[i]) > 0
    ensures i + 1 < |order| && Hi(h, order, i) + 1 < |order|
    ensures forall m | Lo(h, order, i) <= m <= Hi(h, order, i) :: order[m + 1] == End(h, order[m])
    ensures !IsFree(h, order[Hi(h, order, i) + 1]) && (Lo(h, order, i) > 0 ==> !IsFree(h, order[Lo(h, order, i) - 1]))
    ensures order[Lo(h, order, i)] + BHDR_OVERHEAD < order[Hi(h, order, i) + 1]
  {
    Neighbours(h, base, order, i);
    AllAscending(h, base, order);
    hide PhysOk;
  }

  lemma FreeHole(h: Phys, order: seq<nat>, i: nat)
    requires Sorted(order) && i + 1 < |order| && !IsFree(h, order[i])
    ensures forall m | 0 <= m < |order| ::
      if Lo(h, order, i) <= m <= Hi(h, order, i) then IsFree(h, order[m]) ==> order[m] in Neighbouring(h, order, i)
      else order[m] !in Neighbouring(h, order, i)
    ensures forall m | Lo(h, order, i) <= m <= Hi(h, order, i) && m != i :: order[m] in Neighbouring(h, order, i)
  {
  }

  /** A used block merges with its free neighbours, which are off their lists, into one free block. */
  lemma FreeMergeHeap(k: Heap, base: nat, order: seq<nat>, lists: seq<seq<nat>>, live: set<nat>, info: set<nat>, i: nat)
    requires i + 1 < |order| && order[i] in live && Owned(k.phys, order, live, info)
    requires HeapOk(k, base, order, lists, Neighbouring(k.phys, order, i))
    ensures var lo, hi := Lo(k.phys, order, i), Hi(k.phys, order, i);
            && hi + 1 < |order| && order[lo] + BHDR_OVERHEAD < order[hi + 1]
            && var h' := Merged(k.phys, order[lo], order[hi + 1], true);
            && HeapOk(k.(phys := h'), base, Cut(order, lo, hi), lists, {order[lo]})
            && order[lo] in Cut(order, lo, hi) && IsFree(h', order[lo])
  {
    FreeRange(k.phys, base, order, i);
    AllAscending(k.phys, base, order);
    FreeHole(k.phys, order, i);
    hide PhysOk, ListsOk, BitsOk, Linked, Owned, Lo, Hi, Neighbouring, Sorted;
    var lo, hi := Lo(k.phys, order, i), Hi(k.phys, order, i);
    MergeHeap(k, base, order, lists, Neighbouring(k.phys, order, i), lo, hi, true);
    assert Cut(order, lo, hi)[lo] == order[lo];
  }

  lemma FreeMergeOwned(k: Heap, base: nat, order: seq<nat>, lists: seq<seq<nat>>, live: set<nat>, info: set<nat>, i: nat, m: Bytes)
    requires i + 1 < |order| && order[i] in live && Owned(k.phys, order, live, info)
    requires HeapOk(k, base, order, lists, Neighbouring(k.phys, order, i))
    ensures var lo, hi := Lo(k.phys, order, i), Hi(k.phys, order, i);
            && hi + 1 < |order| && order[lo] + BHDR_OVERHEAD < order[hi + 1]
            && var h' := Merged(k.phys, order[lo], order[hi + 1], true);
            && Owned(h', Cut(order, lo, hi), live - {order[i]}, info)
            && ClientsKept(live - {order[i]}, k.phys, h', m, Headers(m, order[lo], order[hi + 1]))
  {
    var h := k.phys;
    FreeRange(h, base, order, i);
    var lo, hi := Lo(h, order, i), Hi(h, order, i);
    FreeRest(h, base, order, live, info, i);
    hide PhysOk, ListsOk, BitsOk, Linked, Lo, Hi, Neighbouring;
    MergeOwned(h, base, order, live, info, lo, hi, true);
    MergeClients(h, base, order, lo, hi, true, live - {order[i]}, m);
  }

  lemma FreeMergeAreas(k: Heap, base: nat, order: seq<nat>, lists: seq<seq<nat>>, live: set<nat>, info: set<nat>, i: nat,
                       areas: seq<Area>)
    requires i + 1 < |order| && order[i] in live && Owned(k.phys, order, live, info) && AreasOk(k.phys, order, info, areas)
    requires HeapOk(k, base, order, lists, Neighbouring(k.phys, order, i))
    ensures var lo, hi := Lo(k.phys, order, i), Hi(k.phys, order, i);
            && hi + 1 < |order| && order[lo] + BHDR_OVERHEAD < order[hi + 1]
            && AreasOk(Merged(k.phys, order[lo], order[hi + 1], true), Cut(order, lo, hi), info, areas)
  {
    var h := k.phys;
    FreeRange(h, base, order, i);
    var lo, hi := Lo(h, order, i), Hi(h, order, i);
    FreeRest(h, base, order, live, info, i);
    FreeSizes(h, base, order, live, info, i);
    AllAscending(h, base, order);
    hide PhysOk, ListsOk, BitsOk, Linked, Lo, Hi, Neighbouring;
    MergeStarts(h, order, info, lo, hi, true);
    MergeListed(h, order, info, areas, lo, hi, true);
  }

  lemma FreeMergeSize(h: Phys, base: nat, order: seq<nat>, i: nat)
    requires PhysOk(h, base, order) && i < |order| && !IsFree(h, order[i]) && Size(h, order[i]) > 0
    ensures i + 1 < |order| && Hi(h, order, i) + 1 < |order|
    ensures End(h, order[i]) <= order[Hi(h, order, i) + 1] && order[Lo(h, order, i)] <= order[i]
  {
    Neighbours(h, base, order, i);
    AllAscending(h, base, order);
  }

  /** The merged block is no smaller. */
  lemma FreeSizeOf(k: Heap, base: nat, order: seq<nat>, lists: seq<seq<nat>>, live: set<nat>, info: set<nat>, i: nat)
    requires i + 1 < |order| && order[i] in live && Owned(k.phys, order, live, info)
    requires HeapOk(k, base, order, lists, Neighbouring(k.phys, order, i))
    ensures Hi(k.phys, order, i) + 1 < |order|
    ensures var lo, next := order[Lo(k.phys, order, i)], order[Hi(k.phys, order, i) + 1];
            lo + BHDR_OVERHEAD <= next && Size(Merged(k.phys, lo, next, true), lo) >= Size(k.phys, order[i])
  {
    hide ListsOk, BitsOk, Linked, Lo, Hi;
    FreeMergeSize(k.phys, base, order, i);
  }

  lemma OwnedSizes(h: Phys, order: seq<nat>, live: set<nat>, info: set<nat>)
    requires Owned(h, order, live, info)
    ensures forall x | x in live :: x in order && Size(h, x) > 0
  {
  }

  lemma FreeSizes(h: Phys, base: nat, order: seq<nat>, live: set<nat>, info: set<nat>, i: nat)
    requires PhysOk(h, base, order) && Owned(h, order, live, info) && i + 1 < |order| && order[i] in live
    ensures forall m | Lo(h, order, i) <= m <= Hi(h, order, i) :: order[m] !in info && Size(h, order[m]) > 0
  {
    Neighbours(h, base, order, i);
    forall m | Lo(h, order, i) <= m <= Hi(h, order, i) ensures order[m] !in info && Size(h, order[m]) > 0 {
      assert BlockOk(h, base, order[m]);
    }
  }

  lemma FreeRest(h: Phys, base: nat, order: seq<nat>, live: set<nat>, info: set<nat>, i: nat)
    requires PhysOk(h, base, order) && Owned(h, order, live, info) && i + 1 < |order| && order[i] in live
    ensures var lo, hi := Lo(h, order, i), Hi(h, order, i);
            Rest(live, order, lo, hi) == live - {order[i]} && Rest(info, order, lo, hi) == info
            && forall x | x in live - {order[i]} :: x in order && !Among(order, lo, hi, x)
  {
    Neighbours(h, base, order, i);
    hide PhysOk;
    assert Among(order, Lo(h, order, i), Hi(h, order, i), order[i]);
  }

  lemma ExtractedFrom(k: Heap, base: nat, order: seq<nat>, lists: seq<seq<nat>>, hole: set<nat>, b: nat, fl: nat, sl: nat, m: Bytes)
    returns (lists': seq<seq<nat>>)
    requires HeapOk(k, base, order, lists, hole) && fl < REAL_FLI && sl < MAX_SLI && b in lists[ClassIndex(fl, sl)]
    ensures Shaped(k.index) && HeapOk(Extract(k, b, fl, sl), base, order, lists', hole + {b})
    ensures UsedKept(k.phys, order, m, Unlinking(m, b, Get(k.links.prev, b), Get(k.links.next, b)))
  {
    var c := ClassIndex(fl, sl);
    var j: nat :| j < |lists[c]| && lists[c][j] == b;
    ExtractKeeps(k, base, order, lists, hole, j, fl, sl);
    UnlinkingKeepsAll(k, base, order, lists, hole, c, b, m);
    lists' := lists[c := Without(lists[c], j)];
  }

  lemma SizeInRange(k: Heap, base: nat, order: seq<nat>, lists: seq<seq<nat>>, hole: set<nat>, b: nat)
    requires HeapOk(k, base, order, lists, hole) && b in order
    ensures Size(k.phys, b) < MAX_SIZE
    ensures IsFree(k.phys, b) ==> b in k.phys.words
  {
    assert BlockOk(k.phys, base, b);
  }

  lemma PutBack(s: set<nat>, x: nat)
    requires x in s
    ensures s - {x} + {x} == s
  {
  }
}
