/** The heap of the TLSF allocator: blocks and free lists together. */
module TlsfHeap {
  import opened TlsfMapping
  import opened TlsfBitmap
  import opened TlsfLists
  import opened TlsfBlocks

  datatype Heap = Heap(phys: Phys, links: Links, index: Index)

  /** Every free block but those in `hole` is on the list of its class, and the lists hold nothing else. */
  ghost predicate Linked(h: Phys, order: seq<nat>, lists: seq<seq<nat>>, hole: set<nat>) {
    && |lists| == CLASSES
    && (forall c, j | 0 <= c < CLASSES && 0 <= j < |lists[c]| ::
         var b := lists[c][j];
         b in order && IsFree(h, b) && b !in hole && Size(h, b) < MAX_SIZE && ClassOf(Size(h, b)) == c)
    && (forall i | 0 <= i < |order| && IsFree(h, order[i]) && order[i] !in hole ::
         Size(h, order[i]) < MAX_SIZE && order[i] in lists[ClassOf(Size(h, order[i]))])
  }

  ghost predicate HeapOk(k: Heap, base: nat, order: seq<nat>, lists: seq<seq<nat>>, hole: set<nat>) {
    && PhysOk(k.phys, base, order)
    && ListsOk(k.links, k.index, lists) && BitsOk(k.index)
    && Linked(k.phys, order, lists, hole)
  }

  /** The block goes off the list of its class. */
  function Extract(k: Heap, b: nat, fl: nat, sl: nat): (r: Heap)
    requires Shaped(k.index) && fl < REAL_FLI && sl < MAX_SLI
    ensures Shaped(r.index)
  {
    k.(links := Unlink(k.links, b),
       index := if k.index.matrix[ClassIndex(fl, sl)] == b then Unhead(k.index, fl, sl, Get(k.links.next, b)) else k.index)
  }

  /** The block goes to the head of a list. */
  function Insert(k: Heap, b: nat, fl: nat, sl: nat): (r: Heap)
    requires Shaped(k.index) && fl < REAL_FLI && sl < MAX_SLI
    ensures Shaped(r.index)
  {
    k.(links := Push(k.links, k.index.matrix[ClassIndex(fl, sl)], b), index := Rehead(k.index, fl, sl, b))
  }

  lemma ExtractLists(k: Links, x: Index, lists: seq<seq<nat>>, j: nat, fl: nat, sl: nat)
    requires ListsOk(k, x, lists) && BitsOk(x) && fl < REAL_FLI && sl < MAX_SLI && j < |lists[ClassIndex(fl, sl)]|
    ensures var c := ClassIndex(fl, sl); var b := lists[c][j];
            var x' := if x.matrix[c] == b then Unhead(x, fl, sl, Get(k.next, b)) else x;
            ListsOk(Unlink(k, b), x', lists[c := Without(lists[c], j)]) && BitsOk(x')
  {
    var c := ClassIndex(fl, sl);
    var b := lists[c][j];
    var k', lists' := Unlink(k, b), lists[c := Without(lists[c], j)];
    var x' := if x.matrix[c] == b then Unhead(x, fl, sl, Get(k.next, b)) else x;
    assert ListOk(k, x.matrix[c], lists[c]);
    if x.matrix[c] == b {
      UnheadBits(x, fl, sl, Get(k.next, b));
    }
    Unlinked(k, lists[c], j);
    WithoutAt(lists[c], j, 0);
    WithoutParts(lists, c, j);
    hide BitsOk, Bit, Select, Clear;
    forall d | 0 <= d < CLASSES ensures ListOk(k', x'.matrix[d], lists'[d]) {
      if d != c {
        assert Apart(lists[c], lists[d]);
        UnlinkElsewhere(k, lists[c], j, x.matrix[d], lists[d]);
      }
    }
  }

  lemma WithoutParts(lists: seq<seq<nat>>, c: nat, j: nat)
    requires c < |lists| && j < |lists[c]| && forall c, d | 0 <= c < d < |lists| :: Apart(lists[c], lists[d])
    ensures var lists' := lists[c := Without(lists[c], j)]; forall c, d | 0 <= c < d < |lists| :: Apart(lists'[c], lists'[d])
  {
  }

  lemma InsertLists(k: Links, x: Index, lists: seq<seq<nat>>, b: nat, fl: nat, sl: nat)
    requires ListsOk(k, x, lists) && BitsOk(x) && fl < REAL_FLI && sl < MAX_SLI && b != 0
    requires forall c | 0 <= c < CLASSES :: b !in lists[c]
    ensures var c := ClassIndex(fl, sl);
            ListsOk(Push(k, x.matrix[c], b), Rehead(x, fl, sl, b), lists[c := [b] + lists[c]]) && BitsOk(Rehead(x, fl, sl, b))
  {
    var c := ClassIndex(fl, sl);
    assert ListOk(k, x.matrix[c], lists[c]);
    var k', x', lists' := Push(k, x.matrix[c], b), Rehead(x, fl, sl, b), lists[c := [b] + lists[c]];
    ReheadBits(x, fl, sl, b);
    Pushed(k, lists[c], b);
    hide BitsOk, Bit, Select, Set;
    forall d | 0 <= d < CLASSES ensures ListOk(k', x'.matrix[d], lists'[d]) {
      if d != c {
        assert Apart(lists[c], lists[d]);
        PushElsewhere(k, lists[c], b, x.matrix[d], lists[d]);
      }
    }
    WithParts(lists, c, b);
  }

  lemma WithParts(lists: seq<seq<nat>>, c: nat, b: nat)
    requires c < |lists| && (forall c, d | 0 <= c < d < |lists| :: Apart(lists[c], lists[d]))
    requires forall d | 0 <= d < |lists| :: b !in lists[d]
    ensures var lists' := lists[c := [b] + lists[c]]; forall c, d | 0 <= c < d < |lists| :: Apart(lists'[c], lists'[d])
  {
  }

  /** A free block taken off its list is in nobody's hands. */
  lemma ExtractLinked(h: Phys, order: seq<nat>, lists: seq<seq<nat>>, hole: set<nat>, c: nat, j: nat)
    requires Linked(h, order, lists, hole) && c < CLASSES && j < |lists[c]|
    requires forall j, j' | 0 <= j < j' < |lists[c]| :: lists[c][j] != lists[c][j']
    requires forall d | 0 <= d < CLASSES && d != c :: Apart(lists[c], lists[d])
    ensures Linked(h, order, lists[c := Without(lists[c], j)], hole + {lists[c][j]})
  {
    var b, lists' := lists[c][j], lists[c := Without(lists[c], j)];
    WithoutDistinct(lists[c], j);
    forall d, i | 0 <= d < CLASSES && 0 <= i < |lists'[d]| ensures lists'[d][i] in lists[d] && lists'[d][i] != b {
      if d != c {
        assert Apart(lists[c], lists[d]);
      }
    }
    forall i | 0 <= i < |order| && IsFree(h, order[i]) && order[i] !in hole + {b}
      ensures Size(h, order[i]) < MAX_SIZE && order[i] in lists'[ClassOf(Size(h, order[i]))]
    {
      var s := lists[ClassOf(Size(h, order[i]))];
      var m :| 0 <= m < |s| && s[m] == order[i];
      if ClassOf(Size(h, order[i])) == c {
        assert lists'[c][if m < j then m else m - 1] == order[i];
      }
    }
  }

  lemma InsertLinked(h: Phys, order: seq<nat>, lists: seq<seq<nat>>, hole: set<nat>, b: nat)
    requires Linked(h, order, lists, hole) && b in hole && b in order && IsFree(h, b) && Size(h, b) < MAX_SIZE
    ensures var c := ClassOf(Size(h, b)); Linked(h, order, lists[c := [b] + lists[c]], hole - {b})
  {
    var c := ClassOf(Size(h, b));
    var lists' := lists[c := [b] + lists[c]];
    forall d, i | 0 <= d < CLASSES && 0 <= i < |lists'[d]| ensures lists'[d][i] in lists[d] || (d == c && lists'[d][i] == b) {
    }
  }

  lemma ExtractKeeps(k: Heap, base: nat, order: seq<nat>, lists: seq<seq<nat>>, hole: set<nat>, j: nat, fl: nat, sl: nat)
    requires HeapOk(k, base, order, lists, hole) && fl < REAL_FLI && sl < MAX_SLI && j < |lists[ClassIndex(fl, sl)]|
    ensures var c := ClassIndex(fl, sl); var b := lists[c][j];
            HeapOk(Extract(k, b, fl, sl), base, order, lists[c := Without(lists[c], j)], hole + {b})
  {
    var c := ClassIndex(fl, sl);
    ExtractLists(k.links, k.index, lists, j, fl, sl);
    assert ListOk(k.links, k.index.matrix[c], lists[c]);
    ExtractLinked(k.phys, order, lists, hole, c, j);
    hide PhysOk, ListsOk, BitsOk, Linked;
  }

  lemma InsertKeeps(k: Heap, base: nat, order: seq<nat>, lists: seq<seq<nat>>, hole: set<nat>, b: nat, fl: nat, sl: nat)
    requires HeapOk(k, base, order, lists, hole) && fl < REAL_FLI && sl < MAX_SLI
    requires b in hole && b in order && IsFree(k.phys, b) && Size(k.phys, b) < MAX_SIZE && ClassOf(Size(k.phys, b)) == ClassIndex(fl, sl)
    ensures var c := ClassIndex(fl, sl); HeapOk(Insert(k, b, fl, sl), base, order, lists[c := [b] + lists[c]], hole - {b})
  {
    InsertLinked(k.phys, order, lists, hole, b);
    assert b != 0;
    InsertLists(k.links, k.index, lists, b, fl, sl);
    hide PhysOk, ListsOk, BitsOk, Linked;
  }

  // ---------------------------------------------------------------- merging and splitting

  /** Blocks `i` to `k` of which none is on a list become one. */
  lemma MergeLinked(h: Phys, base: nat, order: seq<nat>, lists: seq<seq<nat>>, hole: set<nat>, i: nat, k: nat, free: bool)
    requires PhysOk(h, base, order) && Linked(h, order, lists, hole) && i <= k < |order| - 1
    requires order[i] + BHDR_OVERHEAD < order[k + 1]
    requires forall m | 0 <= m < |order| :: if i <= m <= k then IsFree(h, order[m]) ==> order[m] in hole else order[m] !in hole
    ensures Linked(Merged(h, order[i], order[k + 1], free), Cut(order, i, k), lists, if free then {order[i]} else {})
  {
    AllAscending(h, base, order);
    var h', order' := Merged(h, order[i], order[k + 1], free), Cut(order, i, k);
    forall m | 0 <= m < |order| && (m < i || m > k)
      ensures IsFree(h', order[m]) == IsFree(h, order[m]) && Size(h', order[m]) == Size(h, order[m])
    {
    }
    forall c, j | 0 <= c < CLASSES && 0 <= j < |lists[c]|
      ensures lists[c][j] in order' && lists[c][j] != order[i]
        && IsFree(h', lists[c][j]) && Size(h', lists[c][j]) == Size(h, lists[c][j])
    {
      var m :| 0 <= m < |order| && order[m] == lists[c][j];
      assert order'[if m <= i then m else m - k + i] == lists[c][j];
    }
    forall m | 0 <= m < |order'| && IsFree(h', order'[m]) && (!free || order'[m] != order[i])
      ensures Size(h', order'[m]) < MAX_SIZE && order'[m] in lists[ClassOf(Size(h', order'[m]))]
    {
      var n := if m <= i then m else m - i + k;
      assert order'[m] == order[n];
    }
  }

  lemma SplitLinked(h: Phys, base: nat, order: seq<nat>, lists: seq<seq<nat>>, i: nat, n: nat)
    requires PhysOk(h, base, order) && Linked(h, order, lists, {}) && i < |order| - 1 && !IsFree(h, order[i])
    requires n >= MIN_BLOCK_SIZE && n + BHDR_OVERHEAD < Size(h, order[i]) && order[i + 1] == End(h, order[i])
    ensures var rest: nat := order[i] + BHDR_OVERHEAD + n;
            Linked(Split(h, order[i], n, order[i + 1]), Inserted(order, i, rest), lists, {rest})
  {
    AllAscending(h, base, order);
    var rest: nat := order[i] + BHDR_OVERHEAD + n;
    NotInside(h, base, order, i, rest);
    var h', order' := Split(h, order[i], n, order[i + 1]), Inserted(order, i, rest);
    forall m | 0 <= m < |order| && m != i
      ensures IsFree(h', order[m]) == IsFree(h, order[m]) && Size(h', order[m]) == Size(h, order[m])
    {
    }
    forall c, j | 0 <= c < CLASSES && 0 <= j < |lists[c]|
      ensures lists[c][j] in order' && lists[c][j] != rest
        && IsFree(h', lists[c][j]) && Size(h', lists[c][j]) == Size(h, lists[c][j])
    {
      var m :| 0 <= m < |order| && order[m] == lists[c][j];
      assert order'[if m <= i then m else m + 1] == lists[c][j];
    }
    forall m | 0 <= m < |order'| && IsFree(h', order'[m]) && order'[m] != rest
      ensures Size(h', order'[m]) < MAX_SIZE && order'[m] in lists[ClassOf(Size(h', order'[m]))]
    {
      assert order'[m] == order[if m <= i then m else m - 1];
    }
  }

  lemma MergeHeap(k: Heap, base: nat, order: seq<nat>, lists: seq<seq<nat>>, hole: set<nat>, i: nat, j: nat, free: bool)
    requires HeapOk(k, base, order, lists, hole) && i <= j < |order| - 1
    requires forall m | i <= m <= j :: order[m + 1] == End(k.phys, order[m])
    requires order[i] + BHDR_OVERHEAD < order[j + 1]
    requires free ==> !IsFree(k.phys, order[j + 1]) && (i > 0 ==> !IsFree(k.phys, order[i - 1]))
    requires forall m | 0 <= m < |order| :: if i <= m <= j then IsFree(k.phys, order[m]) ==> order[m] in hole else order[m] !in hole
    ensures HeapOk(k.(phys := Merged(k.phys, order[i], order[j + 1], free)), base, Cut(order, i, j), lists,
                   if free then {order[i]} else {})
  {
    MergeKeeps(k.phys, base, order, i, j, free);
    MergeLinked(k.phys, base, order, lists, hole, i, j, free);
    hide PhysOk, ListsOk, BitsOk, Linked;
  }

  lemma SplitHeap(k: Heap, base: nat, order: seq<nat>, lists: seq<seq<nat>>, i: nat, n: nat)
    requires HeapOk(k, base, order, lists, {}) && i < |order| - 1 && !IsFree(k.phys, order[i]) && !IsFree(k.phys, order[i + 1])
    requires n % 16 == 0 && n >= MIN_BLOCK_SIZE && n + BHDR_OVERHEAD < Size(k.phys, order[i])
    ensures order[i + 1] == End(k.phys, order[i])
    ensures var rest: nat := order[i] + BHDR_OVERHEAD + n;
            HeapOk(k.(phys := Split(k.phys, order[i], n, order[i + 1])), base, Inserted(order, i, rest), lists, {rest})
  {
    SplitKeeps(k.phys, base, order, i, n);
    SplitLinked(k.phys, base, order, lists, i, n);
    hide PhysOk, ListsOk, BitsOk, Linked;
  }
}
