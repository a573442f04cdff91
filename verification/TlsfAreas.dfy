/** Growing the heap of the TLSF allocator: new areas, merged with their neighbours. */
module TlsfAreas {
  import opened TlsfMapping
  import opened Options
  import opened TlsfBitmap
  import opened TlsfLists
  import opened TlsfBlocks
  import opened TlsfHeap
  import opened TlsfClients

  /** The size of the one block of a new area of `size` bytes. */
  function AreaBlock(size: nat): nat
    requires size >= 80
  {
    (size - 3 * BHDR_OVERHEAD - 16) / 16 * 16
  }

  /** A new area: the block with the description, one used block, and the sentinel.  The sentinel learns that the
      block before it is free when that block is freed. */
  function Laid(h: Phys, area: nat, size: nat): Phys
    requires size >= 80
  {
    var b0: nat := area + BHDR_OVERHEAD + 16;
    var lb: nat := b0 + BHDR_OVERHEAD + AreaBlock(size);
    Phys(h.words[area := SizeWord(16, false, false)][b0 := SizeWord(AreaBlock(size), false, false)][lb := SizeWord(0, false, false)],
         h.prevHdr[lb := b0])
  }

  function With3(order: seq<nat>, p: nat, x: nat, y: nat, z: nat): (r: seq<nat>)
    requires p <= |order|
    ensures |r| == |order| + 3
  {
    order[..p] + [x, y, z] + order[p..]
  }

  /** Address `area` lies in the gap before block `p`, between two areas or beyond them all. */
  predicate Gap(h: Phys, order: seq<nat>, p: nat, area: nat, size: nat) {
    && p <= |order|
    && (p > 0 ==> Size(h, order[p - 1]) == 0 && End(h, order[p - 1]) <= area)
    && (p < |order| ==> area + size <= order[p])
  }

  lemma LaidAt(h: Phys, base: nat, order: seq<nat>, p: nat, area: nat, size: nat)
    requires PhysOk(h, base, order) && Gap(h, order, p, area, size) && size >= 80
    ensures forall m | 0 <= m < |order| :: order[m] < area || order[m] >= area + size
    ensures forall m | 0 <= m < |order| ::
      Word(Laid(h, area, size), order[m]) == Word(h, order[m])
      && Get(Laid(h, area, size).prevHdr, order[m]) == Get(h.prevHdr, order[m])
  {
    forall m | 0 <= m < |order| ensures order[m] < area || order[m] >= area + size {
      if m < p - 1 {
        Ascending(h, base, order, m, p - 1);
      } else if m > p {
        Ascending(h, base, order, p, m);
      }
    }
  }

  lemma LaidKeeps(h: Phys, base: nat, order: seq<nat>, p: nat, area: nat, size: nat)
    requires PhysOk(h, base, order) && Gap(h, order, p, area, size) && size >= 80
    requires area > 0 && area % 16 == 0 && base <= area && area + size < base + MAX_SIZE
    ensures var b0: nat := area + BHDR_OVERHEAD + 16; var lb: nat := b0 + BHDR_OVERHEAD + AreaBlock(size);
            PhysOk(Laid(h, area, size), base, With3(order, p, area, b0, lb))
  {
    var b0: nat := area + BHDR_OVERHEAD + 16;
    var lb: nat := b0 + BHDR_OVERHEAD + AreaBlock(size);
    var h', order' := Laid(h, area, size), With3(order, p, area, b0, lb);
    LaidAt(h, base, order, p, area, size);
    forall m | 0 <= m < |order'| ensures BlockOk(h', base, order'[m]) {
      LaidBlock(h, base, order, p, area, size, m);
    }
    forall m | 0 <= m < |order'| - 1 ensures PairOk(h', order'[m], order'[m + 1]) {
      LaidPair(h, base, order, p, area, size, m);
    }
    assert p > 0 ==> order'[0] == order[0];
    hide BlockOk, PairOk;
  }

  lemma LaidBlock(h: Phys, base: nat, order: seq<nat>, p: nat, area: nat, size: nat, m: nat)
    requires PhysOk(h, base, order) && Gap(h, order, p, area, size) && size >= 80 && m < |order| + 3
    requires area > 0 && area % 16 == 0 && base <= area && area + size < base + MAX_SIZE
    ensures var b0: nat := area + BHDR_OVERHEAD + 16; var lb: nat := b0 + BHDR_OVERHEAD + AreaBlock(size);
            BlockOk(Laid(h, area, size), base, With3(order, p, area, b0, lb)[m])
  {
    LaidBefore(h, base, order, p, area, size, m);
    if m < p || m >= p + 3 {
      assert BlockOk(h, base, order[if m < p then m else m - 3]);
    } else {
      NewBlocks(h, base, area, size);
    }
    hide With3, PhysOk;
  }

  lemma NewBlocks(h: Phys, base: nat, area: nat, size: nat)
    requires size >= 80 && area > 0 && area % 16 == 0 && base <= area && area + size < base + MAX_SIZE
    ensures var b0: nat := area + BHDR_OVERHEAD + 16; var lb: nat := b0 + BHDR_OVERHEAD + AreaBlock(size);
            var h' := Laid(h, area, size); BlockOk(h', base, area) && BlockOk(h', base, b0) && BlockOk(h', base, lb)
  {
  }

  /** The new blocks know each other. */
  lemma LaidInside(h: Phys, area: nat, size: nat)
    requires size >= 80
    ensures var b0: nat := area + BHDR_OVERHEAD + 16; var lb: nat := b0 + BHDR_OVERHEAD + AreaBlock(size);
            var h' := Laid(h, area, size);
            PairOk(h', area, b0) && PairOk(h', b0, lb) && Word(h', area) == SizeWord(16, false, false)
            && Word(h', lb) == SizeWord(0, false, false) && lb + BHDR_OVERHEAD <= area + size && Size(h', b0) > 0
  {
  }

  lemma LaidPair(h: Phys, base: nat, order: seq<nat>, p: nat, area: nat, size: nat, m: nat)
    requires PhysOk(h, base, order) && Gap(h, order, p, area, size) && size >= 80 && m < |order| + 2
    ensures var b0: nat := area + BHDR_OVERHEAD + 16; var lb: nat := b0 + BHDR_OVERHEAD + AreaBlock(size);
            var order' := With3(order, p, area, b0, lb); PairOk(Laid(h, area, size), order'[m], order'[m + 1])
  {
    var b0: nat := area + BHDR_OVERHEAD + 16;
    var lb: nat := b0 + BHDR_OVERHEAD + AreaBlock(size);
    var order', h' := With3(order, p, area, b0, lb), Laid(h, area, size);
    LaidAt(h, base, order, p, area, size);
    LaidInside(h, area, size);
    hide Laid, AreaBlock;
    if m + 1 < p {
      assert order'[m] == order[m] && order'[m + 1] == order[m + 1];
      PairSame(h, h', order[m], order[m + 1]);
    } else if m >= p + 3 {
      assert order'[m] == order[m - 3] && order'[m + 1] == order[m - 2];
      PairSame(h, h', order[m - 3], order[m - 2]);
    } else if m + 1 == p {
      assert BlockOk(h, base, order[p - 1]) && order'[m] == order[p - 1] && order'[m + 1] == area;
    } else if m == p + 2 {
      assert order'[m] == lb && order'[m + 1] == order[p];
      assert p > 0 ==> PairOk(h, order[p - 1], order[p]) && BlockOk(h, base, order[p - 1]);
    }
  }

  /** What was there is there, and as it was. */
  lemma LaidSame(h: Phys, base: nat, order: seq<nat>, p: nat, area: nat, size: nat)
    requires PhysOk(h, base, order) && Gap(h, order, p, area, size) && size >= 80
    ensures var b0: nat := area + BHDR_OVERHEAD + 16; var lb: nat := b0 + BHDR_OVERHEAD + AreaBlock(size);
            var order' := With3(order, p, area, b0, lb);
            && (forall b | b in order :: b in order' && Word(Laid(h, area, size), b) == Word(h, b) && b != area && b != b0 && b != lb)
            && order'[p] == area && order'[p + 1] == b0 && order'[p + 2] == lb
  {
    var b0: nat := area + BHDR_OVERHEAD + 16;
    var lb: nat := b0 + BHDR_OVERHEAD + AreaBlock(size);
    var order' := With3(order, p, area, b0, lb);
    LaidAt(h, base, order, p, area, size);
    LaidInside(h, area, size);
    hide Laid;
    forall b | b in order ensures b in order' {
      var j :| 0 <= j < |order| && order[j] == b;
      assert order'[if j < p then j else j + 3] == b;
    }
  }

  lemma With3At(order: seq<nat>, p: nat, x: nat, y: nat, z: nat, m: nat)
    requires p <= |order| && m < |order| + 3
    ensures With3(order, p, x, y, z)[m]
         == if m < p then order[m] else if m == p then x else if m == p + 1 then y else if m == p + 2 then z else order[m - 3]
  {
  }

  /** Where block `m` of the new order was. */
  lemma LaidBefore(h: Phys, base: nat, order: seq<nat>, p: nat, area: nat, size: nat, m: nat)
    requires PhysOk(h, base, order) && Gap(h, order, p, area, size) && size >= 80 && m < |order| + 3
    ensures var b0: nat := area + BHDR_OVERHEAD + 16; var lb: nat := b0 + BHDR_OVERHEAD + AreaBlock(size);
            var x := With3(order, p, area, b0, lb)[m];
            && (p <= m < p + 3 ==> x == (if m == p then area else if m == p + 1 then b0 else lb) && !IsFree(Laid(h, area, size), x))
            && (m < p || m >= p + 3 ==> x == order[if m < p then m else m - 3] && x in order && Word(Laid(h, area, size), x) == Word(h, x))
  {
    var b0: nat := area + BHDR_OVERHEAD + 16;
    var lb: nat := b0 + BHDR_OVERHEAD + AreaBlock(size);
    LaidAt(h, base, order, p, area, size);
    LaidInside(h, area, size);
    With3At(order, p, area, b0, lb, m);
    hide PhysOk, With3;
  }

  lemma LaidLinked(h: Phys, base: nat, order: seq<nat>, lists: seq<seq<nat>>, p: nat, area: nat, size: nat)
    requires PhysOk(h, base, order) && Linked(h, order, lists, {}) && Gap(h, order, p, area, size) && size >= 80
    ensures var b0: nat := area + BHDR_OVERHEAD + 16; var lb: nat := b0 + BHDR_OVERHEAD + AreaBlock(size);
            Linked(Laid(h, area, size), With3(order, p, area, b0, lb), lists, {})
  {
    hide PhysOk, Laid, With3, AreaBlock, PairOk;
    var b0: nat := area + BHDR_OVERHEAD + 16;
    var lb: nat := b0 + BHDR_OVERHEAD + AreaBlock(size);
    var h', order' := Laid(h, area, size), With3(order, p, area, b0, lb);
    LaidSame(h, base, order, p, area, size);
    LaidInside(h, area, size);
    forall m | 0 <= m < |order'| && IsFree(h', order'[m])
      ensures Size(h', order'[m]) < MAX_SIZE && order'[m] in lists[ClassOf(Size(h', order'[m]))]
    {
      LaidBefore(h, base, order, p, area, size, m);
      assert order'[m] == order[if m < p then m else m - 3];
    }
  }

  lemma LaidOwned(h: Phys, base: nat, order: seq<nat>, live: set<nat>, info: set<nat>, p: nat, area: nat, size: nat)
    requires PhysOk(h, base, order) && Owned(h, order, live, info) && Gap(h, order, p, area, size) && size >= 80
    ensures var b0: nat := area + BHDR_OVERHEAD + 16; var lb: nat := b0 + BHDR_OVERHEAD + AreaBlock(size);
            Owned(Laid(h, area, size), With3(order, p, area, b0, lb), live + {b0}, info + {area})
            && b0 !in live && area !in info
  {
    hide PhysOk, Laid, With3, AreaBlock;
    var b0: nat := area + BHDR_OVERHEAD + 16;
    var lb: nat := b0 + BHDR_OVERHEAD + AreaBlock(size);
    var h', order' := Laid(h, area, size), With3(order, p, area, b0, lb);
    LaidOwners(h, base, order, live, info, p, area, size);
    forall m | 0 <= m < |order'| && !IsFree(h', order'[m]) && Size(h', order'[m]) > 0
      ensures order'[m] in live + {b0} || order'[m] in info + {area}
    {
      LaidUsed(h, base, order, live, info, p, area, size, m);
    }
  }

  lemma LaidOwners(h: Phys, base: nat, order: seq<nat>, live: set<nat>, info: set<nat>, p: nat, area: nat, size: nat)
    requires PhysOk(h, base, order) && Owned(h, order, live, info) && Gap(h, order, p, area, size) && size >= 80
    ensures var b0: nat := area + BHDR_OVERHEAD + 16; var lb: nat := b0 + BHDR_OVERHEAD + AreaBlock(size);
            var h', order' := Laid(h, area, size), With3(order, p, area, b0, lb);
            && b0 !in live && area !in live && b0 !in info && area !in info && b0 != area
            && forall b | b in live + {b0} || b in info + {area} :: b in order' && !IsFree(h', b) && Size(h', b) > 0
  {
    LaidSame(h, base, order, p, area, size);
    LaidInside(h, area, size);
    var b0: nat := area + BHDR_OVERHEAD + 16;
    var lb: nat := b0 + BHDR_OVERHEAD + AreaBlock(size);
    var h', order' := Laid(h, area, size), With3(order, p, area, b0, lb);
    assert Size(h', b0) > 0 && !IsFree(h', b0) && order'[p] in order' && order'[p + 1] in order';
    hide PhysOk, Laid, With3, AreaBlock, Gap;
    forall b | b in live + {b0} || b in info + {area} ensures b in order' && !IsFree(h', b) && Size(h', b) > 0 {
      assert b == b0 || b == area || b in order;
    }
  }

  lemma LaidUsed(h: Phys, base: nat, order: seq<nat>, live: set<nat>, info: set<nat>, p: nat, area: nat, size: nat, m: nat)
    requires PhysOk(h, base, order) && Owned(h, order, live, info) && Gap(h, order, p, area, size) && size >= 80
    requires m < |order| + 3
    requires var b0: nat := area + BHDR_OVERHEAD + 16; var lb: nat := b0 + BHDR_OVERHEAD + AreaBlock(size);
             var x := With3(order, p, area, b0, lb)[m]; !IsFree(Laid(h, area, size), x) && Size(Laid(h, area, size), x) > 0
    ensures var b0: nat := area + BHDR_OVERHEAD + 16; var lb: nat := b0 + BHDR_OVERHEAD + AreaBlock(size);
            With3(order, p, area, b0, lb)[m] in live + {b0} + info + {area}
  {
    LaidBefore(h, base, order, p, area, size, m);
    LaidInside(h, area, size);
    hide PhysOk, Laid, With3, AreaBlock, Gap;
  }

  lemma LaidStarts(h: Phys, base: nat, order: seq<nat>, info: set<nat>, p: nat, area: nat, size: nat)
    requires PhysOk(h, base, order) && Starts(h, order, info) && Gap(h, order, p, area, size) && size >= 80
    ensures var b0: nat := area + BHDR_OVERHEAD + 16; var lb: nat := b0 + BHDR_OVERHEAD + AreaBlock(size);
            Starts(Laid(h, area, size), With3(order, p, area, b0, lb), info + {area})
  {
    var b0: nat := area + BHDR_OVERHEAD + 16;
    var lb: nat := b0 + BHDR_OVERHEAD + AreaBlock(size);
    var h', order', info' := Laid(h, area, size), With3(order, p, area, b0, lb), info + {area};
    LaidInfo(h, base, order, info, p, area, size);
    hide PhysOk, Laid, With3, AreaBlock, Gap, StartOk;
    forall m | 0 <= m < |order'| ensures StartOk(h', order', info', m) {
      LaidStart(h, base, order, info, p, area, size, b0, lb, m);
    }
  }

  lemma LaidInfo(h: Phys, base: nat, order: seq<nat>, info: set<nat>, p: nat, area: nat, size: nat)
    requires PhysOk(h, base, order) && Starts(h, order, info) && Gap(h, order, p, area, size) && size >= 80
    ensures var b0: nat := area + BHDR_OVERHEAD + 16; var lb: nat := b0 + BHDR_OVERHEAD + AreaBlock(size);
            && b0 !in info && lb !in info
            && forall b | b in info + {area} :: b in With3(order, p, area, b0, lb) && Size(Laid(h, area, size), b) == 16
  {
    LaidSame(h, base, order, p, area, size);
    LaidInside(h, area, size);
    var b0: nat := area + BHDR_OVERHEAD + 16;
    var lb: nat := b0 + BHDR_OVERHEAD + AreaBlock(size);
    var order' := With3(order, p, area, b0, lb);
    hide PhysOk, Laid, With3, AreaBlock, Gap, StartOk;
    forall b | b in info + {area} ensures b in order' && Size(Laid(h, area, size), b) == 16 {
      assert b == area ==> order'[p] == b;
    }
  }

  lemma LaidStart(h: Phys, base: nat, order: seq<nat>, info: set<nat>, p: nat, area: nat, size: nat, b0: nat, lb: nat, m: nat)
    requires PhysOk(h, base, order) && Starts(h, order, info) && Gap(h, order, p, area, size) && size >= 80 && m < |order| + 3
    requires b0 == area + BHDR_OVERHEAD + 16 && lb == b0 + BHDR_OVERHEAD + AreaBlock(size) && b0 !in info && lb !in info
    ensures StartOk(Laid(h, area, size), With3(order, p, area, b0, lb), info + {area}, m)
  {
    hide PhysOk, With3, Laid, AreaBlock;
    LaidInside(h, area, size);
    LaidAt(h, base, order, p, area, size);
    With3At(order, p, area, b0, lb, m);
    if m > 0 {
      With3At(order, p, area, b0, lb, m - 1);
    }
    if m < p {
      assert StartOk(h, order, info, m);
    } else if m > p + 3 {
      assert StartOk(h, order, info, m - 3);
    } else if m == p + 3 {
      assert StartOk(h, order, info, p);
    }
  }

  lemma LaidListed(h: Phys, base: nat, order: seq<nat>, info: set<nat>, areas: seq<Area>, p: nat, area: nat, size: nat)
    requires PhysOk(h, base, order) && Starts(h, order, info) && Listed(h, order, info, areas) && Gap(h, order, p, area, size) && size >= 80
    ensures var b0: nat := area + BHDR_OVERHEAD + 16; var lb: nat := b0 + BHDR_OVERHEAD + AreaBlock(size);
            Listed(Laid(h, area, size), With3(order, p, area, b0, lb), info + {area}, areas)
            && forall j | 0 <= j < |areas| :: areas[j].end != lb
  {
    var b0: nat := area + BHDR_OVERHEAD + 16;
    var lb: nat := b0 + BHDR_OVERHEAD + AreaBlock(size);
    LaidSame(h, base, order, p, area, size);
    hide Laid, With3;
    forall j | 0 <= j < |areas| ensures Spans(Laid(h, area, size), With3(order, p, area, b0, lb), areas[j]) {
      assert areas[j].ib in order && areas[j].end in order && Size(h, areas[j].end) == 0;
      LaidSpans(h, base, order, areas[j], p, area, size);
    }
    hide PhysOk;
  }

  /** A new area is not inside another. */
  lemma LaidSpans(h: Phys, base: nat, order: seq<nat>, a: Area, p: nat, area: nat, size: nat)
    requires PhysOk(h, base, order) && Spans(h, order, a) && Gap(h, order, p, area, size) && size >= 80
    requires a.ib in order && a.end in order
    ensures var b0: nat := area + BHDR_OVERHEAD + 16; var lb: nat := b0 + BHDR_OVERHEAD + AreaBlock(size);
            Spans(Laid(h, area, size), With3(order, p, area, b0, lb), a)
  {
    var b0: nat := area + BHDR_OVERHEAD + 16;
    var lb: nat := b0 + BHDR_OVERHEAD + AreaBlock(size);
    var order' := With3(order, p, area, b0, lb);
    LaidSame(h, base, order, p, area, size);
    LaidInside(h, area, size);
    OutsideGap(h, base, order, a, p, area, size);
    hide Laid, PhysOk, With3, Gap;
    forall x | x in order' && a.ib <= x < a.end ensures Size(Laid(h, area, size), x) > 0 {
      LaidIn(order, p, area, b0, lb, x);
    }
  }

  lemma OutsideGap(h: Phys, base: nat, order: seq<nat>, a: Area, p: nat, area: nat, size: nat)
    requires PhysOk(h, base, order) && Spans(h, order, a) && Gap(h, order, p, area, size)
    requires a.ib in order && a.end in order
    ensures a.end < area + BHDR_OVERHEAD || area + size <= a.ib
  {
    AllAscending(h, base, order);
    var i: nat :| i < |order| && order[i] == a.ib;
    var e: nat :| e < |order| && order[e] == a.end;
    hide PhysOk;
    if i < p {
      assert order[p - 1] in order && order[i] <= order[p - 1];
      assert e < p;
    }
  }

  lemma LaidIn(order: seq<nat>, p: nat, x: nat, y: nat, z: nat, b: nat)
    requires p <= |order| && b in With3(order, p, x, y, z)
    ensures b in order || b == x || b == y || b == z
  {
  }

  // ---------------------------------------------------------------- merging areas

  /** Three used blocks side by side, the first of which is not the first of an area, become one. */
  ghost predicate Mergeable(h: Phys, order: seq<nat>, info: set<nat>, areas: seq<Area>, q: nat) {
    && q + 3 < |order| && order[q] !in info && Size(h, order[q + 2]) > 0
    && (forall m | q <= m < q + 3 :: order[m + 1] == End(h, order[m]) && !IsFree(h, order[m]))
    && (forall j | 0 <= j < |areas| :: !Among(order, q, q + 2, areas[j].ib) && !Among(order, q, q + 2, areas[j].end))
  }

  lemma MergeThreeHeap(k: Heap, base: nat, order: seq<nat>, lists: seq<seq<nat>>, live: set<nat>, info: set<nat>,
                       areas: seq<Area>, q: nat)
    requires HeapOk(k, base, order, lists, {}) && Owned(k.phys, order, live, info) && AreasOk(k.phys, order, info, areas)
    requires Mergeable(k.phys, order, info, areas, q)
    ensures order[q] + BHDR_OVERHEAD < order[q + 3]
    ensures var h' := Merged(k.phys, order[q], order[q + 3], false); var order' := Cut(order, q, q + 2);
            && HeapOk(k.(phys := h'), base, order', lists, {})
            && Owned(h', order', Rest(live, order, q, q + 2) + {order[q]}, Rest(info, order, q, q + 2))
            && AreasOk(h', order', Rest(info, order, q, q + 2), areas)
  {
    AllAscending(k.phys, base, order);
    hide PhysOk, ListsOk, BitsOk, Linked, Owned, Starts, Listed;
    MergeHeap(k, base, order, lists, {}, q, q + 2, false);
    MergeOwned(k.phys, base, order, live, info, q, q + 2, false);
    MergeStarts(k.phys, order, info, q, q + 2, false);
    MergeListed(k.phys, order, info, areas, q, q + 2, false);
  }

  lemma MergeThreeClients(h: Phys, base: nat, order: seq<nat>, q: nat, clients: set<nat>, m: Bytes)
    requires PhysOk(h, base, order) && q + 3 < |order| && order[q] + BHDR_OVERHEAD < order[q + 3]
    requires forall x | x in clients :: x in order && !Among(order, q, q + 2, x)
    ensures ClientsKept(clients, h, Merged(h, order[q], order[q + 3], false), m, Headers(m, order[q], order[q + 3]))
  {
    MergeClients(h, base, order, q, q + 2, false, clients, m);
  }

  /** A block that starts where another ends comes right after it. */
  lemma Successor(h: Phys, base: nat, order: seq<nat>, x: nat, y: nat) returns (q: nat)
    requires PhysOk(h, base, order) && x in order && y in order && y == End(h, x)
    ensures q + 1 < |order| && order[q] == x && order[q + 1] == y
  {
    q :| q < |order| && order[q] == x;
    var r: nat :| r < |order| && order[r] == y;
    AllAscending(h, base, order);
    if q + 1 < |order| {
      assert PairOk(h, order[q], order[q + 1]);
    }
  }

  ghost predicate AllOk(k: Heap, base: nat, order: seq<nat>, lists: seq<seq<nat>>, live: set<nat>, info: set<nat>, areas: seq<Area>) {
    HeapOk(k, base, order, lists, {}) && Owned(k.phys, order, live, info) && AreasOk(k.phys, order, info, areas)
  }

  /** The new area, from `ib0` to `lb0`, is the only one that is not on the list.  On a side where it has merged
      nothing else does. */
  ghost predicate Frontier(h: Phys, order: seq<nat>, live: set<nat>, info: set<nat>, areas: seq<Area>, ib0: nat, b0: nat, lb0: nat) {
    && b0 in live && ib0 in info && lb0 in order && Size(h, lb0) == 0
    && Spans(h, order, Area(ib0, lb0)) && Covered(info - {ib0}, areas)
    && (forall j | 0 <= j < |areas| :: areas[j].ib != ib0 && areas[j].end != lb0)
    && (End(h, b0) == lb0 || forall j | 0 <= j < |areas| :: areas[j].ib != lb0 + BHDR_OVERHEAD)
    && (End(h, ib0) == b0 || forall j | 0 <= j < |areas| :: areas[j].end + BHDR_OVERHEAD != ib0)
  }

  /** While a new area, with its block `b0`, merges with its neighbours. */
  ghost predicate Growing(k: Heap, base: nat, order: seq<nat>, lists: seq<seq<nat>>, live: set<nat>, info: set<nat>,
                          areas: seq<Area>, ib0: nat, b0: nat, lb0: nat) {
    AllOk(k, base, order, lists, live, info, areas) && Frontier(k.phys, order, live, info, areas, ib0, b0, lb0)
  }

  function Removed(areas: seq<Area>, j: nat): (r: seq<Area>)
    requires j < |areas|
    ensures |r| == |areas| - 1 && forall m | 0 <= m < |r| :: r[m] == areas[if m < j then m else m + 1]
  {
    areas[..j] + areas[j + 1..]
  }

  lemma RemovedListed(h: Phys, order: seq<nat>, info: set<nat>, areas: seq<Area>, j: nat)
    requires Listed(h, order, info, areas) && j < |areas|
    ensures Listed(h, order, info, Removed(areas, j))
    ensures forall m | 0 <= m < |areas| - 1 :: var a := Removed(areas, j)[m];
      a.ib != areas[j].ib && a.end != areas[j].end && a.end + BHDR_OVERHEAD != areas[j].ib && areas[j].end + BHDR_OVERHEAD != a.ib
  {
  }

  lemma CoveredLess(info: set<nat>, areas: seq<Area>, ib0: nat, j: nat)
    requires Covered(info - {ib0}, areas) && j < |areas|
    ensures Covered(info - {areas[j].ib} - {ib0}, Removed(areas, j)) && Covered(info - {ib0} - {areas[j].ib}, Removed(areas, j))
  {
    var areas' := Removed(areas, j);
    forall b | b in info && b != ib0 && b != areas[j].ib ensures exists m :: 0 <= m < |areas'| && areas'[m].ib == b {
      assert b in info - {ib0};
      var m :| 0 <= m < |areas| && areas[m].ib == b;
      assert areas'[if m < j then m else m - 1].ib == b;
    }
  }

  /** Nothing starts inside the header of a block. */
  lemma AboveHeader(h: Phys, base: nat, order: seq<nat>, s: nat)
    requires PhysOk(h, base, order) && s in order
    ensures forall x | x in order :: x <= s || x >= s + BHDR_OVERHEAD
  {
    var i: nat :| i < |order| && order[i] == s;
    forall x | x in order ensures x <= s || x >= s + BHDR_OVERHEAD {
      var j: nat :| j < |order| && order[j] == x;
      if x != s {
        Disjoint(h, base, order, i, j);
      }
    }
  }

  lemma CutOut(order: seq<nat>, q: nat)
    requires Sorted(order) && q + 2 < |order|
    ensures forall x | x in Cut(order, q, q + 2) :: x in order && x != order[q + 1] && x != order[q + 2]
  {
  }

  lemma SpansAbove(h: Phys, h': Phys, order: seq<nat>, order': seq<nat>, ib0: nat, lb0: nat, a: Area)
    requires Spans(h, order, Area(ib0, lb0)) && Spans(h, order, a) && a.ib == lb0 + BHDR_OVERHEAD
    requires forall x | x in order' :: x in order && x != lb0
    requires forall x | x in order :: (x <= lb0 || x >= a.ib) && (Size(h, x) > 0 ==> Size(h', x) > 0)
    ensures Spans(h', order', Area(ib0, a.end))
  {
  }

  lemma SpansBelow(h: Phys, h': Phys, order: seq<nat>, order': seq<nat>, ib0: nat, lb0: nat, a: Area)
    requires Spans(h, order, Area(ib0, lb0)) && Spans(h, order, a) && a.end + BHDR_OVERHEAD == ib0
    requires Size(h', a.end) > 0 && forall x | x in order' :: x in order
    requires forall x | x in order :: (x <= a.end || x >= ib0) && (Size(h, x) > 0 ==> Size(h', x) > 0)
    ensures Spans(h', order', Area(a.ib, lb0))
  {
  }

  lemma AmongThree(order: seq<nat>, q: nat, x: nat)
    requires q + 3 <= |order|
    ensures Among(order, q, q + 2, x) <==> x == order[q] || x == order[q + 1] || x == order[q + 2]
  {
  }

  lemma NotLast(h: Phys, base: nat, order: seq<nat>, i: nat)
    requires PhysOk(h, base, order) && i < |order| && Size(h, order[i]) > 0
    ensures i + 1 < |order|
  {
  }

  /** Three blocks in a row, the last of which is not a sentinel. */
  lemma Three(h: Phys, base: nat, order: seq<nat>, x: nat, y: nat, z: nat) returns (q: nat)
    requires PhysOk(h, base, order) && x in order && y in order && z in order && y == End(h, x) && z == End(h, y) && Size(h, z) > 0
    ensures q + 3 < |order| && order[q] == x && order[q + 1] == y && order[q + 2] == z && order[q + 3] == End(h, z)
  {
    q := Successor(h, base, order, x, y);
    var q' := Successor(h, base, order, y, z);
    AllAscending(h, base, order);
    assert q' == q + 1;
    NotLast(h, base, order, q + 2);
    assert PairOk(h, order[q + 2], order[q + 3]);
  }

  lemma Sentinel(h: Phys, base: nat, order: seq<nat>, x: nat)
    requires PhysOk(h, base, order) && x in order && Size(h, x) == 0
    ensures !IsFree(h, x)
  {
    assert BlockOk(h, base, x);
  }

  /** Who is not among three merging blocks: the other areas. */
  lemma OthersApart(order: seq<nat>, info: set<nat>, areas: seq<Area>, q: nat, ib: nat, end: nat)
    requires q + 3 <= |order|
    requires forall j | 0 <= j < |areas| :: areas[j].ib != ib && areas[j].end != end
    requires forall j | 0 <= j < |areas| :: forall m | q <= m < q + 3 :: areas[j].ib == order[m] ==> order[m] == ib
    requires forall j | 0 <= j < |areas| :: forall m | q <= m < q + 3 :: areas[j].end == order[m] ==> order[m] == end
    ensures forall j | 0 <= j < |areas| :: !Among(order, q, q + 2, areas[j].ib) && !Among(order, q, q + 2, areas[j].end)
  {
    forall j | 0 <= j < |areas| ensures !Among(order, q, q + 2, areas[j].ib) && !Among(order, q, q + 2, areas[j].end) {
      AmongThree(order, q, areas[j].ib);
      AmongThree(order, q, areas[j].end);
    }
  }

  lemma RestThree(s: set<nat>, order: seq<nat>, q: nat, gone: set<nat>)
    requires q + 3 <= |order| && forall x | x in s :: (x == order[q] || x == order[q + 1] || x == order[q + 2]) <==> x in gone
    ensures Rest(s, order, q, q + 2) == s - gone
  {
    forall x | x in s ensures Among(order, q, q + 2, x) <==> x in gone {
      AmongThree(order, q, x);
    }
  }

  /** What tells the three blocks that merge from each other and from everything else. */
  lemma Roles(h: Phys, order: seq<nat>, live: set<nat>, info: set<nat>, areas: seq<Area>, b0: nat, j: nat, end: nat)
    requires Owned(h, order, live, info) && AreasOk(h, order, info, areas) && b0 in live && j < |areas|
    requires end in order && Size(h, end) == 0
    ensures end !in info && end !in live && b0 !in info && Size(h, b0) > 0 && !IsFree(h, b0)
    ensures forall x | x in info :: x !in live && x in order && Size(h, x) == 16 && !IsFree(h, x)
    ensures forall m | 0 <= m < |areas| :: areas[m].ib in info && areas[m].end in order && Size(h, areas[m].end) == 0
  {
  }

  /** Three blocks in a row, a description `ib`, a sentinel `end` and the new block, can become one. */
  lemma ThreeMergeable(h: Phys, order: seq<nat>, live: set<nat>, info: set<nat>, areas: seq<Area>, j: nat, q: nat,
                       ib: nat, end: nat, b0: nat)
    requires Owned(h, order, live, info) && AreasOk(h, order, info, areas) && j < |areas| && q + 3 < |order|
    requires b0 in live && ib in info && end in order && Size(h, end) == 0 && !IsFree(h, end)
    requires forall m | q <= m < q + 3 :: order[m + 1] == End(h, order[m]) && (order[m] == ib || order[m] == end || order[m] == b0)
    requires order[q] != ib && order[q + 2] != end
    requires forall m | 0 <= m < |areas| && m != j :: areas[m].ib != ib && areas[m].end != end
    ensures Mergeable(h, order, info, Removed(areas, j), q)
  {
    Roles(h, order, live, info, areas, b0, j, end);
    OthersApart(order, info, Removed(areas, j), q, ib, end);
    hide Owned, Starts, Listed;
  }

  lemma ThreeRest(h: Phys, order: seq<nat>, live: set<nat>, info: set<nat>, q: nat, ib: nat, end: nat, b0: nat)
    requires Owned(h, order, live, info) && q + 3 <= |order| && b0 in live && ib in info && Size(h, end) == 0
    requires (order[q] == b0 && order[q + 1] == end && order[q + 2] == ib) || (order[q] == end && order[q + 1] == ib && order[q + 2] == b0)
    ensures Rest(live, order, q, q + 2) == live - {b0} && Rest(info, order, q, q + 2) == info - {ib}
  {
    RestThree(live, order, q, {b0});
    RestThree(info, order, q, {ib});
  }

  /** The simple facts about the blocks that merge. */
  lemma GrowingFacts(k: Heap, base: nat, order: seq<nat>, lists: seq<seq<nat>>, live: set<nat>, info: set<nat>,
                     areas: seq<Area>, ib0: nat, b0: nat, lb0: nat, j: nat)
    requires Growing(k, base, order, lists, live, info, areas, ib0, b0, lb0) && j < |areas|
    ensures var h := k.phys;
            && PhysOk(h, base, order) && Owned(h, order, live, info) && AreasOk(h, order, info, areas)
            && b0 in order && b0 in live && lb0 in order && ib0 in order && ib0 in info && Size(h, lb0) == 0 && Size(h, b0) > 0
            && areas[j].ib in order && areas[j].ib in info && areas[j].end in order && Size(h, areas[j].end) == 0
            && Size(h, areas[j].ib) == 16 && Size(h, ib0) == 16 && areas[j].ib != ib0 && areas[j].end != lb0
            && (areas[j].ib == lb0 + BHDR_OVERHEAD ==> End(h, b0) == lb0)
            && (areas[j].end + BHDR_OVERHEAD == ib0 ==> End(h, ib0) == b0)
    ensures forall m | 0 <= m < |areas| :: areas[m].ib != ib0 && areas[m].end != lb0
    ensures forall m | 0 <= m < |areas| && m != j :: areas[m].ib != areas[j].ib && areas[m].end != areas[j].end
  {
  }

  /** The new area ends where area `j` starts: `b0` takes in its own sentinel and the description of that area. */
  lemma MergeAbove(k: Heap, base: nat, order: seq<nat>, lists: seq<seq<nat>>, live: set<nat>, info: set<nat>,
                   areas: seq<Area>, ib0: nat, b0: nat, lb0: nat, j: nat) returns (q: nat)
    requires Growing(k, base, order, lists, live, info, areas, ib0, b0, lb0)
    requires j < |areas| && areas[j].ib == lb0 + BHDR_OVERHEAD
    ensures q + 3 < |order| && order[q] == b0 && order[q + 1] == lb0 && order[q + 2] == areas[j].ib && order[q + 3] == areas[j].ib + 32
    ensures Mergeable(k.phys, order, info, Removed(areas, j), q)
    ensures Rest(live, order, q, q + 2) == live - {b0} && Rest(info, order, q, q + 2) == info - {areas[j].ib}
    ensures !Among(order, q, q + 2, areas[j].end)
  {
    var h, ib1: nat := k.phys, areas[j].ib;
    GrowingFacts(k, base, order, lists, live, info, areas, ib0, b0, lb0, j);
    hide HeapOk, Owned, AreasOk, Frontier, PhysOk, Mergeable;
    q := Three(h, base, order, b0, lb0, ib1);
    Sentinel(h, base, order, lb0);
    ThreeMergeable(h, order, live, info, areas, j, q, ib1, lb0, b0);
    ThreeRest(h, order, live, info, q, ib1, lb0, b0);
    AmongThree(order, q, areas[j].end);
  }

  /** Area `j` ends where the new one starts: its sentinel takes in the new description and `b0`. */
  lemma MergeBelow(k: Heap, base: nat, order: seq<nat>, lists: seq<seq<nat>>, live: set<nat>, info: set<nat>,
                   areas: seq<Area>, ib0: nat, b0: nat, lb0: nat, j: nat) returns (q: nat)
    requires Growing(k, base, order, lists, live, info, areas, ib0, b0, lb0)
    requires j < |areas| && areas[j].end + BHDR_OVERHEAD == ib0
    ensures q + 3 < |order| && order[q] == areas[j].end && order[q + 2] == b0 && order[q + 3] == End(k.phys, b0)
    ensures Mergeable(k.phys, order, info, Removed(areas, j), q)
    ensures Rest(live, order, q, q + 2) == live - {b0} && Rest(info, order, q, q + 2) == info - {ib0}
    ensures !Among(order, q, q + 2, lb0) && !Among(order, q, q + 2, areas[j].ib)
  {
    var h, lb1: nat := k.phys, areas[j].end;
    GrowingFacts(k, base, order, lists, live, info, areas, ib0, b0, lb0, j);
    hide HeapOk, Owned, AreasOk, Frontier, PhysOk, Mergeable;
    q := Three(h, base, order, lb1, ib0, b0);
    Sentinel(h, base, order, lb1);
    ThreeMergeable(h, order, live, info, areas, j, q, ib0, lb1, b0);
    ThreeRest(h, order, live, info, q, ib0, lb1, b0);
    AmongThree(order, q, lb0);
    AmongThree(order, q, areas[j].ib);
  }

  lemma CutKeeps(order: seq<nat>, i: nat, k: nat, x: nat)
    requires i <= k < |order| && x in order && !Among(order, i, k, x)
    ensures x in Cut(order, i, k)
  {
    var j :| 0 <= j < |order| && order[j] == x;
    assert Cut(order, i, k)[if j <= i then j else j - k + i] == x;
  }

  lemma MergedSizes(h: Phys, b: nat, next: nat)
    requires b + BHDR_OVERHEAD <= next
    ensures forall x | x != b :: Size(Merged(h, b, next, false), x) == Size(h, x)
    ensures End(Merged(h, b, next, false), b) == next
  {
  }

  lemma FrontierAbove(h: Phys, h': Phys, order: seq<nat>, order': seq<nat>, live: set<nat>, info: set<nat>, areas: seq<Area>,
                      ib0: nat, b0: nat, lb0: nat, j: nat)
    requires Frontier(h, order, live, info, areas, ib0, b0, lb0) && Listed(h, order, info, areas) && j < |areas|
    requires areas[j].end in order' && areas[j].end != b0 && ib0 != b0 && areas[j].ib == lb0 + BHDR_OVERHEAD
    requires forall x | x != b0 :: Size(h', x) == Size(h, x)
    requires Spans(h', order', Area(ib0, areas[j].end)) && ib0 != areas[j].ib
    ensures Frontier(h', order', live, info - {areas[j].ib}, Removed(areas, j), ib0, b0, areas[j].end)
  {
    CoveredLess(info, areas, ib0, j);
    RemovedListed(h, order, info, areas, j);
    hide Listed, Covered, Spans;
  }

  lemma FrontierBelow(h: Phys, h': Phys, order: seq<nat>, order': seq<nat>, live: set<nat>, info: set<nat>, areas: seq<Area>,
                      ib0: nat, b0: nat, lb0: nat, j: nat)
    requires Frontier(h, order, live, info, areas, ib0, b0, lb0) && Listed(h, order, info, areas) && j < |areas|
    requires lb0 in order' && areas[j].end != lb0 && areas[j].end + BHDR_OVERHEAD == ib0
    requires forall x | x != areas[j].end :: Size(h', x) == Size(h, x)
    requires End(h', areas[j].end) == End(h, b0) && Spans(h', order', Area(areas[j].ib, lb0))
    ensures Frontier(h', order', live - {b0} + {areas[j].end}, info - {ib0}, Removed(areas, j), areas[j].ib, areas[j].end, lb0)
  {
    CoveredLess(info, areas, ib0, j);
    RemovedListed(h, order, info, areas, j);
    hide Listed, Covered, Spans;
  }

  lemma ListedLess(h: Phys, order: seq<nat>, info: set<nat>, areas: seq<Area>, j: nat)
    requires AreasOk(h, order, info, areas) && j < |areas|
    ensures AreasOk(h, order, info, Removed(areas, j))
  {
    RemovedListed(h, order, info, areas, j);
  }

  /** Every block knows as much about the one before it as it did. */
  ghost predicate SameMarks(h: Phys, h': Phys) {
    forall x: nat :: Word(h', x).prevFree == Word(h, x).prevFree
  }

  lemma MergeMarks(h: Phys, base: nat, order: seq<nat>, info: set<nat>, areas: seq<Area>, q: nat)
    requires PhysOk(h, base, order) && Mergeable(h, order, info, areas, q) && order[q] + BHDR_OVERHEAD < order[q + 3]
    ensures SameMarks(h, Merged(h, order[q], order[q + 3], false))
  {
    assert PairOk(h, order[q + 2], order[q + 3]);
  }

  /** Area `j` of the list is gone, and the new one has its end. */
  lemma GrowAbove(k: Heap, base: nat, order: seq<nat>, lists: seq<seq<nat>>, live: set<nat>, info: set<nat>,
                  areas: seq<Area>, ib0: nat, b0: nat, lb0: nat, j: nat, m: Bytes) returns (q: nat)
    requires Growing(k, base, order, lists, live, info, areas, ib0, b0, lb0)
    requires j < |areas| && areas[j].ib == lb0 + BHDR_OVERHEAD
    ensures q + 3 < |order| && order[q] == b0 && order[q + 3] == areas[j].ib + 32 && b0 + BHDR_OVERHEAD < order[q + 3]
    ensures var h' := Merged(k.phys, b0, order[q + 3], false);
            && Growing(k.(phys := h'), base, Cut(order, q, q + 2), lists, live, info - {areas[j].ib}, Removed(areas, j),
                       ib0, b0, areas[j].end)
            && ClientsKept(live - {b0}, k.phys, h', m, Headers(m, b0, order[q + 3])) && SameMarks(k.phys, h')
  {
    q := MergeAbove(k, base, order, lists, live, info, areas, ib0, b0, lb0, j);
    PutBack(live, b0);
    hide PhysOk, ListsOk, BitsOk, Linked, Owned, AreasOk, Mergeable, ClientsKept, SameMarks;
    ListedLess(k.phys, order, info, areas, j);
    MergeThreeHeap(k, base, order, lists, live, info, Removed(areas, j), q);
    MergeMarks(k.phys, base, order, info, Removed(areas, j), q);
    GrowAboveRest(k, base, order, lists, live, info, areas, ib0, b0, lb0, j, q, m);
    hide Frontier;
  }

  lemma GrowAboveRest(k: Heap, base: nat, order: seq<nat>, lists: seq<seq<nat>>, live: set<nat>, info: set<nat>,
                      areas: seq<Area>, ib0: nat, b0: nat, lb0: nat, j: nat, q: nat, m: Bytes)
    requires Growing(k, base, order, lists, live, info, areas, ib0, b0, lb0)
    requires j < |areas| && areas[j].ib == lb0 + BHDR_OVERHEAD
    requires q + 3 < |order| && order[q] == b0 && order[q + 1] == lb0 && b0 + BHDR_OVERHEAD < order[q + 3]
    requires Rest(live, order, q, q + 2) == live - {b0} && !Among(order, q, q + 2, areas[j].end)
    ensures var h' := Merged(k.phys, b0, order[q + 3], false);
            && Frontier(h', Cut(order, q, q + 2), live, info - {areas[j].ib}, Removed(areas, j), ib0, b0, areas[j].end)
            && ClientsKept(live - {b0}, k.phys, h', m, Headers(m, b0, order[q + 3]))
  {
    OwnedUsed(k.phys, order, live, info);
    Roles(k.phys, order, live, info, areas, b0, j, lb0);
    MergedSizes(k.phys, b0, order[q + 3]);
    CutKeeps(order, q, q + 2, areas[j].end);
    AllAscending(k.phys, base, order);
    CutOut(order, q);
    AboveHeader(k.phys, base, order, lb0);
    hide PhysOk, ListsOk, BitsOk, Linked, Owned, Starts, Listed, Merged, Spans, Cut, Sorted;
    SpansAbove(k.phys, Merged(k.phys, b0, order[q + 3], false), order, Cut(order, q, q + 2), ib0, lb0, areas[j]);
    FrontierAbove(k.phys, Merged(k.phys, b0, order[q + 3], false), order, Cut(order, q, q + 2), live, info, areas, ib0, b0, lb0, j);
    MergeThreeClients(k.phys, base, order, q, live - {b0}, m);
  }

  lemma GrowBelow(k: Heap, base: nat, order: seq<nat>, lists: seq<seq<nat>>, live: set<nat>, info: set<nat>,
                  areas: seq<Area>, ib0: nat, b0: nat, lb0: nat, j: nat, m: Bytes) returns (q: nat)
    requires Growing(k, base, order, lists, live, info, areas, ib0, b0, lb0)
    requires j < |areas| && areas[j].end + BHDR_OVERHEAD == ib0
    ensures q + 3 < |order| && order[q] == areas[j].end && order[q + 3] == End(k.phys, b0)
    ensures areas[j].end + BHDR_OVERHEAD < order[q + 3] && areas[j].end !in live
    ensures var h' := Merged(k.phys, areas[j].end, order[q + 3], false);
            && Growing(k.(phys := h'), base, Cut(order, q, q + 2), lists, live - {b0} + {areas[j].end}, info - {ib0}, Removed(areas, j),
                       areas[j].ib, areas[j].end, lb0)
            && ClientsKept(live - {b0}, k.phys, h', m, Headers(m, areas[j].end, order[q + 3])) && SameMarks(k.phys, h')
  {
    q := MergeBelow(k, base, order, lists, live, info, areas, ib0, b0, lb0, j);
    OwnedUsed(k.phys, order, live, info);
    Roles(k.phys, order, live, info, areas, b0, j, areas[j].end);
    ListedLess(k.phys, order, info, areas, j);
    hide PhysOk, ListsOk, BitsOk, Linked, Owned, AreasOk, Mergeable, SameMarks;
    MergeThreeHeap(k, base, order, lists, live, info, Removed(areas, j), q);
    MergeMarks(k.phys, base, order, info, Removed(areas, j), q);
    GrowBelowRest(k, base, order, lists, live, info, areas, ib0, b0, lb0, j, q, m);
    hide Frontier, ClientsKept;
  }

  lemma GrowBelowRest(k: Heap, base: nat, order: seq<nat>, lists: seq<seq<nat>>, live: set<nat>, info: set<nat>,
                      areas: seq<Area>, ib0: nat, b0: nat, lb0: nat, j: nat, q: nat, m: Bytes)
    requires Growing(k, base, order, lists, live, info, areas, ib0, b0, lb0)
    requires j < |areas| && areas[j].end + BHDR_OVERHEAD == ib0
    requires q + 3 < |order| && order[q] == areas[j].end && order[q + 3] == End(k.phys, b0) && areas[j].end + BHDR_OVERHEAD < order[q + 3]
    requires Rest(live, order, q, q + 2) == live - {b0} && !Among(order, q, q + 2, lb0)
    ensures var h' := Merged(k.phys, areas[j].end, order[q + 3], false);
            && Frontier(h', Cut(order, q, q + 2), live - {b0} + {areas[j].end}, info - {ib0}, Removed(areas, j),
                        areas[j].ib, areas[j].end, lb0)
            && ClientsKept(live - {b0}, k.phys, h', m, Headers(m, areas[j].end, order[q + 3]))
  {
    OwnedUsed(k.phys, order, live, info);
    Roles(k.phys, order, live, info, areas, b0, j, areas[j].end);
    MergedSizes(k.phys, areas[j].end, order[q + 3]);
    CutKeeps(order, q, q + 2, lb0);
    AllAscending(k.phys, base, order);
    CutOut(order, q);
    AboveHeader(k.phys, base, order, areas[j].end);
    hide PhysOk, ListsOk, BitsOk, Linked, Owned, Starts, Listed, Merged, Spans, Cut, Sorted;
    SpansBelow(k.phys, Merged(k.phys, areas[j].end, order[q + 3], false), order, Cut(order, q, q + 2), ib0, lb0, areas[j]);
    FrontierBelow(k.phys, Merged(k.phys, areas[j].end, order[q + 3], false), order, Cut(order, q, q + 2), live, info, areas,
                  ib0, b0, lb0, j);
    MergeThreeClients(k.phys, base, order, q, live - {b0}, m);
  }

  /** None of the first `j` areas is side by side with the new one. */
  predicate Passed(areas: seq<Area>, j: nat, ib0: nat, lb0: nat) {
    forall m | 0 <= m < j && m < |areas| :: areas[m].ib != lb0 + BHDR_OVERHEAD && areas[m].end + BHDR_OVERHEAD != ib0
  }

  lemma NextPassed(areas: seq<Area>, j: nat, ib0: nat, lb0: nat)
    requires Passed(areas, j, ib0, lb0) && j < |areas|
    requires areas[j].ib != lb0 + BHDR_OVERHEAD && areas[j].end + BHDR_OVERHEAD != ib0
    ensures Passed(areas, j + 1, ib0, lb0)
  {
  }

  /** Merging with one area makes none of those before it a neighbour. */
  lemma PassedAbove(k: Heap, base: nat, order: seq<nat>, lists: seq<seq<nat>>, live: set<nat>, info: set<nat>,
                    areas: seq<Area>, ib0: nat, b0: nat, lb0: nat, j: nat)
    requires Growing(k, base, order, lists, live, info, areas, ib0, b0, lb0)
    requires j < |areas| && areas[j].ib == lb0 + BHDR_OVERHEAD && Passed(areas, j, ib0, lb0)
    ensures Passed(Removed(areas, j), j, ib0, areas[j].end)
    ensures End(k.phys, b0) <= areas[j].ib + 32 && areas[j].ib < areas[j].end
  {
    GrowingFacts(k, base, order, lists, live, info, areas, ib0, b0, lb0, j);
    hide HeapOk, Owned, Starts, Frontier;
    RemovedListed(k.phys, order, info, areas, j);
  }

  lemma PassedBelow(k: Heap, base: nat, order: seq<nat>, lists: seq<seq<nat>>, live: set<nat>, info: set<nat>,
                    areas: seq<Area>, ib0: nat, b0: nat, lb0: nat, j: nat)
    requires Growing(k, base, order, lists, live, info, areas, ib0, b0, lb0)
    requires j < |areas| && areas[j].end + BHDR_OVERHEAD == ib0 && Passed(areas, j, ib0, lb0)
    ensures Passed(Removed(areas, j), j, areas[j].ib, lb0)
    ensures areas[j].end < b0 && areas[j].ib < areas[j].end
  {
    GrowingFacts(k, base, order, lists, live, info, areas, ib0, b0, lb0, j);
    hide HeapOk, Owned, Starts, Frontier;
    RemovedListed(k.phys, order, info, areas, j);
  }

  lemma FrontierFirst(h: Phys, order: seq<nat>, live: set<nat>, info: set<nat>, areas: seq<Area>, ib0: nat, b0: nat, lb0: nat)
    requires Frontier(h, order, live, info, areas, ib0, b0, lb0)
    ensures b0 in live
  {
  }

  /** The merged area can go on the list. */
  lemma ListedMore(h: Phys, order: seq<nat>, live: set<nat>, info: set<nat>, areas: seq<Area>, ib0: nat, b0: nat, lb0: nat)
    requires AreasOk(h, order, info, areas) && Frontier(h, order, live, info, areas, ib0, b0, lb0)
    requires Passed(areas, |areas|, ib0, lb0)
    ensures AreasOk(h, order, info, [Area(ib0, lb0)] + areas) && Covered(info, [Area(ib0, lb0)] + areas)
  {
    hide Starts, Listed, Covered;
    CoveredMore(info, areas, ib0, lb0);
    ListedFirst(h, order, live, info, areas, ib0, b0, lb0);
  }

  lemma ListedFirst(h: Phys, order: seq<nat>, live: set<nat>, info: set<nat>, areas: seq<Area>, ib0: nat, b0: nat, lb0: nat)
    requires Listed(h, order, info, areas) && Frontier(h, order, live, info, areas, ib0, b0, lb0)
    requires Passed(areas, |areas|, ib0, lb0)
    ensures Listed(h, order, info, [Area(ib0, lb0)] + areas)
  {
    hide Spans, Covered;
    var areas' := [Area(ib0, lb0)] + areas;
    assert forall j | 0 < j < |areas'| :: areas'[j] == areas[j - 1];
  }

  lemma CoveredMore(info: set<nat>, areas: seq<Area>, ib0: nat, lb0: nat)
    requires Covered(info - {ib0}, areas)
    ensures Covered(info, [Area(ib0, lb0)] + areas)
  {
    var areas' := [Area(ib0, lb0)] + areas;
    forall b | b in info ensures exists j :: 0 <= j < |areas'| && areas'[j].ib == b {
      if b == ib0 {
        assert areas'[0].ib == b;
      } else {
        assert b in info - {ib0};
        var j :| 0 <= j < |areas| && areas[j].ib == b;
        assert areas'[j + 1].ib == b;
      }
    }
  }

  lemma LaidAll(k: Heap, base: nat, order: seq<nat>, lists: seq<seq<nat>>, live: set<nat>, info: set<nat>, areas: seq<Area>,
                p: nat, area: nat, size: nat)
    requires AllOk(k, base, order, lists, live, info, areas) && Gap(k.phys, order, p, area, size) && size >= 80
    requires area > 0 && area % 16 == 0 && base <= area && area + size < base + MAX_SIZE
    ensures var b0: nat := area + BHDR_OVERHEAD + 16; var lb: nat := b0 + BHDR_OVERHEAD + AreaBlock(size);
            AllOk(k.(phys := Laid(k.phys, area, size)), base, With3(order, p, area, b0, lb), lists, live + {b0}, info + {area}, areas)
  {
    LaidKeeps(k.phys, base, order, p, area, size);
    LaidLinked(k.phys, base, order, lists, p, area, size);
    LaidOwned(k.phys, base, order, live, info, p, area, size);
    LaidStarts(k.phys, base, order, info, p, area, size);
    LaidListed(k.phys, base, order, info, areas, p, area, size);
    hide PhysOk, ListsOk, BitsOk, Linked, Owned, Starts, Listed, Laid, With3, AreaBlock;
  }

  lemma NewSpans(h: Phys, base: nat, order: seq<nat>, p: nat, area: nat, size: nat)
    requires PhysOk(h, base, order) && Gap(h, order, p, area, size) && size >= 80
    ensures var b0: nat := area + BHDR_OVERHEAD + 16; var lb: nat := b0 + BHDR_OVERHEAD + AreaBlock(size);
            Spans(Laid(h, area, size), With3(order, p, area, b0, lb), Area(area, lb))
  {
    var b0: nat := area + BHDR_OVERHEAD + 16;
    var lb: nat := b0 + BHDR_OVERHEAD + AreaBlock(size);
    LaidAt(h, base, order, p, area, size);
    LaidInside(h, area, size);
    assert Size(Laid(h, area, size), b0) > 0;
    hide Laid, PhysOk, With3;
    forall x | x in With3(order, p, area, b0, lb) && area <= x < lb ensures Size(Laid(h, area, size), x) > 0 {
      LaidIn(order, p, area, b0, lb, x);
    }
  }

  /** The new area before it merges with anything. */
  lemma LaidFrontier(h: Phys, base: nat, order: seq<nat>, live: set<nat>, info: set<nat>, areas: seq<Area>, p: nat, area: nat, size: nat)
    requires PhysOk(h, base, order) && Owned(h, order, live, info) && AreasOk(h, order, info, areas)
    requires Gap(h, order, p, area, size) && size >= 80 && Covered(info, areas)
    ensures var b0: nat := area + BHDR_OVERHEAD + 16; var lb: nat := b0 + BHDR_OVERHEAD + AreaBlock(size);
            && b0 !in live
            && Frontier(Laid(h, area, size), With3(order, p, area, b0, lb), live + {b0}, info + {area}, areas, area, b0, lb)
  {
    var b0: nat := area + BHDR_OVERHEAD + 16;
    var lb: nat := b0 + BHDR_OVERHEAD + AreaBlock(size);
    LaidSame(h, base, order, p, area, size);
    LaidInside(h, area, size);
    assert forall j | 0 <= j < |areas| :: areas[j].ib != area && areas[j].end != lb;
    assert With3(order, p, area, b0, lb)[p + 2] == lb;
    assert info + {area} - {area} == info;
    NewSpans(h, base, order, p, area, size);
    hide PhysOk, Owned, Starts, Listed, With3, Spans, Covered;
  }

  function Zeroed(m: Bytes, a: nat, n: nat): Bytes {
    if n == 0 then m else Zeroed(m, a, n - 1)[a + n - 1 := 0]
  }

  lemma {:induction false} ZeroedAt(m: Bytes, a: nat, n: nat, x: nat)
    ensures var r := Zeroed(m, a, n); if a <= x < a + n then x in r && r[x] == 0 else SameByte(m, r, x)
  {
    if n == 0 {
    } else {
      ZeroedAt(m, a, n - 1, x);
    }
  }

  /** Memory after an area has been laid out: null bytes, but for the headers and the description. */
  function AreaBytes(m: Bytes, area: nat, size: nat): Bytes
    requires size >= 80
  {
    var b0: nat := area + BHDR_OVERHEAD + 16;
    Clobber(Clobber(Zeroed(m, area, size), area, 64), b0 + BHDR_OVERHEAD + AreaBlock(size), BHDR_OVERHEAD)
  }

  lemma AreaOutside(m: Bytes, area: nat, size: nat, lo: nat, hi: nat)
    requires size >= 80 && (hi <= area || area + size <= lo)
    ensures SameBytes(m, AreaBytes(m, area, size), lo, hi)
  {
    forall x | lo <= x < hi ensures SameByte(m, AreaBytes(m, area, size), x) {
      ZeroedAt(m, area, size, x);
    }
  }

  lemma LaidClients(h: Phys, base: nat, order: seq<nat>, p: nat, area: nat, size: nat, clients: set<nat>, m: Bytes)
    requires PhysOk(h, base, order) && Gap(h, order, p, area, size) && size >= 80
    requires forall x | x in clients :: x in order && Size(h, x) > 0
    ensures ClientsKept(clients, h, Laid(h, area, size), m, AreaBytes(m, area, size))
  {
    LaidSame(h, base, order, p, area, size);
    LaidInside(h, area, size);
    forall x | x in clients
      ensures Size(Laid(h, area, size), x) == Size(h, x) && SameBytes(m, AreaBytes(m, area, size), Buffer(x), End(h, x))
    {
      ClientOutside(h, base, order, p, area, size, x);
      AreaOutside(m, area, size, Buffer(x), End(h, x));
    }
  }

  lemma ClientOutside(h: Phys, base: nat, order: seq<nat>, p: nat, area: nat, size: nat, x: nat)
    requires PhysOk(h, base, order) && Gap(h, order, p, area, size) && size >= 80 && x in order && Size(h, x) > 0
    ensures End(h, x) <= area || area + size <= x
  {
    var i :| 0 <= i < |order| && order[i] == x;
    if i < p - 1 {
      Ascending(h, base, order, i, p - 1);
    } else if i > p {
      Ascending(h, base, order, p, i);
    }
  }

  /** The new area is ready to be merged with its neighbours. */
  lemma LaidGrowing(k: Heap, base: nat, order: seq<nat>, lists: seq<seq<nat>>, live: set<nat>, info: set<nat>, areas: seq<Area>,
                    p: nat, area: nat, size: nat, m: Bytes)
    requires AllOk(k, base, order, lists, live, info, areas) && Covered(info, areas)
    requires Gap(k.phys, order, p, area, size) && size >= 80
    requires area > 0 && area % 16 == 0 && base <= area && area + size < base + MAX_SIZE
    ensures var b0: nat := area + BHDR_OVERHEAD + 16; var lb: nat := b0 + BHDR_OVERHEAD + AreaBlock(size);
            && Growing(k.(phys := Laid(k.phys, area, size)), base, With3(order, p, area, b0, lb), lists, live + {b0}, info + {area},
                       areas, area, b0, lb)
            && b0 !in live && live + {b0} - {b0} == live && Size(Laid(k.phys, area, size), b0) == AreaBlock(size)
            && ClientsKept(live, k.phys, Laid(k.phys, area, size), m, AreaBytes(m, area, size))
  {
    OwnedSizes(k.phys, order, live, info);
    LaidAll(k, base, order, lists, live, info, areas, p, area, size);
    LaidFrontier(k.phys, base, order, live, info, areas, p, area, size);
    LaidClients(k.phys, base, order, p, area, size, live, m);
    hide PhysOk, ListsOk, BitsOk, Linked, Owned, Starts, Listed, With3, ClientsKept, AreaBytes, Frontier, Gap, Covered;
  }

  // ---------------------------------------------------------------- what becomes of the list of areas

  /** The sentinel of a new area. */
  function AreaEnd(area: nat, size: nat): nat
    requires size >= 80
  {
    area + 2 * BHDR_OVERHEAD + 16 + AreaBlock(size)
  }

  /** No two areas start or end at one place, and none starts where another ends. */
  predicate Separate(areas: seq<Area>) {
    && (forall j | 0 <= j < |areas| :: areas[j].ib < areas[j].end)
    && (forall j, k | 0 <= j < |areas| && 0 <= k < |areas| && j != k ::
         areas[j].ib != areas[k].ib && areas[j].end != areas[k].end && areas[j].end + BHDR_OVERHEAD != areas[k].ib)
  }

  lemma ListedSeparate(h: Phys, order: seq<nat>, info: set<nat>, areas: seq<Area>)
    requires Listed(h, order, info, areas)
    ensures Separate(areas)
  {
    forall j | 0 <= j < |areas| ensures areas[j].ib < areas[j].end {
      assert Spans(h, order, areas[j]);
    }
  }

  predicate Above(x: Area, a: Area) {
    x.ib == a.end + BHDR_OVERHEAD
  }

  predicate Below(x: Area, a: Area) {
    x.end + BHDR_OVERHEAD == a.ib
  }

  /** The areas that are not side by side with `a`, in their order. */
  function Others(areas: seq<Area>, a: Area): seq<Area> {
    if areas == [] then []
    else
      var x := areas[|areas| - 1];
      Others(areas[..|areas| - 1], a) + (if Above(x, a) || Below(x, a) then [] else [x])
  }

  /** Area `a` with those that are side by side with it. */
  function Whole(areas: seq<Area>, a: Area): Area {
    if areas == [] then a
    else
      var x, w := areas[|areas| - 1], Whole(areas[..|areas| - 1], a);
      Area(if Below(x, a) then x.ib else w.ib, if Above(x, a) then x.end else w.end)
  }

  /** The block of area `a` after the merge: its own first one, or the sentinel of the area below. */
  function Middle(areas: seq<Area>, a: Area): nat {
    if areas == [] then a.ib + 2 * BHDR_OVERHEAD
    else
      var x := areas[|areas| - 1];
      if Below(x, a) then x.end else Middle(areas[..|areas| - 1], a)
  }

  /** The new area fills the gap between two areas, the one below comes first in the list, and its last block is
      free. */
  predicate Tears(h: Phys, areas: seq<Area>, a: Area) {
    exists j, k | 0 <= j < k < |areas| :: Below(areas[j], a) && Above(areas[k], a) && Word(h, areas[j].end).prevFree
  }

  lemma TearsAt(h: Phys, areas: seq<Area>, a: Area, j: nat, k: nat)
    requires j < k < |areas| && Below(areas[j], a) && Above(areas[k], a) && Word(h, areas[j].end).prevFree
    ensures Tears(h, areas, a)
  {
  }

  lemma TearsNext(h: Phys, areas: seq<Area>, a: Area, t: nat)
    requires t < |areas| && Separate(areas)
    ensures Tears(h, areas[..t + 1], a) <==>
      Tears(h, areas[..t], a) || (Above(areas[t], a) && exists j | 0 <= j < t :: Below(areas[j], a) && Word(h, areas[j].end).prevFree)
  {
  }

  lemma {:induction false} NoneBelow(areas: seq<Area>, a: Area)
    requires forall j | 0 <= j < |areas| :: !Below(areas[j], a)
    ensures Middle(areas, a) == a.ib + 2 * BHDR_OVERHEAD && Whole(areas, a).ib == a.ib
  {
    if areas == [] {
    } else {
      NoneBelow(areas[..|areas| - 1], a);
    }
  }

  lemma {:induction false} NoneAbove(areas: seq<Area>, a: Area)
    requires forall j | 0 <= j < |areas| :: !Above(areas[j], a)
    ensures Whole(areas, a).end == a.end
  {
    if areas == [] {
    } else {
      NoneAbove(areas[..|areas| - 1], a);
    }
  }

  /** A separate list has at most one area below another. */
  lemma {:induction false} OneBelow(areas: seq<Area>, a: Area, j: nat)
    requires Separate(areas) && j < |areas| && Below(areas[j], a)
    ensures Middle(areas, a) == areas[j].end && Whole(areas, a).ib == areas[j].ib
  {
    if j == |areas| - 1 {
    } else {
      OneBelow(areas[..|areas| - 1], a, j);
    }
  }

  lemma {:induction false} OneAbove(areas: seq<Area>, a: Area, j: nat)
    requires Separate(areas) && j < |areas| && Above(areas[j], a)
    ensures Whole(areas, a).end == areas[j].end
  {
    if j == |areas| - 1 {
    } else {
      OneAbove(areas[..|areas| - 1], a, j);
    }
  }

  /** An area that is side by side with no other stays as it is. */
  lemma {:induction false} StaysApart(h: Phys, areas: seq<Area>, a: Area)
    requires forall j | 0 <= j < |areas| :: !Above(areas[j], a) && !Below(areas[j], a)
    ensures Others(areas, a) == areas && Whole(areas, a) == a && !Tears(h, areas, a)
  {
    if areas == [] {
    } else {
      StaysApart(h, areas[..|areas| - 1], a);
    }
  }

  /** The first `t` of the areas have been compared with the new one, which is `a` with those of them that are side
      by side with it; the others are the first `j` on the list. */
  predicate Merging(olds: seq<Area>, a: Area, t: nat, areas: seq<Area>, j: nat, ib0: nat, b0: nat, lb0: nat) {
    && t <= |olds| && areas == Others(olds[..t], a) + olds[t..] && j == |Others(olds[..t], a)|
    && Whole(olds[..t], a) == Area(ib0, lb0) && b0 == Middle(olds[..t], a)
  }

  lemma MergingStart(olds: seq<Area>, a: Area)
    ensures Merging(olds, a, 0, olds, 0, a.ib, a.ib + 2 * BHDR_OVERHEAD, a.end)
  {
    assert olds[..0] == [] && [] + olds[0..] == olds;
  }

  /** One more area. */
  lemma OneMore(olds: seq<Area>, a: Area, t: nat)
    requires t < |olds|
    ensures var x, w := olds[t], Whole(olds[..t], a);
            && Others(olds[..t + 1], a) == Others(olds[..t], a) + (if Above(x, a) || Below(x, a) then [] else [x])
            && Whole(olds[..t + 1], a) == Area(if Below(x, a) then x.ib else w.ib, if Above(x, a) then x.end else w.end)
            && Middle(olds[..t + 1], a) == if Below(x, a) then x.end else Middle(olds[..t], a)
  {
    assert olds[..t + 1][..t] == olds[..t];
  }

  /** What the next area is, and how the list goes on. */
  lemma MergingNext(olds: seq<Area>, a: Area, t: nat, areas: seq<Area>, j: nat, ib0: nat, b0: nat, lb0: nat)
    requires Merging(olds, a, t, areas, j, ib0, b0, lb0) && j < |areas|
    ensures t < |olds| && areas[j] == olds[t] && olds[..t + 1][..t] == olds[..t]
    ensures Removed(areas, j) == Others(olds[..t], a) + olds[t + 1..]
    ensures areas == Others(olds[..t], a) + [olds[t]] + olds[t + 1..]
  {
    assert olds[t..] == [olds[t]] + olds[t + 1..];
    assert Removed(areas, j) == Others(olds[..t], a) + olds[t + 1..];
  }

  lemma MergingAbove(olds: seq<Area>, a: Area, t: nat, areas: seq<Area>, j: nat, ib0: nat, b0: nat, lb0: nat)
    requires Merging(olds, a, t, areas, j, ib0, b0, lb0) && j < |areas| && Separate(olds) && a.ib < a.end
    requires areas[j].ib == lb0 + BHDR_OVERHEAD
    ensures t < |olds| && areas[j] == olds[t] && Above(olds[t], a) && lb0 == a.end < areas[j].end && b0 == Middle(olds[..t], a)
    ensures Merging(olds, a, t + 1, Removed(areas, j), j, ib0, b0, areas[j].end)
  {
    hide Separate, Others, Whole, Middle;
    MergingNext(olds, a, t, areas, j, ib0, b0, lb0);
    OneMore(olds, a, t);
    AboveFirst(olds, a, t);
    EndsBehind(olds, t);
  }

  lemma AboveFirst(olds: seq<Area>, a: Area, t: nat)
    requires t < |olds| && Separate(olds) && Above(olds[t], Whole(olds[..t], a))
    ensures Whole(olds[..t], a).end == a.end
  {
    if u :| 0 <= u < t && Above(olds[..t][u], a) {
      OneAbove(olds[..t], a, u);
    } else {
      NoneAbove(olds[..t], a);
    }
  }

  lemma EndsBehind(olds: seq<Area>, t: nat)
    requires t < |olds| && Separate(olds)
    ensures olds[t].ib < olds[t].end
  {
  }

  lemma MergingBelow(olds: seq<Area>, a: Area, t: nat, areas: seq<Area>, j: nat, ib0: nat, b0: nat, lb0: nat)
    requires Merging(olds, a, t, areas, j, ib0, b0, lb0) && j < |areas| && Separate(olds) && a.ib < a.end
    requires areas[j].end + BHDR_OVERHEAD == ib0
    ensures t < |olds| && areas[j] == olds[t] && Below(olds[t], a) && forall u | 0 <= u < t :: !Below(olds[u], a)
    ensures Merging(olds, a, t + 1, Removed(areas, j), j, areas[j].ib, areas[j].end, lb0)
  {
    hide Separate, Others, Whole, Middle;
    MergingNext(olds, a, t, areas, j, ib0, b0, lb0);
    OneMore(olds, a, t);
    BelowFirst(olds, a, t);
    EndsBehind(olds, t);
  }

  lemma BelowFirst(olds: seq<Area>, a: Area, t: nat)
    requires t < |olds| && Separate(olds) && Below(olds[t], Whole(olds[..t], a))
    ensures Whole(olds[..t], a).ib == a.ib && forall u | 0 <= u < t :: !Below(olds[u], a)
  {
    if u :| 0 <= u < t && Below(olds[..t][u], a) {
      OneBelow(olds[..t], a, u);
    } else {
      NoneBelow(olds[..t], a);
      assert forall u | 0 <= u < t :: olds[..t][u] == olds[u];
    }
  }

  lemma MergingPast(olds: seq<Area>, a: Area, t: nat, areas: seq<Area>, j: nat, ib0: nat, b0: nat, lb0: nat)
    requires Merging(olds, a, t, areas, j, ib0, b0, lb0) && j < |areas| && Separate(olds) && a.ib < a.end
    requires areas[j].ib != lb0 + BHDR_OVERHEAD && areas[j].end + BHDR_OVERHEAD != ib0
    ensures t < |olds| && areas[j] == olds[t] && !Above(olds[t], a) && !Below(olds[t], a)
    ensures Merging(olds, a, t + 1, areas, j + 1, ib0, b0, lb0)
  {
    hide Separate, Others, Whole, Middle;
    MergingNext(olds, a, t, areas, j, ib0, b0, lb0);
    OneMore(olds, a, t);
    NeitherSide(olds, a, t);
  }

  lemma NeitherSide(olds: seq<Area>, a: Area, t: nat)
    requires t < |olds| && Separate(olds)
    ensures Above(olds[t], a) ==> Whole(olds[..t], a).end == a.end
    ensures Below(olds[t], a) ==> Whole(olds[..t], a).ib == a.ib
  {
    if Above(olds[t], a) {
      NoneAbove(olds[..t], a);
    }
    if Below(olds[t], a) {
      NoneBelow(olds[..t], a);
    }
  }

  lemma NothingMerged(k: Heap, base: nat, order: seq<nat>, lists: seq<seq<nat>>, live: set<nat>, info: set<nat>,
                      areas: seq<Area>, ib0: nat, b0: nat, lb0: nat)
    requires Growing(k, base, order, lists, live, info, areas, ib0, b0, lb0) && b0 == ib0 + 2 * BHDR_OVERHEAD
    ensures Passed(areas, 0, ib0, lb0) && Separate(areas) && Merging(areas, Area(ib0, lb0), 0, areas, 0, ib0, b0, lb0)
    ensures SameMarks(k.phys, k.phys) && areas[..0] == [] && !Tears(k.phys, areas[..0], Area(ib0, lb0))
  {
    ListedSeparate(k.phys, order, info, areas);
    MergingStart(areas, Area(ib0, lb0));
    hide Growing, Separate;
  }

  lemma MergingEnd(olds: seq<Area>, a: Area, t: nat, areas: seq<Area>, j: nat, ib0: nat, b0: nat, lb0: nat)
    requires Merging(olds, a, t, areas, j, ib0, b0, lb0) && j == |areas|
    ensures olds[..t] == olds && areas == Others(olds, a) && Area(ib0, lb0) == Whole(olds, a) && b0 == Middle(olds, a)
  {
    assert t == |olds|;
    assert olds[..t] == olds;
    assert Others(olds, a) + [] == Others(olds, a);
  }

  /** A block at the end of its area leaves its mark on the sentinel when it is freed. */
  lemma EndMarked(h: Phys, b: nat, end: nat)
    requires End(h, b) == end && !IsFree(h, end)
    ensures NextOf(h, b) == end
    ensures FirstOf(h, b) + BHDR_OVERHEAD <= end ==> Word(Merged(h, FirstOf(h, b), end, true), end).prevFree
  {
  }

  lemma SentinelUsed(k: Heap, base: nat, order: seq<nat>, lists: seq<seq<nat>>, live: set<nat>, info: set<nat>, areas: seq<Area>,
                     ib0: nat, b0: nat, lb0: nat)
    requires Growing(k, base, order, lists, live, info, areas, ib0, b0, lb0)
    ensures !IsFree(k.phys, lb0)
  {
    Sentinel(k.phys, base, order, lb0);
  }

  lemma SameMarksChain(h: Phys, h1: Phys, h2: Phys)
    requires SameMarks(h, h1) && (h2 == h1 || SameMarks(h1, h2))
    ensures SameMarks(h, h2)
  {
  }

  /** The block that merges with the area above is behind a free one exactly when an area with a free block at its
      end has been merged before. */
  lemma TearsAbove(h: Phys, h': Phys, olds: seq<Area>, a: Area, t: nat, b0: nat)
    requires t < |olds| && Separate(olds) && Above(olds[t], a) && SameMarks(h, h') && b0 == Middle(olds[..t], a)
    requires !Word(h, a.ib + 2 * BHDR_OVERHEAD).prevFree
    ensures !Tears(h, olds[..t], a)
    ensures Tears(h, olds[..t + 1], a) <==> Word(h', b0).prevFree
  {
    hide Separate, Tears;
    NoTwoAbove(h, olds, a, t);
    MiddleFree(h, olds, a, t);
    TearsNext(h, olds, a, t);
  }

  lemma NoTwoAbove(h: Phys, olds: seq<Area>, a: Area, t: nat)
    requires t < |olds| && Separate(olds) && Above(olds[t], a)
    ensures !Tears(h, olds[..t], a)
  {
  }

  lemma MiddleFree(h: Phys, olds: seq<Area>, a: Area, t: nat)
    requires t < |olds| && Separate(olds) && !Word(h, a.ib + 2 * BHDR_OVERHEAD).prevFree
    ensures Word(h, Middle(olds[..t], a)).prevFree <==> exists j | 0 <= j < t :: Below(olds[j], a) && Word(h, olds[j].end).prevFree
  {
    if u :| 0 <= u < t && Below(olds[u], a) {
      assert olds[..t][u] == olds[u];
      OneBelow(olds[..t], a, u);
      assert forall j | 0 <= j < t && Below(olds[j], a) :: j == u;
    } else {
      NoneBelow(olds[..t], a);
    }
  }

  lemma TearsBelow(h: Phys, olds: seq<Area>, a: Area, t: nat)
    requires t < |olds| && Separate(olds) && Below(olds[t], a) && a.ib < a.end && forall u | 0 <= u < t :: !Below(olds[u], a)
    ensures !Tears(h, olds[..t], a) && !Tears(h, olds[..t + 1], a)
  {
    TearsNext(h, olds, a, t);
  }

  lemma TearsPast(h: Phys, olds: seq<Area>, a: Area, t: nat)
    requires t < |olds| && Separate(olds) && !Above(olds[t], a)
    ensures Tears(h, olds[..t + 1], a) <==> Tears(h, olds[..t], a)
  {
    TearsNext(h, olds, a, t);
  }

  lemma TearsEnd(h: Phys, h': Phys, olds: seq<Area>, a: Area, b0: nat)
    requires Separate(olds) && SameMarks(h, h') && b0 == Middle(olds, a)
    ensures Tears(h, olds, a) ==> Word(h', b0).prevFree
  {
    if Tears(h, olds, a) {
      var j, k :| 0 <= j < k < |olds| && Below(olds[j], a) && Above(olds[k], a) && Word(h, olds[j].end).prevFree;
      OneBelow(olds, a, j);
    }
  }

  lemma OldEnds(h: Phys, base: nat, order: seq<nat>, info: set<nat>, areas: seq<Area>, p: nat, area: nat, size: nat)
    requires PhysOk(h, base, order) && AreasOk(h, order, info, areas) && Gap(h, order, p, area, size) && size >= 80
    ensures forall j | 0 <= j < |areas| :: Word(Laid(h, area, size), areas[j].end) == Word(h, areas[j].end)
    ensures !Word(Laid(h, area, size), area + 2 * BHDR_OVERHEAD).prevFree
  {
    LaidSame(h, base, order, p, area, size);
    LaidInside(h, area, size);
    hide PhysOk, Laid, With3, Starts, Gap, AreaBlock, Spans;
    assert forall j | 0 <= j < |areas| :: areas[j].end in order;
  }

  /** Laying out the area changes none of the old blocks. */
  lemma LaidTears(k: Heap, base: nat, order: seq<nat>, lists: seq<seq<nat>>, info: set<nat>, areas: seq<Area>, p: nat, area: nat, size: nat)
    requires HeapOk(k, base, order, lists, {}) && AreasOk(k.phys, order, info, areas) && Gap(k.phys, order, p, area, size) && size >= 80
    ensures var a, h' := Area(area, AreaEnd(area, size)), Laid(k.phys, area, size);
            (Tears(h', areas, a) <==> Tears(k.phys, areas, a)) && !Word(h', area + 2 * BHDR_OVERHEAD).prevFree
  {
    OldEnds(k.phys, base, order, info, areas, p, area, size);
    hide HeapOk, AreasOk, Laid, Gap, AreaBlock;
  }

  /** The block that does not know of the free one before it is then freed on its own. */
  lemma TornFreeable(k: Heap, base: nat, order: seq<nat>, lists: seq<seq<nat>>, live: set<nat>, info: set<nat>, i: nat)
    requires HeapOk(k, base, order, lists, {}) && Owned(k.phys, order, live, info) && i < |order| && order[i] in live
    ensures Shaped(k.index) && Freeable(Unmarked(k.phys, order[i]), order[i])
  {
    hide ListsOk, Linked, BlockOk;
    BitsShaped(k.index);
    Neighbours(k.phys, base, order, i);
    assert BlockOk(k.phys, base, order[i]) && BlockOk(k.phys, base, order[i + 1]);
    hide PhysOk, BitsOk, Owned;
    UnmarkedFreeable(k.phys, base, order[i]);
  }

  lemma UnmarkedFreeable(h: Phys, base: nat, b: nat)
    requires BlockOk(h, base, b) && BlockOk(h, base, End(h, b)) && Size(h, b) > 0
    ensures Freeable(Unmarked(h, b), b)
  {
  }

  lemma Tearing(k: Heap, base: nat, order: seq<nat>, lists: seq<seq<nat>>, live: set<nat>, info: set<nat>, i: nat)
    requires HeapOk(k, base, order, lists, {}) && Owned(k.phys, order, live, info) && i < |order| && order[i] in live
    requires Word(k.phys, order[i]).prevFree
    ensures i > 0 && order[i - 1] in order
    ensures var h', b := Unmarked(k.phys, order[i]), order[i];
            && FirstOf(h', b) == b && b + BHDR_OVERHEAD <= NextOf(h', b)
            && var h2 := Merged(h', b, NextOf(h', b), true); Torn(h2, order[i - 1]) && End(h2, order[i - 1]) == b
  {
    hide ListsOk, BitsOk, Linked;
    Neighbours(k.phys, base, order, i);
    AllAscending(k.phys, base, order);
    UnmarkedTorn(k.phys, order[i - 1], order[i]);
  }

  lemma UnmarkedTorn(h: Phys, x: nat, b: nat)
    requires IsFree(h, x) && x < b == End(h, x)
    ensures var h' := Unmarked(h, b);
            && FirstOf(h', b) == b && b + BHDR_OVERHEAD <= NextOf(h', b)
            && var h2 := Merged(h', b, NextOf(h', b), true); Torn(h2, x) && End(h2, x) == b
  {
  }

  lemma NotTornHeap(k: Heap, base: nat, order: seq<nat>, lists: seq<seq<nat>>, x: nat)
    requires Torn(k.phys, x) && x in order
    ensures !HeapOk(k, base, order, lists, {})
  {
    if HeapOk(k, base, order, lists, {}) {
      NotTorn(k.phys, base, order, x);
    }
  }

  /** The address after the only area. */
  function Break(areas: seq<Area>): nat
    requires |areas| == 1
  {
    areas[0].end + BHDR_OVERHEAD
  }

  /** The heap is one area, and a new one starts where it ends. */
  predicate AtBreak(areas: seq<Area>, area: Option<nat>) {
    |areas| == 1 && (area.Some? ==> area.value == Break(areas))
  }

  /** An area at the break never tears the heap. */
  lemma BreakNeverTears(h: Phys, areas: seq<Area>, area: Option<nat>, size: nat)
    requires area.Some? && size >= 80
    ensures AtBreak(areas, area) ==> !Tears(h, areas, Area(area.value, AreaEnd(area.value, size)))
  {
  }

  /** What tells the first areas on the list from each other. */
  lemma FirstAreas(h: Phys, order: seq<nat>, info: set<nat>, areas: seq<Area>)
    requires Listed(h, order, info, areas)
    ensures |areas| > 1 ==> areas[0].ib != areas[1].ib && areas[1].end + BHDR_OVERHEAD != areas[0].ib
    ensures |areas| > 2 ==> areas[1].ib != areas[2].ib
  {
  }

  /** A heap of one area that grows at its end stays one area. */
  lemma OneAreaStays(areas: seq<Area>, a: Area)
    requires |areas| == 1 && areas[0].ib < areas[0].end && Break(areas) == a.ib < a.end
    ensures Others(areas, a) == [] && Whole(areas, a) == Area(areas[0].ib, a.end)
  {
    assert areas[..0] == [];
    assert Others(areas[..0], a) == [] && Whole(areas[..0], a) == a;
  }

  /** When no client has a block, every area is its description, one free block and its sentinel. */
  lemma AllFree(h: Phys, base: nat, order: seq<nat>, info: set<nat>, i: nat)
    requires PhysOk(h, base, order) && Owned(h, order, {}, info) && Starts(h, order, info) && i < |order|
    ensures order[i] in info ==> i + 2 < |order| && IsFree(h, order[i + 1]) && Size(h, order[i + 2]) == 0
    ensures IsFree(h, order[i]) ==> i > 0 && order[i - 1] in info
  {
    assert StartOk(h, order, info, i) && BlockOk(h, base, order[i]);
    if order[i] in info {
      assert i + 1 < |order|;
      assert StartOk(h, order, info, i + 1);
      assert order[i + 1] !in info && IsFree(h, order[i + 1]) && i + 2 < |order|;
      assert PairOk(h, order[i + 1], order[i + 2]) && StartOk(h, order, info, i + 2);
    } else if IsFree(h, order[i]) {
      assert i > 0 && PairOk(h, order[i - 1], order[i]);
    }
  }

  /** The first block of the area that block `i` is in. */
  lemma {:induction false} StartBefore(h: Phys, order: seq<nat>, info: set<nat>, i: nat) returns (m: nat)
    requires Starts(h, order, info) && i < |order|
    ensures m <= i && order[m] in info && forall t | m <= t < i :: Size(h, order[t]) > 0
  {
    assert StartOk(h, order, info, i);
    if order[i] in info {
      m := i;
    } else {
      m := StartBefore(h, order, info, i - 1);
    }
  }

  /** Every sentinel is the end of an area on the list. */
  lemma SentinelListed(h: Phys, base: nat, order: seq<nat>, info: set<nat>, areas: seq<Area>, i: nat) returns (j: nat)
    requires PhysOk(h, base, order) && AreasOk(h, order, info, areas) && Covered(info, areas) && i < |order| && Size(h, order[i]) == 0
    ensures j < |areas| && areas[j].end == order[i]
  {
    hide PhysOk, Starts;
    AllAscending(h, base, order);
    var m := StartBefore(h, order, info, i);
    j :| j < |areas| && areas[j].ib == order[m];
    var e: nat :| e < |order| && order[e] == areas[j].end;
    assert Spans(h, order, areas[j]) && order[i] in order;
    assert m < e && e <= i;
  }

  /** Where an address belongs among the blocks. */
  lemma {:induction false} PlaceOf(order: seq<nat>, x: nat) returns (p: nat)
    requires Sorted(order)
    ensures p <= |order| && (forall m | 0 <= m < p :: order[m] < x) && (p < |order| ==> x <= order[p])
  {
    if order == [] || order[|order| - 1] < x {
      p := |order|;
    } else {
      p := PlaceOf(order[..|order| - 1], x);
    }
  }

  /** Memory that no area on the list reaches into lies in a gap of the heap. */
  lemma Room(h: Phys, base: nat, order: seq<nat>, info: set<nat>, areas: seq<Area>, area: nat, size: nat) returns (p: nat)
    requires PhysOk(h, base, order) && AreasOk(h, order, info, areas) && Covered(info, areas) && size > 0
    requires forall j | 0 <= j < |areas| :: areas[j].end + BHDR_OVERHEAD <= area || area + size <= areas[j].ib
    ensures Gap(h, order, p, area, size)
  {
    AllAscending(h, base, order);
    p := PlaceOf(order, area + size);
    hide PhysOk, Sorted, AreasOk, Covered;
    if p > 0 {
      EndsBefore(h, base, order, info, areas, area, size, p);
    }
  }

  lemma EndsBefore(h: Phys, base: nat, order: seq<nat>, info: set<nat>, areas: seq<Area>, area: nat, size: nat, p: nat)
    requires PhysOk(h, base, order) && AreasOk(h, order, info, areas) && Covered(info, areas) && 0 < p <= |order|
    requires forall j | 0 <= j < |areas| :: areas[j].end + BHDR_OVERHEAD <= area || area + size <= areas[j].ib
    requires order[p - 1] < area + size && (p < |order| ==> area + size <= order[p]) && size > 0
    ensures Size(h, order[p - 1]) == 0 && End(h, order[p - 1]) <= area
  {
    hide PhysOk, AreasOk, Covered;
    var m, j := AreaOf(h, order, info, areas, p - 1);
    StartsBefore(h, base, order, m, p - 1);
    EndBefore(h, base, order, info, areas, j, m, p - 1);
  }

  /** The area that block `t` is in, and its first block. */
  lemma AreaOf(h: Phys, order: seq<nat>, info: set<nat>, areas: seq<Area>, t: nat) returns (m: nat, j: nat)
    requires AreasOk(h, order, info, areas) && Covered(info, areas) && t < |order|
    ensures m <= t && j < |areas| && areas[j].ib == order[m] && forall i | m <= i < t :: Size(h, order[i]) > 0
  {
    m := StartBefore(h, order, info, t);
    j :| j < |areas| && areas[j].ib == order[m];
  }

  lemma StartsBefore(h: Phys, base: nat, order: seq<nat>, m: nat, t: nat)
    requires PhysOk(h, base, order) && m <= t < |order|
    ensures order[m] <= order[t]
  {
    AllAscending(h, base, order);
  }

  /** Block `t`, in area `j`, is its sentinel if that comes no later. */
  lemma EndBefore(h: Phys, base: nat, order: seq<nat>, info: set<nat>, areas: seq<Area>, j: nat, m: nat, t: nat)
    requires PhysOk(h, base, order) && AreasOk(h, order, info, areas) && j < |areas| && m <= t < |order| && areas[j].ib == order[m]
    requires forall i | m <= i < t :: Size(h, order[i]) > 0
    requires t + 1 < |order| ==> areas[j].end < order[t + 1]
    ensures Size(h, order[t]) == 0 && order[t] == areas[j].end && areas[j].ib <= order[t]
  {
    AllAscending(h, base, order);
    hide PhysOk, Starts;
    var e: nat :| e < |order| && order[e] == areas[j].end;
    assert Spans(h, order, areas[j]);
    assert e > m && e >= t;
  }

  /** No memory between the blocks of the heap belongs to anyone else. */
  predicate Contiguous(h: Phys, order: seq<nat>) {
    forall i | 0 <= i < |order| - 1 :: order[i + 1] == End(h, order[i])
  }

  /** Areas that lie side by side are one area. */
  lemma ContiguousIsOne(h: Phys, base: nat, order: seq<nat>, info: set<nat>, areas: seq<Area>)
    requires PhysOk(h, base, order) && AreasOk(h, order, info, areas) && Covered(info, areas)
    requires order != [] && Contiguous(h, order)
    ensures |areas| == 1
  {
    forall i | 0 <= i < |order| - 1 ensures Size(h, order[i]) > 0 {
      NoInnerSentinel(h, base, order, info, areas, i);
    }
    assert StartOk(h, order, info, 0);
    forall b | b in info ensures b == order[0] {
      var i :| 0 <= i < |order| && order[i] == b;
      assert StartOk(h, order, info, i);
    }
    hide PhysOk, Starts, Spans;
    assert forall j | 0 <= j < |areas| :: areas[j].ib == order[0];
    FirstAreas(h, order, info, areas);
    assert |areas| <= 1;
  }

  lemma NoInnerSentinel(h: Phys, base: nat, order: seq<nat>, info: set<nat>, areas: seq<Area>, i: nat)
    requires PhysOk(h, base, order) && AreasOk(h, order, info, areas) && Covered(info, areas)
    requires i < |order| - 1 && Contiguous(h, order)
    ensures Size(h, order[i]) > 0
  {
    hide PhysOk, Starts, Listed, Covered;
    if Size(h, order[i]) == 0 {
      var j := SentinelListed(h, base, order, info, areas, i);
      NotSideBySide(h, order, info, areas, i, j);
    }
  }

  lemma NotSideBySide(h: Phys, order: seq<nat>, info: set<nat>, areas: seq<Area>, i: nat, j: nat)
    requires AreasOk(h, order, info, areas) && Covered(info, areas)
    requires i < |order| - 1 && Size(h, order[i]) == 0 && j < |areas| && areas[j].end == order[i]
    ensures order[i + 1] != order[i] + BHDR_OVERHEAD
  {
    assert StartOk(h, order, info, i + 1);
    var m :| 0 <= m < |areas| && areas[m].ib == order[i + 1];
    assert Spans(h, order, areas[j]);
    hide Starts, Spans;
  }

  /** When no client has a block of a heap of one area, the heap is one free block. */
  lemma OneFreeBlock(h: Phys, base: nat, order: seq<nat>, info: set<nat>, areas: seq<Area>)
    requires PhysOk(h, base, order) && Owned(h, order, {}, info) && AreasOk(h, order, info, areas) && Covered(info, areas)
    requires |areas| == 1
    ensures |order| == 3 && order[0] == areas[0].ib && IsFree(h, order[1]) && order[2] == areas[0].end
  {
    AllAscending(h, base, order);
    assert order != [] by { assert areas[0].ib in order; }
    assert StartOk(h, order, info, 0);
    AllFree(h, base, order, info, 0);
    assert order[0] == areas[0].ib && areas[0].end in order;
    assert BlockOk(h, base, order[1]);
    forall m | 0 <= m < |order| - 1 ensures Size(h, order[m]) > 0 {
      assert StartOk(h, order, info, m + 1);
    }
  }

  /** The size of the area that is asked for when a request of `n` bytes does not fit. */
  function GrowBy(n: nat): (r: nat)
    ensures r >= 80
  {
    if n + 8 * BHDR_OVERHEAD > 10240 then n + 8 * BHDR_OVERHEAD else 10240
  }

  /** Such an area has room for the request. */
  lemma GrowByFits(n: nat)
    requires n % 16 == 0
    ensures GrowBy(n) >= 80 && n <= AreaBlock(GrowBy(n))
    ensures forall area: nat :: AreaEnd(area, GrowBy(n)) + BHDR_OVERHEAD == area + GrowBy(n)
  {
  }

  /** The only area may have become longer. */
  predicate Extended(olds: seq<Area>, areas: seq<Area>, n: nat) {
    |olds| == 1 && |areas| == 1 && areas[0].ib == olds[0].ib && (Break(areas) == Break(olds) || Break(areas) == Break(olds) + n)
  }

  lemma GrownAtBreak(h: Phys, order: seq<nat>, info: set<nat>, olds: seq<Area>, n: nat)
    requires AreasOk(h, order, info, olds) && n % 16 == 0 && |olds| == 1 && GrowBy(n) >= 80
    ensures var a := Area(Break(olds), AreaEnd(Break(olds), GrowBy(n)));
            Extended(olds, [Whole(olds, a)] + Others(olds, a), GrowBy(n))
  {
    hide Starts, Listed, GrowBy, AreaBlock;
    GrowByFits(n);
    OneSpan(h, order, info, olds);
    OneAreaStays(olds, Area(Break(olds), AreaEnd(Break(olds), GrowBy(n))));
  }

  lemma OneSpan(h: Phys, order: seq<nat>, info: set<nat>, areas: seq<Area>)
    requires Listed(h, order, info, areas) && areas != []
    ensures areas[0].ib < areas[0].end
  {
    assert Spans(h, order, areas[0]);
  }

  /** The address after the only area is free to grow into. */
  lemma BreakIsFree(h: Phys, base: nat, order: seq<nat>, info: set<nat>, areas: seq<Area>, size: nat)
    requires PhysOk(h, base, order) && AreasOk(h, order, info, areas) && Covered(info, areas) && |areas| == 1
    ensures Gap(h, order, |order|, Break(areas), size) && Break(areas) % 16 == 0 && Break(areas) >= base + BHDR_OVERHEAD
  {
    assert areas[0].ib in order && areas[0].end in order;
    assert BlockOk(h, base, areas[0].end);
    hide BlockOk, Starts;
    var j := SentinelListed(h, base, order, info, areas, |order| - 1);
  }

  // ---------------------------------------------------------------- a new pool

  /** The size of the control structure at the start of a pool, with 64-bit addresses. */
  const CONTROL_SIZE := 6264

  /** The first area starts after the control structure. */
  function FirstArea(pool: nat): nat {
    pool + (CONTROL_SIZE + 15) / 16 * 16
  }

  function FirstSize(size: nat): nat
    requires size >= CONTROL_SIZE
  {
    (size - CONTROL_SIZE) / 16 * 16
  }

  /** The start of the area is rounded up and its size is rounded down, from different numbers: the area lies in
      the pool exactly when the pool's size is less than 8 over a multiple of 16. */
  lemma FirstAreaFits(pool: nat, size: nat)
    requires size >= CONTROL_SIZE + 8 * BHDR_OVERHEAD
    ensures FirstArea(pool) + FirstSize(size) <= pool + size <==> size % 16 < 8
  {
    var q: nat := size - CONTROL_SIZE;
    assert q == 16 * (q / 16) + q % 16 && size == 16 * (size / 16) + size % 16;
    assert CONTROL_SIZE == 16 * 391 + 8;
  }

  /** In a pool of 10248 bytes the area ends 8 bytes too late. */
  lemma FirstAreaOverruns(pool: nat)
    ensures FirstArea(pool) + FirstSize(10248) == pool + 10248 + 8
  {
  }

  function EmptyIndex(): Index {
    Index(seq(CLASSES, _ => 0), seq(REAL_FLI, _ => 0), 0)
  }

  /** A heap without areas. */
  lemma EmptyOk(base: nat)
    ensures var lists: seq<seq<nat>> := seq(CLASSES, _ => []);
            && HeapOk(Heap(Phys(map[], map[]), Links(map[], map[]), EmptyIndex()), base, [], lists, {})
            && Owned(Phys(map[], map[]), [], {}, {}) && AreasOk(Phys(map[], map[]), [], {}, []) && Covered({}, [])
  {
    NoBits(0);
  }
}
