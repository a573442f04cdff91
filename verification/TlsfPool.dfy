/** The TLSF allocator itself: malloc, free and realloc of lib/tlsf.c. */
module TlsfPools {
  import opened Options
  import opened TlsfMapping
  import opened TlsfLists
  import opened TlsfBlocks
  import opened TlsfHeap
  import opened TlsfClients
  import opened TlsfAreas
  import opened TlsfResize

  class Pool {
    var phys: Phys
    var links: Links
    var index: Index
    var bytes: Bytes
    ghost var base: nat
    ghost var order: seq<nat>
    ghost var lists: seq<seq<nat>>
    ghost var live: set<nat>
    ghost var info: set<nat>
    var areas: seq<Area>

    /** A new pool: its first area has one free block. */
    constructor InitMemoryPool(pool: nat, size: nat)
      requires pool > 0 && pool % 16 == 0 && CONTROL_SIZE + 8 * BHDR_OVERHEAD <= size < MAX_SIZE - 16
      ensures Valid() && live == {} && base == pool
      ensures areas == [Area(FirstArea(pool), AreaEnd(FirstArea(pool), FirstSize(size)))]
      ensures HasFree(phys, order, AreaBlock(FirstSize(size)))
    {
      phys, links, index := Phys(map[], map[]), Links(map[], map[]), EmptyIndex();
      bytes, areas := map[], [];
      base, order, lists, live, info := pool, [], seq(CLASSES, _ => []), {}, {};
      new;
      hide HeapOk, Owned, AreasOk, HasFree, Covered;
      EmptyOk(pool);
      AddNewArea(FirstArea(pool), FirstSize(size), 0);
    }

    ghost function State(): Heap
      reads this`phys, this`links, this`index
    {
      Heap(phys, links, index)
    }

    ghost predicate Sound(hole: set<nat>)
      reads this
    {
      HeapOk(State(), base, order, lists, hole)
    }

    ghost predicate Valid()
      reads this
    {
      Sound({}) && Owned(phys, order, live, info) && AreasOk(phys, order, info, areas) && Covered(info, areas)
    }

    method ExtractLinks(b: nat, fl: nat, sl: nat)
      requires Shaped(index) && fl < REAL_FLI && sl < MAX_SLI
      modifies this`links, this`index, this`bytes
      ensures State() == Extract(old(State()), b, fl, sl)
      ensures bytes == Unlinking(old(bytes), b, Get(old(links).prev, b), Get(old(links).next, b))
    {
      hide Clobber;
      var p, n := Get(links.prev, b), Get(links.next, b);
      if n != 0 {
        links := links.(prev := links.prev[n := p]);
        bytes := Clobber(bytes, Buffer(n), 8);
      }
      if p != 0 {
        links := links.(next := links.next[p := n]);
        bytes := Clobber(bytes, Buffer(p) + 8, 8);
      }
      if index.matrix[ClassIndex(fl, sl)] == b {
        index := Unhead(index, fl, sl, n);
      }
      links := Links(links.prev[b := 0], links.next[b := 0]);
      bytes := Clobber(bytes, Buffer(b), 16);
    }

    method InsertLinks(b: nat, fl: nat, sl: nat)
      requires Shaped(index) && fl < REAL_FLI && sl < MAX_SLI
      modifies this`links, this`index, this`bytes
      ensures State() == Insert(old(State()), b, fl, sl)
      ensures bytes == Pushing(old(bytes), b, old(index).matrix[ClassIndex(fl, sl)])
    {
      hide Clobber;
      var head := index.matrix[ClassIndex(fl, sl)];
      links := Links(links.prev[b := 0], links.next[b := head]);
      bytes := Clobber(bytes, Buffer(b), 16);
      if head != 0 {
        links := links.(prev := links.prev[head := b]);
        bytes := Clobber(bytes, Buffer(head), 8);
      }
      index := Rehead(index, fl, sl, b);
    }

    /** Takes a free block off the list of its class. */
    method ExtractBlock(b: nat, fl: nat, sl: nat, ghost hole: set<nat>, ghost ok: bool)
      requires fl < REAL_FLI && sl < MAX_SLI
      requires if ok then Sound(hole) && b in lists[ClassIndex(fl, sl)] else Shaped(index)
      modifies this`links, this`index, this`bytes, this`lists
      ensures if ok then Sound(hole + {b}) && UsedKept(phys, order, old(bytes), bytes) else Shaped(index)
    {
      hide HeapOk, UsedKept, Unlinking, Extract;
      ghost var lists' := lists;
      if ok {
        lists' := ExtractedFrom(State(), base, order, lists, hole, b, fl, sl, bytes);
      }
      ExtractLinks(b, fl, sl);
      lists := lists';
    }

    /** Puts a free block on the list of its class. */
    method InsertBlock(b: nat, ghost hole: set<nat>, ghost ok: bool)
      requires if ok then Sound(hole) && b in hole && b in order && IsFree(phys, b) else Shaped(index) && Size(phys, b) < MAX_SIZE
      modifies this`links, this`index, this`bytes, this`lists
      ensures if ok then Sound(hole - {b}) && UsedKept(phys, order, old(bytes), bytes) else Shaped(index)
    {
      if ok {
        SizeInRange(State(), base, order, lists, hole, b);
      }
      var fl, sl := MappingInsert(Size(phys, b));
      ghost var c: nat, k := ClassIndex(fl, sl), State();
      if ok {
        InsertKeeps(k, base, order, lists, hole, b, fl, sl);
        PushingKeepsAll(k, base, order, lists, hole, c, b, bytes);
        assert |lists| == CLASSES;
      }
      assert Shaped(index);
      hide HeapOk, UsedKept, Pushing;
      InsertLinks(b, fl, sl);
      if ok {
        lists := lists[c := [b] + lists[c]];
      }
    }

    /** Takes a free block off whatever list it is on. */
    method Unlist(b: nat, ghost hole: set<nat>, ghost ok: bool)
      requires if ok then Sound(hole) && b in order && IsFree(phys, b) && b !in hole else Shaped(index) && Size(phys, b) < MAX_SIZE
      modifies this`links, this`index, this`bytes, this`lists
      ensures if ok then Sound(hole + {b}) && UsedKept(phys, order, old(bytes), bytes) else Shaped(index)
    {
      if ok {
        SizeInRange(State(), base, order, lists, hole, b);
      }
      var fl, sl := MappingInsert(Size(phys, b));
      assert ok ==> b in lists[ClassIndex(fl, sl)];
      hide HeapOk, UsedKept;
      ExtractBlock(b, fl, sl, hole, ok);
    }

    /** Frees a block: it is merged with the free blocks before and after it, and goes on the list of its new
        size. */
    method FreeEx(ptr: nat)
      requires Valid() && (ptr != 0 ==> ptr >= BHDR_OVERHEAD && ptr - BHDR_OVERHEAD in live)
      modifies this
      ensures Valid() && base == old(base) && info == old(info) && areas == old(areas)
      ensures live == if ptr == 0 then old(live) else old(live) - {ptr - BHDR_OVERHEAD}
      ensures ClientsKept(live, old(phys), phys, old(bytes), bytes)
    {
      if ptr == 0 {
        return;
      }
      var b := ptr - BHDR_OVERHEAD;
      ghost var i: nat :| i < |order| && order[i] == b;
      FreeBlock(b, i, true);
    }

    /** The block may also be one of a heap that is not in order; then only its headers are described. */
    method FreeBlock(b: nat, ghost i: nat, ghost ok: bool)
      requires if ok then Valid() && b in live && i < |order| && order[i] == b else Shaped(index) && Freeable(phys, b)
      modifies this
      ensures base == old(base) && info == old(info) && areas == old(areas)
      ensures FirstOf(old(phys), b) + BHDR_OVERHEAD <= NextOf(old(phys), b)
      ensures phys == Merged(old(phys), FirstOf(old(phys), b), NextOf(old(phys), b), true)
      ensures ok ==> Valid() && live == old(live) - {b} && ClientsKept(live, old(phys), phys, old(bytes), bytes)
      ensures ok ==> HasFree(phys, order, Size(old(phys), b))
      ensures !ok ==> order == old(order)
    {
      if ok {
        OwnedUsed(phys, order, live, info);
      }
      var first, next := GatherNeighbours(b, i, ok);
      ghost var bytes1 := bytes;
      hide HeapOk, Owned, UsedKept, ClientsKept, AreasOk;
      Fuse(b, i, first, next, ok);
      ghost var bytes2 := bytes;
      if ok {
        OwnedUsed(phys, order, live, info);
      }
      InsertBlock(first, {first}, ok);
      if ok {
        assert {first} - {first} == {};
        UsedClients(live, phys, order, bytes2, bytes);
        UsedClients(live, old(phys), old(order), old(bytes), bytes1);
        ClientsChain(live, old(phys), old(phys), phys, old(bytes), bytes1, bytes2);
        ClientsChain(live, old(phys), phys, phys, old(bytes), bytes2, bytes);
      }
    }

    /** Takes the free neighbours of a block off their lists. */
    method GatherNeighbours(b: nat, ghost i: nat, ghost ok: bool) returns (first: nat, next: nat)
      requires if ok then Valid() && b in live && i < |order| && order[i] == b else Shaped(index) && Freeable(phys, b)
      modifies this`links, this`index, this`bytes, this`lists
      ensures first == FirstOf(phys, b) && next == NextOf(phys, b)
      ensures ok ==>
        && i + 1 < |order| && first == order[Lo(phys, order, i)] && Hi(phys, order, i) + 1 < |order| && next == order[Hi(phys, order, i) + 1]
        && Sound(Neighbouring(phys, order, i)) && UsedKept(phys, order, old(bytes), bytes)
      ensures !ok ==> Shaped(index)
    {
      hide AreasOk;
      ghost var after: set<nat>, before: set<nat> := {}, {};
      if ok {
        Neighbours(phys, base, order, i);
        after, before := After(phys, order, i), Before(phys, order, i);
        NotNext(phys, base, order, i);
        UsedSame(phys, order, bytes);
      }
      hide PhysOk, ListsOk, BitsOk, Linked, UsedKept;
      first, next := b, End(phys, b);
      if Word(phys, next).free {
        Unlist(next, {}, ok);
        next := End(phys, next);
      }
      assert ok ==> Sound(after) by { assert ok ==> {} + {order[i + 1]} == {order[i + 1]}; }
      ghost var bytes1 := bytes;
      if ok {
        UsedSame(phys, order, bytes);
      }
      if Word(phys, b).prevFree {
        first := Get(phys.prevHdr, b);
        Unlist(first, after, ok);
      }
      assert ok ==> Sound(after + before) by { assert after + {} == after; }
      if ok {
        UsedChain(phys, order, old(bytes), bytes1, bytes);
      }
    }

    /** The block and its free neighbours become one free block. */
    method Fuse(b: nat, ghost i: nat, first: nat, next: nat, ghost ok: bool)
      requires ok ==>
        && i + 1 < |order| && order[i] == b && b in live && Sound(Neighbouring(phys, order, i)) && Owned(phys, order, live, info)
        && AreasOk(phys, order, info, areas)
        && first == order[Lo(phys, order, i)] && Hi(phys, order, i) + 1 < |order| && next == order[Hi(phys, order, i) + 1]
      requires !ok ==> first + BHDR_OVERHEAD <= next
      modifies this`phys, this`bytes, this`order, this`live
      ensures first + BHDR_OVERHEAD <= next && phys == Merged(old(phys), first, next, true)
      ensures ok ==>
        && Sound({first}) && Owned(phys, order, live, info) && AreasOk(phys, order, info, areas)
        && live == old(live) - {b} && first in order && IsFree(phys, first) && Size(phys, first) >= Size(old(phys), b)
        && ClientsKept(live, old(phys), phys, old(bytes), bytes)
      ensures !ok ==> order == old(order)
    {
      hide HeapOk, Owned, ClientsKept, AreasOk, Headers, Merged, Cut;
      ghost var lo: nat, hi: nat := i, i;
      if ok {
        lo, hi := Lo(phys, order, i), Hi(phys, order, i);
        FreeMergeHeap(State(), base, order, lists, live, info, i);
        FreeMergeOwned(State(), base, order, lists, live, info, i, bytes);
        FreeMergeAreas(State(), base, order, lists, live, info, i, areas);
        FreeSizeOf(State(), base, order, lists, live, info, i);
      }
      phys := Merged(phys, first, next, true);
      bytes := Headers(bytes, first, next);
      if ok {
        order := Cut(order, lo, hi);
        live := live - {b};
      }
    }

    /** Gives back what a block has beyond `n` bytes, if that makes a block of its own.  The next block is in
        use. */
    method Trim(b: nat, n: nat, ghost i: nat)
      requires Valid() && b in live && i + 1 < |order| && order[i] == b && !IsFree(phys, order[i + 1])
      requires n % 16 == 0 && MIN_BLOCK_SIZE <= n <= Size(phys, b)
      modifies this
      ensures Valid() && base == old(base) && info == old(info) && areas == old(areas) && live == old(live)
      ensures n <= Size(phys, b) < n + 32
      ensures ClientsKept(live - {b}, old(phys), phys, old(bytes), bytes)
      ensures SameBytes(old(bytes), bytes, Buffer(b), Buffer(b) + n)
    {
      hide HeapOk, Owned, UsedKept, ClientsKept, SameBytes, Splitting, Inserted, Split, AreasOk;
      ghost var others: set<nat> := live - {b};
      if Size(phys, b) - n >= 32 {
        var next: nat, rest: nat := End(phys, b), b + BHDR_OVERHEAD + n;
        SplitAll(State(), base, order, lists, live, info, i, n, bytes);
        SplitAllAreas(State(), base, order, lists, live, info, areas, i, n);
        SplitBlock(b, n, next, i);
        ghost var bytes1 := bytes;
        InsertBlock(rest, {rest}, true);
        assert {rest} - {rest} == {};
        OwnedUsed(phys, order, live, info);
        UsedClients(live, phys, order, bytes1, bytes);
        SomeClients(live, b, phys, bytes1, bytes);
        ClientsChain(others, old(phys), phys, phys, old(bytes), bytes1, bytes);
        BytesChain(old(bytes), bytes1, bytes, Buffer(b), Buffer(b) + n);
      } else {
        NothingChanged(others, phys, bytes, Buffer(b), Buffer(b) + n);
      }
    }

    method SplitBlock(b: nat, n: nat, next: nat, ghost i: nat)
      requires i < |order| && b + BHDR_OVERHEAD + n + BHDR_OVERHEAD <= next
      modifies this`phys, this`bytes, this`order
      ensures phys == Split(old(phys), b, n, next) && order == Inserted(old(order), i, b + BHDR_OVERHEAD + n)
      ensures bytes == Splitting(old(bytes), b, n, next)
    {
      phys := Split(phys, b, n, next);
      order := Inserted(order, i, b + BHDR_OVERHEAD + n);
      bytes := Splitting(bytes, b, n, next);
    }

    // -------------------------------------------------------------- growing

    /** Adds an area to the heap, which merges with those it is side by side with.  The heap stays in order exactly
        when the new area does not tear it; then there is a free block at least as large as the area's. */
    method AddNewArea(area: nat, size: nat, ghost p: nat)
      requires Valid() && Offered(area, size, p) && size >= 80
      modifies this
      ensures base == old(base)
      ensures var a := Area(area, AreaEnd(area, size)); areas == [Whole(old(areas), a)] + Others(old(areas), a)
      ensures Valid() <==> !Tears(old(phys), old(areas), Area(area, AreaEnd(area, size)))
      ensures Tears(old(phys), old(areas), Area(area, AreaEnd(area, size))) ==>
        exists x :: x in order && Torn(phys, x) && End(phys, x) == Middle(old(areas), Area(area, AreaEnd(area, size)))
      ensures Valid() && areas[0].end == AreaEnd(area, size) ==> Word(phys, areas[0].end).prevFree
      ensures Valid() ==> live == old(live) && ClientsKept(live, old(phys), phys, old(bytes), bytes)
      ensures Valid() ==> HasFree(phys, order, AreaBlock(size))
    {
      hide Growing, HeapOk, Owned, AreasOk, ClientsKept, Passed, Laid, AreaBytes, With3, AreaBlock, HasFree, Tears;
      ghost var clients, a := live, Area(area, AreaEnd(area, size));
      var b0: nat := area + BHDR_OVERHEAD + 16;
      var lb0: nat := b0 + BHDR_OVERHEAD + AreaBlock(size);
      LaidGrowing(State(), base, order, lists, live, info, areas, p, area, size, bytes);
      LaidTears(State(), base, order, lists, info, areas, p, area, size);
      ProcessArea(area, size, b0, lb0, p);
      ghost var phys1, bytes1 := phys, bytes;
      var ib1, b1, lb1;
      ghost var h;
      ib1, b1, lb1, h := MergeAreas(area, b0, lb0);
      ClientsChain(clients, old(phys), phys1, h, old(bytes), bytes1, bytes);
      ghost var bytes2, ok := bytes, !Tears(old(phys), old(areas), a);
      InsertArea(ib1, b1, lb1, h, ok);
      if ok {
        SmallerFree(phys, order, Size(h, b1), AreaBlock(size));
        ClientsChain(clients, old(phys), h, phys, old(bytes), bytes2, bytes);
      }
    }

    /** Merges the new area with those next to it, in the order of the list.  The headers are those of a heap that
        is in order, `h`, unless the area tears it: then block `b0` does not know that the one before it is free. */
    method MergeAreas(ib: nat, b: nat, lb: nat) returns (ib0: nat, b0: nat, lb0: nat, ghost h: Phys)
      requires Growing(State(), base, order, lists, live, info, areas, ib, b, lb)
      requires b == ib + 2 * BHDR_OVERHEAD && ib < lb == End(phys, b) && !Word(phys, b).prevFree
      modifies this`phys, this`bytes, this`order, this`live, this`info, this`areas
      ensures Growing(State().(phys := h), base, order, lists, live, info, areas, ib0, b0, lb0) && Passed(areas, |areas|, ib0, lb0)
      ensures phys == if Tears(old(phys), old(areas), Area(ib, lb)) then Unmarked(h, b0) else h
      ensures Tears(old(phys), old(areas), Area(ib, lb)) ==> Word(h, b0).prevFree
      ensures live - {b0} == old(live) - {b} && Size(h, b0) >= Size(old(phys), b)
      ensures ClientsKept(live - {b0}, old(phys), h, old(bytes), bytes)
      ensures areas == Others(old(areas), Area(ib, lb)) && Area(ib0, lb0) == Whole(old(areas), Area(ib, lb))
      ensures b0 == Middle(old(areas), Area(ib, lb)) && (lb0 == lb ==> End(h, b0) == lb)
    {
      hide Growing, ClientsKept, Passed, Removed, Merging, SameMarks, Tears, Separate;
      ib0, b0, lb0, h := ib, b, lb, phys;
      ghost var clients, olds, a, t: nat := live - {b}, areas, Area(ib, lb), 0;
      NothingChanged(clients, phys, bytes, 0, 0);
      NothingMerged(State(), base, order, lists, live, info, areas, ib, b, lb);
      var j: nat := 0;
      while j < |areas|
        invariant j <= |areas| && Growing(State().(phys := h), base, order, lists, live, info, areas, ib0, b0, lb0)
        invariant live - {b0} == clients && Size(h, b0) >= Size(old(phys), b)
        invariant ClientsKept(clients, old(phys), h, old(bytes), bytes) && SameMarks(old(phys), h)
        invariant lb <= lb0 && (lb0 == lb ==> End(h, b0) == lb)
        invariant Passed(areas, j, ib0, lb0) && Merging(olds, a, t, areas, j, ib0, b0, lb0)
        invariant t <= |olds| && phys == if Tears(old(phys), olds[..t], a) then Unmarked(h, b0) else h
        decreases |areas| - j
      {
        ghost var h1, bytes1 := h, bytes;
        if areas[j].ib == lb0 + BHDR_OVERHEAD {
          MergingAbove(olds, a, t, areas, j, ib0, b0, lb0);
          TearsAbove(old(phys), h, olds, a, t, b0);
          lb0, h := JoinAbove(j, ib0, b0, lb0, h);
          ClientsChain(clients, old(phys), h1, h, old(bytes), bytes1, bytes);
        } else if areas[j].end + BHDR_OVERHEAD == ib0 {
          MergingBelow(olds, a, t, areas, j, ib0, b0, lb0);
          TearsBelow(old(phys), olds, a, t);
          ib0, b0, h := JoinBelow(j, ib0, b0, lb0);
          ClientsChain(clients, old(phys), h1, h, old(bytes), bytes1, bytes);
        } else {
          NextPassed(areas, j, ib0, lb0);
          MergingPast(olds, a, t, areas, j, ib0, b0, lb0);
          TearsPast(old(phys), olds, a, t);
          j := j + 1;
        }
        SameMarksChain(old(phys), h1, h);
        t := t + 1;
      }
      MergingEnd(olds, a, t, areas, j, ib0, b0, lb0);
      TearsEnd(old(phys), h, olds, a, b0);
    }

    /** The area goes on the list, and its block is freed. */
    method InsertArea(ib0: nat, b0: nat, lb0: nat, ghost h: Phys, ghost ok: bool)
      requires Growing(State().(phys := h), base, order, lists, live, info, areas, ib0, b0, lb0) && Passed(areas, |areas|, ib0, lb0)
      requires phys == if ok then h else Unmarked(h, b0)
      requires !ok ==> Word(h, b0).prevFree
      modifies this
      ensures base == old(base) && info == old(info) && areas == [Area(ib0, lb0)] + old(areas)
      ensures ok ==> Valid() && live == old(live) - {b0} && ClientsKept(live, h, phys, old(bytes), bytes)
      ensures ok ==> HasFree(phys, order, Size(h, b0))
      ensures ok && End(h, b0) == lb0 ==> Word(phys, lb0).prevFree
      ensures !ok ==> !Valid() && exists x :: x in order && Torn(phys, x) && End(phys, x) == b0
    {
      hide HeapOk, Owned, AreasOk, ClientsKept, Passed, Frontier, HasFree, Freeable, Torn;
      ListedMore(h, order, live, info, areas, ib0, b0, lb0);
      FrontierFirst(h, order, live, info, areas, ib0, b0, lb0);
      SentinelUsed(State().(phys := h), base, order, lists, live, info, areas, ib0, b0, lb0);
      if End(h, b0) == lb0 {
        EndMarked(h, b0, lb0);
      }
      OwnedUsed(h, order, live, info);
      ghost var i := IndexOf(order, b0);
      if !ok {
        TornFreeable(State().(phys := h), base, order, lists, live, info, i);
        Tearing(State().(phys := h), base, order, lists, live, info, i);
      }
      areas := [Area(ib0, lb0)] + areas;
      FreeBlock(b0, i, ok);
      if !ok {
        NotTornHeap(State(), base, order, lists, order[i - 1]);
      }
    }

    method ProcessArea(area: nat, size: nat, b0: nat, lb: nat, ghost p: nat)
      requires size >= 80 && p <= |order|
      modifies this`phys, this`bytes, this`order, this`live, this`info
      ensures phys == Laid(old(phys), area, size) && bytes == AreaBytes(old(bytes), area, size)
      ensures order == With3(old(order), p, area, b0, lb) && live == old(live) + {b0} && info == old(info) + {area}
    {
      phys := Laid(phys, area, size);
      bytes := AreaBytes(bytes, area, size);
      order := With3(order, p, area, b0, lb);
      live := live + {b0};
      info := info + {area};
    }

    /** The next area starts where the new one ends: block `b0` takes in the sentinel between them and the
        description of that area.  Its header says that the block before it is used, whether it is or not. */
    method JoinAbove(j: nat, ib0: nat, b0: nat, lb0: nat, ghost h: Phys) returns (lb1: nat, ghost h': Phys)
      requires Growing(State().(phys := h), base, order, lists, live, info, areas, ib0, b0, lb0)
      requires j < |areas| && areas[j].ib == lb0 + BHDR_OVERHEAD && Passed(areas, j, ib0, lb0)
      requires phys == h || phys == Unmarked(h, b0)
      modifies this`phys, this`bytes, this`order, this`info, this`areas
      ensures Growing(State().(phys := h'), base, order, lists, live, info, areas, ib0, b0, lb1)
      ensures phys == Unmarked(h', b0) && SameMarks(h, h') && (!Word(h, b0).prevFree ==> phys == h')
      ensures areas == Removed(old(areas), j) && lb1 == old(areas)[j].end && Passed(areas, j, ib0, lb1) && Size(h', b0) >= Size(h, b0)
      ensures ClientsKept(live - {b0}, h, h', old(bytes), bytes)
    {
      hide Growing, ClientsKept, Headers, Removed, Passed, Cut;
      ghost var q := GrowAbove(State().(phys := h), base, order, lists, live, info, areas, ib0, b0, lb0, j, bytes);
      PassedAbove(State().(phys := h), base, order, lists, live, info, areas, ib0, b0, lb0, j);
      MergedSizes(h, b0, areas[j].ib + 32);
      var ib1 := areas[j].ib;
      lb1 := areas[j].end;
      h' := Merged(h, b0, ib1 + 32, false);
      areas := Removed(areas, j);
      phys := Unmarked(Merged(phys, b0, ib1 + 32, false), b0);
      bytes := Headers(bytes, b0, ib1 + 32);
      order := Cut(order, q, q + 2);
      info := info - {ib1};
    }

    /** The new area starts where another ends: the sentinel of that one takes in the new description and block
        `b0`.  It keeps what it knows about the block before it. */
    method JoinBelow(j: nat, ib0: nat, b0: nat, lb0: nat) returns (ib1: nat, lb1: nat, ghost h': Phys)
      requires Growing(State(), base, order, lists, live, info, areas, ib0, b0, lb0)
      requires j < |areas| && areas[j].end + BHDR_OVERHEAD == ib0 && Passed(areas, j, ib0, lb0)
      modifies this`phys, this`bytes, this`order, this`live, this`info, this`areas
      ensures h' == phys && SameMarks(old(phys), h')
      ensures Growing(State(), base, order, lists, live, info, areas, ib1, lb1, lb0)
      ensures areas == Removed(old(areas), j) && ib1 == old(areas)[j].ib && lb1 == old(areas)[j].end && Passed(areas, j, ib1, lb0)
      ensures live - {lb1} == old(live) - {b0} && Size(phys, lb1) >= Size(old(phys), b0) && End(phys, lb1) == End(old(phys), b0)
      ensures ClientsKept(live - {lb1}, old(phys), phys, old(bytes), bytes)
    {
      hide Growing, ClientsKept, Merged, Headers, Removed, Passed, Cut, SameMarks;
      ghost var q := GrowBelow(State(), base, order, lists, live, info, areas, ib0, b0, lb0, j, bytes);
      PassedBelow(State(), base, order, lists, live, info, areas, ib0, b0, lb0, j);
      MergedSizes(phys, areas[j].end, End(phys, b0));
      ib1, lb1 := areas[j].ib, areas[j].end;
      var next := End(phys, b0);
      areas := Removed(areas, j);
      phys := Merged(phys, lb1, next, false);
      h' := phys;
      bytes := Headers(bytes, lb1, next);
      order := Cut(order, q, q + 2);
      live := live - {b0} + {lb1};
      info := info - {ib0};
      assert live - {lb1} == old(live) - {b0};
    }

    // -------------------------------------------------------------- malloc

    /** Looks for a free block for a request; there is none exactly when every free block is smaller than the
        rounded request. */
    method FindBlock(r: nat) returns (n: nat, b: nat, fl: nat, sl: nat)
      requires Valid() && r % 16 == 0 && r < MAX_SIZE && Rounded(r) < MAX_SIZE
      ensures n == Rounded(r)
      ensures b == 0 <==> NoFit(phys, order, n)
      ensures b != 0 ==> b % 16 == 0 && b in order && IsFree(phys, b) && n <= Size(phys, b) && fl < REAL_FLI && sl < MAX_SLI && b in lists[ClassIndex(fl, sl)]
    {
      n, fl, sl := MappingSearch(r);
      ghost var c := ClassIndex(fl, sl);
      assert BitsOk(index);
      b, fl, sl := FindSuitableBlock(index, fl, sl);
      SearchResult(State(), base, order, lists, n, c, b, ClassIndex(fl, sl));
      assert b != 0 ==> BlockOk(phys, base, b);
    }

    /** Allocates a block.  When no free block is large enough the system is asked for another area; it may have
        none.  The block that is returned was nobody's, and wastes less than 32 bytes over the rounded request.
        The search after growing always succeeds. */
    method MallocEx(size: nat, area: Option<nat>, ghost p: nat) returns (ptr: nat)
      requires Valid() && Request(size) < MAX_SIZE && Rounded(Request(size)) < MAX_SIZE
      requires area.Some? ==> Suits(area, GrowBy(Rounded(Request(size))), p)
      modifies this
      ensures Valid() && base == old(base) && ClientsKept(old(live), old(phys), phys, old(bytes), bytes)
      ensures ptr == 0 <==> area.None? && NoFit(old(phys), old(order), Rounded(Request(size)))
      ensures ptr == 0 ==> live == old(live) && phys == old(phys) && order == old(order) && info == old(info) && areas == old(areas)
      ensures AtBreak(old(areas), area) ==> Extended(old(areas), areas, GrowBy(Rounded(Request(size))))
      ensures ptr != 0 ==>
        && ptr >= BHDR_OVERHEAD && var b := ptr - BHDR_OVERHEAD;
        && b !in old(live) && live == old(live) + {b} && ptr % 16 == 0
        && Rounded(Request(size)) <= Size(phys, b) < Rounded(Request(size)) + 32
    {
      RequestAligned(size);
      hide HeapOk, Owned, AreasOk, ClientsKept, Rounded, Gap, GrowBy, AreaBlock, AreaEnd, Tears;
      var n, b, fl, sl := FindBlock(Request(size));
      NothingChanged(live, phys, bytes, 0, 0);
      if b == 0 {
        match area
        case None =>
          return 0;
        case Some(a) =>
          GrowByFits(n);
          BreakNeverTears(phys, areas, area, GrowBy(n));
          AddNewArea(a, GrowBy(n), p);
          if AtBreak(old(areas), area) {
            GrownAtBreak(old(phys), old(order), old(info), old(areas), n);
          }
          FreeFits(phys, order, AreaBlock(GrowBy(n)), n);
          RoundingIsIdempotent(Request(size));
          n, b, fl, sl := FindBlock(n);
      }
      ghost var phys1, bytes1 := phys, bytes;
      ghost var i := IndexOf(order, b);
      ptr := TakeBlock(b, fl, sl, n, i);
      ClientsChain(old(live), old(phys), phys1, phys, old(bytes), bytes1, bytes);
    }

    /** The system's answer when it is asked for an area of `size` bytes: it lies where nothing else does. */
    ghost predicate Offered(area: nat, size: nat, p: nat)
      reads this
    {
      Gap(phys, order, p, area, size) && area > 0 && area % 16 == 0 && base <= area && area + size < base + MAX_SIZE
    }

    /** An area at the break suits as it is; another one must not tear the heap. */
    ghost predicate Suits(area: Option<nat>, size: nat, p: nat)
      requires area.Some? && size >= 80
      reads this
    {
      Offered(area.value, size, p) && (AtBreak(areas, area) || !Tears(phys, areas, Area(area.value, AreaEnd(area.value, size))))
    }

    /** Takes a free block that is large enough, and gives back what is not needed of it. */
    method TakeBlock(b: nat, fl: nat, sl: nat, n: nat, ghost i: nat) returns (ptr: nat)
      requires Valid() && i < |order| && order[i] == b && IsFree(phys, b) && fl < REAL_FLI && sl < MAX_SLI && b in lists[ClassIndex(fl, sl)]
      requires n % 16 == 0 && MIN_BLOCK_SIZE <= n <= Size(phys, b)
      modifies this
      ensures Valid() && base == old(base) && info == old(info) && areas == old(areas)
      ensures ClientsKept(old(live), old(phys), phys, old(bytes), bytes)
      ensures ptr == b + BHDR_OVERHEAD && b !in old(live) && live == old(live) + {b} && n <= Size(phys, b) < n + 32
    {
      hide HeapOk, Owned, UsedKept, ClientsKept, SameBytes, Merged, Headers, AreasOk;
      ExtractBlock(b, fl, sl, {}, true);
      assert {} + {b} == {b};
      ghost var bytes1 := bytes;
      UseAll(State(), base, order, lists, live, info, i, bytes);
      UseAreas(State(), base, order, lists, live, info, areas, i);
      OwnedUsed(phys, order, live, info);
      UsedClients(live, phys, order, old(bytes), bytes1);
      UseBlock(b, End(phys, b));
      ghost var bytes2 := bytes;
      ClientsChain(old(live), old(phys), old(phys), phys, old(bytes), bytes1, bytes2);
      live := live + {b};
      ghost var phys2 := phys;
      Trim(b, n, i);
      assert old(live) + {b} - {b} == old(live);
      ClientsChain(old(live), old(phys), phys2, phys, old(bytes), bytes2, bytes);
      ptr := b + BHDR_OVERHEAD;
    }

    method UseBlock(b: nat, next: nat)
      requires b + BHDR_OVERHEAD <= next
      modifies this`phys, this`bytes
      ensures phys == Merged(old(phys), b, next, false) && bytes == Headers(old(bytes), b, next)
    {
      phys := Merged(phys, b, next, false);
      bytes := Headers(bytes, b, next);
    }

    // -------------------------------------------------------------- realloc

    /** A used block takes in the free block behind it. */
    method Absorb(b: nat, ghost i: nat)
      requires Valid() && b in live && i + 1 < |order| && order[i] == b && IsFree(phys, order[i + 1]) && order[i + 1] == End(phys, b)
      modifies this
      ensures Valid() && base == old(base) && info == old(info) && areas == old(areas) && live == old(live)
      ensures i + 1 < |order| && order[i] == b && !IsFree(phys, order[i + 1])
      ensures Size(phys, b) == Size(old(phys), b) + BHDR_OVERHEAD + Size(old(phys), End(old(phys), b))
      ensures ClientsKept(live - {b}, old(phys), phys, old(bytes), bytes)
      ensures SameBytes(old(bytes), bytes, Buffer(b), End(old(phys), b))
    {
      OwnedUsed(phys, order, live, info);
      hide HeapOk, Owned, UsedKept, ClientsKept, SameBytes, AreasOk;
      var next := End(phys, b);
      Unlist(next, {}, true);
      assert {} + {next} == {next};
      ghost var bytes1 := bytes;
      UsedClients(live, phys, order, old(bytes), bytes1);
      ClientKept(live, phys, phys, old(bytes), bytes1, b);
      TakeInFree(b, next, i);
      ClientsChain(live - {b}, old(phys), old(phys), phys, old(bytes), bytes1, bytes);
      BytesChain(old(bytes), bytes1, bytes, Buffer(b), End(old(phys), b));
    }

    method TakeInFree(b: nat, next: nat, ghost i: nat)
      requires Sound({next}) && Owned(phys, order, live, info) && AreasOk(phys, order, info, areas)
      requires b in live && i + 1 < |order| && order[i] == b && IsFree(phys, next) && order[i + 1] == next
      modifies this`phys, this`bytes, this`order
      ensures Sound({}) && Owned(phys, order, live, info) && AreasOk(phys, order, info, areas)
      ensures i + 1 < |order| && order[i] == b && !IsFree(phys, order[i + 1])
      ensures Size(phys, b) == Size(old(phys), b) + BHDR_OVERHEAD + Size(old(phys), next)
      ensures ClientsKept(live - {b}, old(phys), phys, old(bytes), bytes)
      ensures SameBytes(old(bytes), bytes, Buffer(b), End(old(phys), b))
    {
      hide HeapOk, Owned, ClientsKept, SameBytes, Merged, Headers, AreasOk, Cut;
      AbsorbAll(State(), base, order, lists, live, info, areas, i);
      AbsorbSeen(State(), base, order, lists, {next}, live, info, i, bytes);
      TakeIn(b, End(phys, next), i);
    }

    method TakeIn(b: nat, next: nat, ghost i: nat)
      requires b + BHDR_OVERHEAD <= next && i + 1 < |order|
      modifies this`phys, this`bytes, this`order
      ensures phys == Merged(old(phys), b, next, false) && bytes == Headers(old(bytes), b, next) && order == Cut(old(order), i, i + 1)
    {
      phys := Merged(phys, b, next, false);
      bytes := Headers(bytes, b, next);
      order := Cut(order, i, i + 1);
    }

    /** Gives a block `n` bytes without moving it. */
    method ResizeInPlace(b: nat, n: nat, ghost i: nat)
      requires Valid() && b in live && i + 1 < |order| && order[i] == b && order[i + 1] == End(phys, b)
      requires n % 16 == 0 && MIN_BLOCK_SIZE <= n && FitsInPlace(phys, b, n)
      modifies this
      ensures Valid() && base == old(base) && info == old(info) && areas == old(areas) && live == old(live)
      ensures n <= Size(phys, b) < n + 32
      ensures ClientsKept(live - {b}, old(phys), phys, old(bytes), bytes)
      ensures Carried(old(bytes), Buffer(b), bytes, Buffer(b), Min(Size(old(phys), b), n))
    {
      hide HeapOk, Owned, ClientsKept, SameBytes, AreasOk, Carried;
      ghost var keep: nat := Min(Size(phys, b), n);
      NothingChanged(live - {b}, phys, bytes, Buffer(b), End(phys, b));
      if Word(phys, End(phys, b)).free {
        Absorb(b, i);
      }
      ghost var phys1, bytes1 := phys, bytes;
      Trim(b, n, i);
      ClientsChain(live - {b}, old(phys), phys1, phys, old(bytes), bytes1, bytes);
      SameFewer(old(bytes), bytes1, Buffer(b), Buffer(b) + keep, End(old(phys), b));
      SameFewer(bytes1, bytes, Buffer(b), Buffer(b) + keep, Buffer(b) + n);
      BytesChain(old(bytes), bytes1, bytes, Buffer(b), Buffer(b) + keep);
      Stayed(old(bytes), bytes, Buffer(b), keep);
    }

    /** Gives a client another block of at least `n` bytes, with what is in the one it has, which is freed.  If
        there is no such block, nothing changes. */
    method MoveBlock(b: nat, n: nat, area: Option<nat>, ghost p: nat) returns (ptr: nat)
      requires Valid() && b in live && n % 16 == 0 && MIN_BLOCK_SIZE <= n && n < MAX_SIZE && Rounded(n) < MAX_SIZE
      requires area.Some? ==> Suits(area, GrowBy(Rounded(n)), p)
      modifies this
      ensures Valid() && base == old(base) && ClientsKept(old(live) - {b}, old(phys), phys, old(bytes), bytes)
      ensures AtBreak(old(areas), area) ==> Extended(old(areas), areas, GrowBy(Rounded(n)))
      ensures ptr == 0 <==> area.None? && NoFit(old(phys), old(order), Rounded(n))
      ensures ptr == 0 ==> live == old(live) && phys == old(phys) && order == old(order) && ClientsKept(old(live), old(phys), phys, old(bytes), bytes)
      ensures ptr != 0 ==>
        && ptr >= BHDR_OVERHEAD && var b' := ptr - BHDR_OVERHEAD;
        && b' !in old(live) && live == old(live) - {b} + {b'} && ptr % 16 == 0 && n <= Size(phys, b')
        && Carried(old(bytes), Buffer(b), bytes, ptr, Min(Size(old(phys), b), n))
    {
      hide HeapOk, Owned, ClientsKept, SameBytes, AreasOk, Carried, Rounded, GrowBy, Request, Min, NoFit, Suits, Extended;
      RequestAgain(n);
      ptr := MallocEx(n, area, p);
      FewerClients(old(live), old(live) - {b}, old(phys), phys, old(bytes), bytes);
      if ptr != 0 {
        RoundingIsSmall(n);
        ghost var phys1, bytes1 := phys, bytes;
        CarryOver(b, ptr, n);
        MoveSeen(old(live), b, ptr - BHDR_OVERHEAD, n, old(phys), phys1, phys, old(bytes), bytes1, bytes);
      }
    }

    /** Copies a block into a new one, and frees it. */
    method CarryOver(b: nat, ptr: nat, n: nat)
      requires Valid() && b in live && ptr >= BHDR_OVERHEAD && ptr - BHDR_OVERHEAD in live && ptr - BHDR_OVERHEAD != b
      requires n <= Size(phys, ptr - BHDR_OVERHEAD)
      modifies this
      ensures Valid() && base == old(base) && areas == old(areas) && live == old(live) - {b}
      ensures Size(phys, ptr - BHDR_OVERHEAD) == Size(old(phys), ptr - BHDR_OVERHEAD)
      ensures ClientsKept(live - {ptr - BHDR_OVERHEAD}, old(phys), phys, old(bytes), bytes)
      ensures Carried(old(bytes), Buffer(b), bytes, ptr, Min(Size(old(phys), b), n))
    {
      hide HeapOk, Owned, ClientsKept, SameBytes, AreasOk, Carried;
      ghost var b' := ptr - BHDR_OVERHEAD;
      var size := if Size(phys, b) > n then n else Size(phys, b);
      CopyInto(b, ptr, size);
      ghost var bytes1 := bytes;
      FreeEx(Buffer(b));
      FewerClients(old(live) - {b'}, live - {b'}, old(phys), old(phys), old(bytes), bytes1);
      ClientKept(live, old(phys), phys, bytes1, bytes, b');
      ClientsChain(live - {b'}, old(phys), old(phys), phys, old(bytes), bytes1, bytes);
      SameFewer(bytes1, bytes, ptr, ptr + size, End(old(phys), b'));
      CarriedFurther(old(bytes), bytes1, bytes, Buffer(b), ptr, size);
    }

    method CopyInto(b: nat, ptr: nat, n: nat)
      requires Valid() && ptr >= BHDR_OVERHEAD && ptr - BHDR_OVERHEAD in live && n <= Size(phys, ptr - BHDR_OVERHEAD)
      modifies this`bytes
      ensures ClientsKept(live - {ptr - BHDR_OVERHEAD}, phys, phys, old(bytes), bytes)
      ensures Carried(old(bytes), Buffer(b), bytes, ptr, n)
    {
      OwnedUsed(phys, order, live, info);
      hide Owned, AreasOk, ListsOk, BitsOk, Linked, Carried, ClientsKept;
      CopyClients(phys, base, order, live - {ptr - BHDR_OVERHEAD}, bytes, Buffer(b), ptr - BHDR_OVERHEAD, n);
      CopyCarries(bytes, Buffer(b), ptr, n);
      bytes := Copied(bytes, Buffer(b), ptr, n);
    }

    /** Gives a client a block of at least `size` bytes with what is in the one it has: in place if that block and
        a free one behind it are large enough, else in a new block.  It fails only when neither is possible, and
        then nothing changes.  Null is a block of no bytes, and a block of no bytes is freed. */
    method ReallocEx(ptr: nat, size: nat, area: Option<nat>, ghost p: nat) returns (r: nat)
      requires Valid() && (ptr != 0 ==> ptr >= BHDR_OVERHEAD && ptr - BHDR_OVERHEAD in live)
      requires Request(size) < MAX_SIZE && Rounded(Request(size)) < MAX_SIZE
      requires area.Some? ==> Suits(area, GrowBy(Rounded(Request(size))), p)
      modifies this
      ensures Valid() && base == old(base)
      ensures AtBreak(old(areas), area) ==> Extended(old(areas), areas, GrowBy(Rounded(Request(size))))
      ensures ClientsKept(if ptr == 0 then old(live) else old(live) - {ptr - BHDR_OVERHEAD}, old(phys), phys, old(bytes), bytes)
      ensures r == 0 <==> size == 0 || (area.None? && NoFit(old(phys), old(order), Rounded(Request(size)))
                                        && !(ptr != 0 && FitsInPlace(old(phys), ptr - BHDR_OVERHEAD, Request(size))))
      ensures r == 0 && size > 0 ==> live == old(live) && phys == old(phys) && ClientsKept(live, old(phys), phys, old(bytes), bytes)
      ensures r == 0 && size == 0 ==> live == if ptr == 0 then old(live) else old(live) - {ptr - BHDR_OVERHEAD}
      ensures r != 0 ==>
        && r >= BHDR_OVERHEAD && r - BHDR_OVERHEAD in live && Request(size) <= Size(phys, r - BHDR_OVERHEAD)
        && (r == ptr || r - BHDR_OVERHEAD !in old(live))
        && (ptr != 0 ==> (r == ptr <==> FitsInPlace(old(phys), ptr - BHDR_OVERHEAD, Request(size))))
        && live == (if ptr == 0 then old(live) else old(live) - {ptr - BHDR_OVERHEAD}) + {r - BHDR_OVERHEAD}
      ensures r != 0 && ptr != 0 ==>
        Carried(old(bytes), ptr, bytes, r, Min(Size(old(phys), ptr - BHDR_OVERHEAD), Request(size)))
    {
      hide HeapOk, Owned, ClientsKept, SameBytes, AreasOk, Carried, Rounded, GrowBy, Request, Min, NoFit, Suits;
      RequestAligned(size);
      NothingChanged(live, phys, bytes, 0, 0);
      if ptr == 0 {
        if size > 0 {
          RoundingIsSmall(Request(size));
          r := MallocEx(size, area, p);
        } else {
          r := 0;
        }
      } else if size == 0 {
        FreeEx(ptr);
        r := 0;
      } else {
        r := Resize(ptr - BHDR_OVERHEAD, Request(size), area, p);
      }
    }

    method Resize(b: nat, n: nat, area: Option<nat>, ghost p: nat) returns (ptr: nat)
      requires Valid() && b in live && n % 16 == 0 && MIN_BLOCK_SIZE <= n && n < MAX_SIZE && Rounded(n) < MAX_SIZE
      requires area.Some? ==> Suits(area, GrowBy(Rounded(n)), p)
      modifies this
      ensures Valid() && base == old(base) && ClientsKept(old(live) - {b}, old(phys), phys, old(bytes), bytes)
      ensures AtBreak(old(areas), area) ==> Extended(old(areas), areas, GrowBy(Rounded(n)))
      ensures ptr == 0 <==> area.None? && NoFit(old(phys), old(order), Rounded(n)) && !FitsInPlace(old(phys), b, n)
      ensures ptr == 0 ==> live == old(live) && phys == old(phys) && ClientsKept(old(live), old(phys), phys, old(bytes), bytes)
      ensures ptr != 0 ==>
        && ptr >= BHDR_OVERHEAD && ptr - BHDR_OVERHEAD in live && n <= Size(phys, ptr - BHDR_OVERHEAD)
        && (ptr == Buffer(b) || ptr - BHDR_OVERHEAD !in old(live)) && (ptr == Buffer(b) <==> FitsInPlace(old(phys), b, n))
        && live == old(live) - {b} + {ptr - BHDR_OVERHEAD}
        && Carried(old(bytes), Buffer(b), bytes, ptr, Min(Size(old(phys), b), n))
    {
      hide HeapOk, Owned, ClientsKept, SameBytes, AreasOk, Carried, Rounded, GrowBy, Min, NoFit, Suits;
      ghost var i := Place(phys, base, order, lists, live, info, State(), b);
      PutBack(live, b);
      if n <= Size(phys, b) || (Word(phys, End(phys, b)).free && n <= Size(phys, b) + Size(phys, End(phys, b))) {
        ResizeInPlace(b, n, i);
        ptr := Buffer(b);
      } else {
        ptr := MoveBlock(b, n, area, p);
      }
    }

    /** What the system may give can be told from the list of areas. */
    lemma RoomFor(area: nat, size: nat) returns (p: nat)
      requires Valid() && size > 0 && area > 0 && area % 16 == 0 && base <= area && area + size < base + MAX_SIZE
      requires forall j | 0 <= j < |areas| :: areas[j].end + BHDR_OVERHEAD <= area || area + size <= areas[j].ib
      ensures Offered(area, size, p)
    {
      hide Owned, ListsOk, BitsOk, Linked, PhysOk, AreasOk, Covered, Gap;
      p := Room(phys, base, order, info, areas, area, size);
    }

    // -------------------------------------------------------------- all in one piece

    /** When every client has freed its blocks, a heap of one area is one free block. */
    lemma AllFreed()
      requires Valid() && live == {} && |areas| == 1
      ensures |order| == 3 && order[0] == areas[0].ib && IsFree(phys, order[1]) && order[2] == areas[0].end
    {
      OneFreeBlock(phys, base, order, info, areas);
    }

    /** Memory in one piece is one area, whatever areas it came in. */
    lemma InOnePiece()
      requires Valid() && order != [] && Contiguous(phys, order)
      ensures |areas| == 1
    {
      ContiguousIsOne(phys, base, order, info, areas);
    }

    /** The end of a heap of one area is where the system can always give more. */
    lemma CanGrow(size: nat)
      requires Valid() && |areas| == 1 && Break(areas) + size < base + MAX_SIZE
      ensures Offered(Break(areas), size, |order|)
    {
      hide Owned, ListsOk, BitsOk, Linked, PhysOk, AreasOk, Covered, Gap;
      BreakIsFree(phys, base, order, info, areas, size);
    }
  }

  /** A run that tears a heap: a pool, an area far above it, a small one between them, and then an area that fills the
      gap between those two. */
  method FillTheGap() returns (pool: Pool)
    ensures fresh(pool) && !pool.Valid() && exists x :: x in pool.order && Torn(pool.phys, x)
  {
    hide HeapOk, Owned, AreasOk, Covered, Whole, Others, Tears, Gap, HasFree, Torn;
    pool := new Pool.InitMemoryPool(65536, 10240);
    assert pool.areas == [Area(71808, 75760)];
    AddApart(pool, 105536, 160);
    AddApart(pool, 85536, 160);
    ghost var a := Area(85696, 105520);
    assert Below(pool.areas[0], a) && Above(pool.areas[1], a);
    TearsAt(pool.phys, pool.areas, a, 0, 1);
    ghost var p := pool.RoomFor(85696, 19840);
    pool.AddNewArea(85696, 19840, p);
  }

  /** Adds an area that is side by side with no other. */
  method AddApart(pool: Pool, area: nat, size: nat)
    requires pool.Valid() && size >= 80 && size % 16 == 0
    requires area > 0 && area % 16 == 0 && pool.base <= area && area + size < pool.base + MAX_SIZE
    requires forall j | 0 <= j < |pool.areas| :: pool.areas[j].end + BHDR_OVERHEAD < area || area + size < pool.areas[j].ib
    requires forall j | 0 <= j < |pool.areas| :: pool.areas[j].ib < pool.areas[j].end
    modifies pool
    ensures pool.Valid() && pool.base == old(pool.base)
    ensures pool.areas == [Area(area, area + size - BHDR_OVERHEAD)] + old(pool.areas) && Word(pool.phys, pool.areas[0].end).prevFree
  {
    hide HeapOk, Owned, AreasOk, Covered, Whole, Others, Tears, Gap, HasFree, Torn, ClientsKept;
    StaysApart(pool.phys, pool.areas, Area(area, area + size - BHDR_OVERHEAD));
    ghost var p := pool.RoomFor(area, size);
    pool.AddNewArea(area, size, p);
  }
}
