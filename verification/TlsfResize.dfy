/** Resizing a block of the TLSF allocator: in place, into the free block behind it, or by copying. */
module TlsfResize {
  import opened TlsfMapping
  import opened TlsfLists
  import opened TlsfBlocks
  import opened TlsfHeap
  import opened TlsfClients

  function Min(x: nat, y: nat): nat {
    if x < y then x else y
  }

  /** The block can be given `n` bytes where it is. */
  predicate FitsInPlace(h: Phys, b: nat, n: nat) {
    n <= Size(h, b) || (IsFree(h, End(h, b)) && n <= Size(h, b) + Size(h, End(h, b)))
  }

  lemma AbsorbFacts(h: Phys, base: nat, order: seq<nat>, live: set<nat>, info: set<nat>, i: nat)
    requires PhysOk(h, base, order) && Owned(h, order, live, info) && i + 1 < |order| && order[i] in live && IsFree(h, order[i + 1])
    ensures i + 2 < |order| && order[i + 1] == End(h, order[i]) && order[i + 2] == End(h, order[i + 1]) && !IsFree(h, order[i + 2])
    ensures Sorted(order) && order[i] + BHDR_OVERHEAD < order[i + 2]
    ensures Rest(live, order, i, i + 1) == live - {order[i]} && Rest(info, order, i, i + 1) == info
    ensures order[i] !in info && order[i + 1] !in info && Size(h, order[i]) > 0 && Size(h, order[i + 1]) > 0
    ensures !IsFree(h, order[i]) && forall x | x in live - {order[i]} :: x in order && !Among(order, i, i + 1, x)
  {
    Neighbours(h, base, order, i);
    AllAscending(h, base, order);
    assert BlockOk(h, base, order[i + 1]);
    hide PhysOk, Sorted;
    AmongTwo(order, i, i + 1);
  }

  lemma AmongTwo(order: seq<nat>, i: nat, k: nat)
    requires i + 1 < |order| && k == i + 1
    ensures forall x :: Among(order, i, k, x) <==> x == order[i] || x == order[k]
  {
  }

  lemma AbsorbAreas(h: Phys, order: seq<nat>, info: set<nat>, areas: seq<Area>, i: nat)
    requires AreasOk(h, order, info, areas) && Sorted(order) && i + 2 < |order| && order[i] + BHDR_OVERHEAD < order[i + 2]
    requires Rest(info, order, i, i + 1) == info && order[i] !in info && order[i + 1] !in info
    requires Size(h, order[i]) > 0 && Size(h, order[i + 1]) > 0
    ensures AreasOk(Merged(h, order[i], order[i + 2], false), Cut(order, i, i + 1), info, areas)
  {
    AmongTwo(order, i, i + 1);
    hide Sorted, Starts, Merged, Cut;
    assert forall j | 0 <= j < |areas| :: !Among(order, i, i + 1, areas[j].ib) && !Among(order, i, i + 1, areas[j].end);
    hide Listed;
    MergeStarts(h, order, info, i, i + 1, false);
    MergeListed(h, order, info, areas, i, i + 1, false);
  }

  /** A used block takes in the free one behind it, which is off its list. */
  lemma AbsorbAll(k: Heap, base: nat, order: seq<nat>, lists: seq<seq<nat>>, live: set<nat>, info: set<nat>, areas: seq<Area>,
                  i: nat)
    requires i + 1 < |order| && order[i] in live && IsFree(k.phys, order[i + 1])
    requires HeapOk(k, base, order, lists, {order[i + 1]}) && Owned(k.phys, order, live, info) && AreasOk(k.phys, order, info, areas)
    ensures i + 2 < |order| && order[i] + BHDR_OVERHEAD < order[i + 2]
    ensures var h', order' := Merged(k.phys, order[i], order[i + 2], false), Cut(order, i, i + 1);
            HeapOk(k.(phys := h'), base, order', lists, {}) && Owned(h', order', live, info) && AreasOk(h', order', info, areas)
  {
    AbsorbFacts(k.phys, base, order, live, info, i);
    PutBack(live, order[i]);
    OnlyHole(order, k.phys, i);
    hide PhysOk, ListsOk, BitsOk, Linked, Owned, Starts, Listed, Sorted, Merged, Rest;
    MergeHeap(k, base, order, lists, {order[i + 1]}, i, i + 1, false);
    MergeOwned(k.phys, base, order, live, info, i, i + 1, false);
    AbsorbAreas(k.phys, order, info, areas, i);
  }

  /** What the clients see of it. */
  lemma AbsorbSeen(k: Heap, base: nat, order: seq<nat>, lists: seq<seq<nat>>, hole: set<nat>, live: set<nat>, info: set<nat>, i: nat, m: Bytes)
    requires i + 1 < |order| && order[i] in live && IsFree(k.phys, order[i + 1])
    requires HeapOk(k, base, order, lists, hole) && Owned(k.phys, order, live, info)
    ensures i + 2 < |order| && order[i] + BHDR_OVERHEAD < order[i + 2] && order[i + 2] == End(k.phys, order[i + 1])
    ensures var h', order' := Merged(k.phys, order[i], order[i + 2], false), Cut(order, i, i + 1);
            && order'[i] == order[i] && i + 1 < |order'| && !IsFree(h', order'[i + 1])
            && Size(h', order[i]) == Size(k.phys, order[i]) + BHDR_OVERHEAD + Size(k.phys, order[i + 1])
    ensures var h', m' := Merged(k.phys, order[i], order[i + 2], false), Headers(m, order[i], order[i + 2]);
            ClientsKept(live - {order[i]}, k.phys, h', m, m') && SameBytes(m, m', Buffer(order[i]), End(k.phys, order[i]))
  {
    AbsorbFacts(k.phys, base, order, live, info, i);
    MergeClients(k.phys, base, order, i, i + 1, false, live - {order[i]}, m);
    hide HeapOk, Owned, Sorted, Rest, ClientsKept;
  }

  lemma OnlyHole(order: seq<nat>, h: Phys, i: nat)
    requires Sorted(order) && i + 1 < |order| && !IsFree(h, order[i])
    ensures forall m | 0 <= m < |order| ::
      if i <= m <= i + 1 then IsFree(h, order[m]) ==> order[m] in {order[i + 1]} else order[m] !in {order[i + 1]}
  {
  }

  // ---------------------------------------------------------------- copying

  /** Memory after `n` bytes have been copied; a byte that is part of a header or a link is not a value. */
  function Copied(m: Bytes, from: nat, to: nat, n: nat): Bytes {
    if n == 0 then m
    else
      var m' := Copied(m, from, to, n - 1);
      if from + n - 1 in m then m'[to + n - 1 := m[from + n - 1]] else m' - {to + n - 1}
  }

  predicate SameAt(m: Bytes, from: nat, m': Bytes, to: nat, k: nat) {
    (from + k in m <==> to + k in m') && (from + k in m ==> m[from + k] == m'[to + k])
  }

  /** The `n` bytes at `from` are those at `to`. */
  ghost predicate Carried(m: Bytes, from: nat, m': Bytes, to: nat, n: nat) {
    forall k | 0 <= k < n :: SameAt(m, from, m', to, k)
  }

  lemma {:induction false} CopiedAt(m: Bytes, from: nat, to: nat, n: nat, x: nat)
    ensures var m' := Copied(m, from, to, n);
            if to <= x < to + n then SameAt(m, from, m', to, x - to) else SameByte(m, m', x)
  {
    if n == 0 {
    } else {
      CopiedAt(m, from, to, n - 1, x);
    }
  }

  lemma CopyCarries(m: Bytes, from: nat, to: nat, n: nat)
    ensures Carried(m, from, Copied(m, from, to, n), to, n)
  {
    forall k | 0 <= k < n ensures SameAt(m, from, Copied(m, from, to, n), to, k) {
      CopiedAt(m, from, to, n, to + k);
    }
  }

  /** Copying into one block changes nobody else's bytes. */
  lemma CopyClients(h: Phys, base: nat, order: seq<nat>, clients: set<nat>, m: Bytes, from: nat, b: nat, n: nat)
    requires PhysOk(h, base, order) && b in order && b !in clients && n <= Size(h, b)
    requires forall x | x in clients :: x in order
    ensures ClientsKept(clients, h, h, m, Copied(m, from, Buffer(b), n))
  {
    forall x | x in clients ensures SameBytes(m, Copied(m, from, Buffer(b), n), Buffer(x), End(h, x)) {
      var i: nat :| i < |order| && order[i] == b;
      var j: nat :| j < |order| && order[j] == x;
      Disjoint(h, base, order, i, j);
      forall y | Buffer(x) <= y < End(h, x) ensures SameByte(m, Copied(m, from, Buffer(b), n), y) {
        CopiedAt(m, from, Buffer(b), n, y);
      }
    }
  }

  /** What was carried, and then kept, has been carried; so has what was kept and then carried. */
  lemma CarriedFurther(m: Bytes, m1: Bytes, m2: Bytes, from: nat, to: nat, n: nat)
    requires Carried(m, from, m1, to, n) && SameBytes(m1, m2, to, to + n)
    ensures Carried(m, from, m2, to, n)
  {
    forall k | 0 <= k < n ensures SameAt(m, from, m2, to, k) {
      assert SameAt(m, from, m1, to, k) && SameByte(m1, m2, to + k);
    }
  }

  lemma CarriedOn(m: Bytes, m1: Bytes, m2: Bytes, from: nat, to: nat, n: nat, end: nat)
    requires SameBytes(m, m1, from, end) && Carried(m1, from, m2, to, n) && from + n <= end
    ensures Carried(m, from, m2, to, n)
  {
    forall k | 0 <= k < n ensures SameAt(m, from, m2, to, k) {
      assert SameByte(m, m1, from + k) && SameAt(m1, from, m2, to, k);
    }
  }

  lemma Renamed(s: set<nat>, b: nat, b': nat)
    requires b in s && b' !in s
    ensures s + {b'} - {b} == s - {b} + {b'} && s - {b} + {b'} - {b'} == s - {b}
  {
  }

  lemma Stayed(m: Bytes, m': Bytes, at: nat, n: nat)
    requires SameBytes(m, m', at, at + n)
    ensures Carried(m, at, m', at, n)
  {
    forall k | 0 <= k < n ensures SameAt(m, at, m', at, k) {
      assert SameByte(m, m', at + k);
    }
  }

  lemma SameFewer(m: Bytes, m': Bytes, lo: nat, mid: nat, hi: nat)
    requires SameBytes(m, m', lo, hi) && mid <= hi
    ensures SameBytes(m, m', lo, mid)
  {
  }

  lemma ClientKept(clients: set<nat>, h: Phys, h': Phys, m: Bytes, m': Bytes, b: nat)
    requires ClientsKept(clients, h, h', m, m') && b in clients
    ensures Size(h', b) == Size(h, b) && SameBytes(m, m', Buffer(b), End(h, b))
    ensures ClientsKept(clients - {b}, h, h', m, m')
  {
  }

  lemma FewerClients(clients: set<nat>, some: set<nat>, h: Phys, h': Phys, m: Bytes, m': Bytes)
    requires ClientsKept(clients, h, h', m, m') && some <= clients
    ensures ClientsKept(some, h, h', m, m')
  {
  }

  /** What the clients see of a move: one allocation, and one copy that is followed by freeing the old block. */
  lemma MoveSeen(clients: set<nat>, b: nat, b': nat, n: nat, h: Phys, h1: Phys, h2: Phys, m: Bytes, m1: Bytes, m2: Bytes)
    requires b in clients && b' !in clients && ClientsKept(clients, h, h1, m, m1)
    requires ClientsKept(clients + {b'} - {b} - {b'}, h1, h2, m1, m2)
    requires Carried(m1, Buffer(b), m2, Buffer(b'), Min(Size(h1, b), n))
    ensures ClientsKept(clients - {b}, h, h2, m, m2) && Carried(m, Buffer(b), m2, Buffer(b'), Min(Size(h, b), n))
    ensures clients + {b'} - {b} == clients - {b} + {b'}
  {
    Renamed(clients, b, b');
    hide ClientsKept, SameBytes, Carried;
    ClientKept(clients, h, h1, m, m1, b);
    ClientsChain(clients - {b}, h, h1, h2, m, m1, m2);
    CarriedOn(m, m1, m2, Buffer(b), Buffer(b'), Min(Size(h, b), n), End(h, b));
  }

  /** Where a client's block is in the order. */
  lemma Place(h: Phys, base: nat, order: seq<nat>, lists: seq<seq<nat>>, live: set<nat>, info: set<nat>, k: Heap, b: nat) returns (i: nat)
    requires HeapOk(k, base, order, lists, {}) && k.phys == h && Owned(h, order, live, info) && b in live
    ensures i + 1 < |order| && order[i] == b && order[i + 1] == End(h, b)
  {
    i :| i < |order| && order[i] == b;
    Neighbours(h, base, order, i);
  }
}
