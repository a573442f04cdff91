/** The physical blocks of the TLSF allocator: they tile every area up to its sentinel, and no two free blocks
    are neighbours. */
module TlsfBlocks {
  import opened TlsfMapping
  import opened TlsfLists

  /** The size word of a header: the size and the two state bits. */
  datatype SizeWord = SizeWord(size: nat, free: bool, prevFree: bool)

  /** The fields of the headers that say where the blocks are. */
  datatype Phys = Phys(words: map<nat, SizeWord>, prevHdr: Field)

  function Word(h: Phys, b: nat): SizeWord {
    if b in h.words then h.words[b] else SizeWord(0, false, false)
  }

  function Size(h: Phys, b: nat): nat {
    Word(h, b).size
  }

  predicate IsFree(h: Phys, b: nat) {
    Word(h, b).free
  }

  /** The address after a block. */
  function End(h: Phys, b: nat): nat {
    b + BHDR_OVERHEAD + Size(h, b)
  }

  /** A block is aligned, has at least the smallest size unless it is a sentinel, and fits the address range. */
  predicate BlockOk(h: Phys, base: nat, b: nat) {
    && b > 0 && b % 16 == 0 && Size(h, b) % 16 == 0 && base <= b && End(h, b) < base + MAX_SIZE
    && (IsFree(h, b) ==> Size(h, b) > 0)
  }

  /** Two successive blocks: the second starts where the first ends, unless that is the sentinel of an area.  The
      second knows whether the first is free, and if so, where it is. */
  predicate PairOk(h: Phys, b: nat, n: nat) {
    && (if Size(h, b) > 0 then n == End(h, b) else n >= End(h, b))
    && (IsFree(h, b) ==> !IsFree(h, n) && Get(h.prevHdr, n) == b)
    && (Word(h, n).prevFree <==> IsFree(h, b))
  }

  /** `order` lists all blocks by address, the areas one after the other. */
  ghost predicate PhysOk(h: Phys, base: nat, order: seq<nat>) {
    && (forall i | 0 <= i < |order| :: BlockOk(h, base, order[i]))
    && (forall i | 0 <= i < |order| - 1 :: PairOk(h, order[i], order[i + 1]))
    && (order != [] ==> !Word(h, order[0]).prevFree && Size(h, order[|order| - 1]) == 0)
  }

  lemma {:induction false} Ascending(h: Phys, base: nat, order: seq<nat>, i: nat, j: nat)
    requires PhysOk(h, base, order) && i < j < |order|
    ensures End(h, order[i]) <= order[j]
  {
    assert PairOk(h, order[j - 1], order[j]);
    if i >= j - 1 {
    } else {
      Ascending(h, base, order, i, j - 1);
    }
  }

  /** Different blocks have no byte in common. */
  lemma Disjoint(h: Phys, base: nat, order: seq<nat>, i: nat, j: nat)
    requires PhysOk(h, base, order) && i < |order| && j < |order| && order[i] != order[j]
    ensures End(h, order[i]) <= order[j] || End(h, order[j]) <= order[i]
  {
    if i < j {
      Ascending(h, base, order, i, j);
    } else {
      Ascending(h, base, order, j, i);
    }
  }

  // ---------------------------------------------------------------- merging

  /** The blocks from `i` to `k` become one, which is free or used. */
  function Merged(h: Phys, b: nat, next: nat, free: bool): Phys
    requires b + BHDR_OVERHEAD <= next
  {
    var words := h.words[b := SizeWord(next - b - BHDR_OVERHEAD, free, Word(h, b).prevFree)];
    Phys(words[next := Word(h, next).(prevFree := free)], if free then h.prevHdr[next := b] else h.prevHdr)
  }

  function Cut(order: seq<nat>, i: nat, k: nat): seq<nat>
    requires i <= k < |order|
  {
    order[..i + 1] + order[k + 1..]
  }

  lemma MergeKeeps(h: Phys, base: nat, order: seq<nat>, i: nat, k: nat, free: bool)
    requires PhysOk(h, base, order) && i <= k < |order| - 1
    requires forall m | i <= m <= k :: order[m + 1] == End(h, order[m])
    requires order[i] + BHDR_OVERHEAD < order[k + 1]
    requires free ==> !IsFree(h, order[k + 1]) && (i > 0 ==> !IsFree(h, order[i - 1]))
    ensures PhysOk(Merged(h, order[i], order[k + 1], free), base, Cut(order, i, k))
  {
    hide BlockOk, PairOk;
    var h' := Merged(h, order[i], order[k + 1], free);
    var order' := Cut(order, i, k);
    AllAscending(h, base, order);
    forall m | 0 <= m < |order'| ensures BlockOk(h', base, order'[m]) {
      MergedBlock(h, base, order, i, k, free, m);
    }
    MergedEnds(h, order, i, k, free);
    forall m | 0 <= m < |order'| - 1 ensures PairOk(h', order'[m], order'[m + 1]) {
      MergedPair(h, order, i, k, free, m);
    }
  }

  predicate Sorted(order: seq<nat>) {
    forall i, j | 0 <= i < j < |order| :: order[i] < order[j]
  }

  lemma AllAscending(h: Phys, base: nat, order: seq<nat>)
    requires PhysOk(h, base, order)
    ensures Sorted(order)
  {
    forall i, j | 0 <= i < j < |order| ensures order[i] < order[j] {
      Ascending(h, base, order, i, j);
    }
  }

  /** Blocks whose words, and whose knowledge of each other, are as before. */
  lemma PairSame(h: Phys, h': Phys, b: nat, n: nat)
    requires PairOk(h, b, n) && Word(h', b) == Word(h, b) && Get(h'.prevHdr, n) == Get(h.prevHdr, n)
    requires Word(h', n).prevFree == Word(h, n).prevFree && (IsFree(h', n) ==> IsFree(h, n) || !IsFree(h, b))
    ensures PairOk(h', b, n)
  {
  }

  lemma MergedBlock(h: Phys, base: nat, order: seq<nat>, i: nat, k: nat, free: bool, m: nat)
    requires Sorted(order) && i <= k < |order| - 1 && order[i] + BHDR_OVERHEAD < order[k + 1] && m < |Cut(order, i, k)|
    requires BlockOk(h, base, order[i]) && BlockOk(h, base, order[k + 1])
    requires BlockOk(h, base, order[if m <= i then m else m - i + k])
    ensures BlockOk(Merged(h, order[i], order[k + 1], free), base, Cut(order, i, k)[m])
  {
  }

  lemma MergedEnds(h: Phys, order: seq<nat>, i: nat, k: nat, free: bool)
    requires Sorted(order) && i <= k < |order| - 1 && order[i] + BHDR_OVERHEAD < order[k + 1]
    requires !Word(h, order[0]).prevFree && Size(h, order[|order| - 1]) == 0
    ensures var h', order' := Merged(h, order[i], order[k + 1], free), Cut(order, i, k);
            !Word(h', order'[0]).prevFree && Size(h', order'[|order'| - 1]) == 0
  {
  }

  lemma MergedPair(h: Phys, order: seq<nat>, i: nat, k: nat, free: bool, m: nat)
    requires Sorted(order) && i <= k < |order| - 1 && order[i] + BHDR_OVERHEAD < order[k + 1]
    requires free ==> !IsFree(h, order[k + 1]) && (i > 0 ==> !IsFree(h, order[i - 1]))
    requires m < |Cut(order, i, k)| - 1 && var n := if m < i then m else m - i + k; PairOk(h, order[n], order[n + 1])
    ensures PairOk(Merged(h, order[i], order[k + 1], free), Cut(order, i, k)[m], Cut(order, i, k)[m + 1])
  {
    var h' := Merged(h, order[i], order[k + 1], free);
    if m < i {
      PairSame(h, h', order[m], order[m + 1]);
    } else if m > i {
      var n := m - i + k;
      assert Word(h', order[n + 1]) == Word(h, order[n + 1]);
      assert Cut(order, i, k)[m] == order[n] && Cut(order, i, k)[m + 1] == order[n + 1];
    }
  }

  // ---------------------------------------------------------------- a torn heap

  /** The header of `b` says that the block before it is used. */
  function Unmarked(h: Phys, b: nat): Phys {
    h.(words := h.words[b := Word(h, b).(prevFree := false)])
  }

  /** Free block `x` and the one behind it are two, and the one behind does not know. */
  predicate Torn(h: Phys, x: nat) {
    IsFree(h, x) && IsFree(h, End(h, x)) && !Word(h, End(h, x)).prevFree
  }

  /** However its blocks are listed, a torn heap is not well formed. */
  lemma NotTorn(h: Phys, base: nat, order: seq<nat>, x: nat)
    requires PhysOk(h, base, order) && x in order
    ensures !Torn(h, x)
  {
    var i :| 0 <= i < |order| && order[i] == x;
    assert BlockOk(h, base, x);
    assert i + 1 < |order| ==> PairOk(h, x, order[i + 1]);
  }

  // ---------------------------------------------------------------- splitting

  /** A used block keeps its first `n` bytes; the rest becomes a free block. */
  function Split(h: Phys, b: nat, n: nat, next: nat): Phys
    requires b + BHDR_OVERHEAD + n + BHDR_OVERHEAD <= next
  {
    var rest: nat := b + BHDR_OVERHEAD + n;
    var words := h.words[b := Word(h, b).(size := n)][rest := SizeWord(next - rest - BHDR_OVERHEAD, true, false)];
    Phys(words[next := Word(h, next).(prevFree := true)], h.prevHdr[next := rest])
  }

  function Inserted(order: seq<nat>, i: nat, b: nat): (r: seq<nat>)
    requires i < |order|
    ensures |r| == |order| + 1
  {
    order[..i + 1] + [b] + order[i + 1..]
  }

  /** The blocks that were there keep their sizes, but for the one that is split. */
  lemma SplitSame(h: Phys, order: seq<nat>, i: nat, n: nat)
    requires Sorted(order) && i + 1 < |order| && order[i + 1] == End(h, order[i])
    requires order[i] + BHDR_OVERHEAD + n + BHDR_OVERHEAD <= order[i + 1]
    requires forall j | 0 <= j < |order| :: order[j] != order[i] + BHDR_OVERHEAD + n
    ensures var h', order' := Split(h, order[i], n, order[i + 1]), Inserted(order, i, order[i] + BHDR_OVERHEAD + n);
            forall b | b in order && b != order[i] :: b in order' && Size(h', b) == Size(h, b) && IsFree(h', b) == IsFree(h, b)
  {
    var order' := Inserted(order, i, order[i] + BHDR_OVERHEAD + n);
    forall b | b in order ensures b in order' {
      var j :| 0 <= j < |order| && order[j] == b;
      assert order'[if j <= i then j else j + 1] == b;
    }
  }

  lemma SplitBefore(h: Phys, order: seq<nat>, i: nat, n: nat, m: nat)
    requires Sorted(order) && i + 1 < |order| && order[i + 1] == End(h, order[i])
    requires order[i] + BHDR_OVERHEAD + n + BHDR_OVERHEAD <= order[i + 1] && m < |order| + 1
    requires forall j | 0 <= j < |order| :: order[j] != order[i] + BHDR_OVERHEAD + n
    ensures var rest: nat := order[i] + BHDR_OVERHEAD + n;
            var h', x := Split(h, order[i], n, order[i + 1]), Inserted(order, i, rest)[m];
            && (m == i + 1 ==> x == rest && IsFree(h', x))
            && (m != i + 1 ==> x == order[if m <= i then m else m - 1])
            && (m != i && m != i + 1 ==> Size(h', x) == Size(h, x) && IsFree(h', x) == IsFree(h, x))
  {
  }

  lemma SplitKeeps(h: Phys, base: nat, order: seq<nat>, i: nat, n: nat)
    requires PhysOk(h, base, order) && i < |order| - 1 && !IsFree(h, order[i]) && !IsFree(h, order[i + 1])
    requires n % 16 == 0 && n >= MIN_BLOCK_SIZE && n + BHDR_OVERHEAD < Size(h, order[i])
    ensures order[i + 1] == End(h, order[i])
    ensures var rest: nat := order[i] + BHDR_OVERHEAD + n;
            PhysOk(Split(h, order[i], n, order[i + 1]), base, Inserted(order, i, rest))
  {
    assert PairOk(h, order[i], order[i + 1]) && BlockOk(h, base, order[i]);
    var rest: nat := order[i] + BHDR_OVERHEAD + n;
    var h', order' := Split(h, order[i], n, order[i + 1]), Inserted(order, i, rest);
    AllAscending(h, base, order);
    NotInside(h, base, order, i, rest);
    assert Word(h', order[0]).prevFree == Word(h, order[0]).prevFree;
    forall m | 0 <= m < |order'| - 1 ensures PairOk(h', order'[m], order'[m + 1]) {
      SplitPair(h, order, i, n, m);
    }
    forall m | 0 <= m < |order'| ensures BlockOk(h', base, order'[m]) {
      SplitBefore(h, order, i, n, m);
      SplitBlocks(h, base, order, i, n);
    }
    SplitBefore(h, order, i, n, 0);
    SplitBefore(h, order, i, n, |order|);
    hide Split, Inserted, Sorted, PairOk;
  }

  /** The two parts of the block that is split are in order. */
  lemma SplitBlocks(h: Phys, base: nat, order: seq<nat>, i: nat, n: nat)
    requires PhysOk(h, base, order) && i + 1 < |order| && order[i + 1] == End(h, order[i]) && !IsFree(h, order[i])
    requires n % 16 == 0 && n >= MIN_BLOCK_SIZE && n + BHDR_OVERHEAD < Size(h, order[i])
    ensures var rest: nat := order[i] + BHDR_OVERHEAD + n;
            var h' := Split(h, order[i], n, order[i + 1]); BlockOk(h', base, order[i]) && BlockOk(h', base, rest)
  {
    assert BlockOk(h, base, order[i]);
  }

  lemma SplitPair(h: Phys, order: seq<nat>, i: nat, n: nat, m: nat)
    requires Sorted(order) && i < |order| - 1 && !IsFree(h, order[i]) && !IsFree(h, order[i + 1])
    requires n + BHDR_OVERHEAD < Size(h, order[i]) && order[i + 1] == End(h, order[i])
    requires var rest: nat := order[i] + BHDR_OVERHEAD + n;
             (forall j | 0 <= j < |order| :: order[j] != rest) && n > 0 && m < |Inserted(order, i, rest)| - 1
    requires var q := if m <= i then m else m - 1; PairOk(h, order[q], order[q + 1])
    ensures var rest: nat := order[i] + BHDR_OVERHEAD + n;
            PairOk(Split(h, order[i], n, order[i + 1]), Inserted(order, i, rest)[m], Inserted(order, i, rest)[m + 1])
  {
    var h' := Split(h, order[i], n, order[i + 1]);
    if m < i {
      PairSame(h, h', order[m], order[m + 1]);
    } else if m > i + 1 {
      assert Word(h', order[m]) == Word(h, order[m]);
    }
  }

  /** An address inside a block is not that of a block. */
  lemma NotInside(h: Phys, base: nat, order: seq<nat>, i: nat, a: nat)
    requires PhysOk(h, base, order) && i < |order| && order[i] < a < End(h, order[i])
    ensures forall m | 0 <= m < |order| :: order[m] != a
  {
    forall m | 0 <= m < |order| ensures order[m] != a {
      if m < i {
        Ascending(h, base, order, m, i);
      } else if m > i {
        Ascending(h, base, order, i, m);
      }
    }
  }
}
