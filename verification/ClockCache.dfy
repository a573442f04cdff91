/** The write-back block cache of block/clockdisk.c. */
module ClockCache {
  import opened Arithmetic
  import opened Options
  import opened Blocks

  datatype BlockInfo = BlockInfo(useBit: bool, recentBit: bool, ino: nat, offset: nat, dirtyBit: bool)

  predicate Holds(m: BlockInfo, ino: nat, offset: nat) {
    m.useBit && m.ino == ino && m.offset == offset
  }

  /** The first valid slot at or after `k` that caches the key, or |meta| when there is none. */
  function Slot(meta: seq<BlockInfo>, ino: nat, offset: nat, k: nat := 0): (i: nat)
    requires k <= |meta|
    ensures k <= i <= |meta|
    ensures i < |meta| ==> Holds(meta[i], ino, offset)
    ensures forall j | k <= j < i :: !Holds(meta[j], ino, offset)
    decreases |meta| - k
  {
    if k == |meta| || Holds(meta[k], ino, offset) then k else Slot(meta, ino, offset, k + 1)
  }

  /** What the cache stands for at a key in range: the valid slot if there is one, else the block below. */
  function Lookup(meta: seq<BlockInfo>, blocks: seq<Block>, below: Inodes, ino: nat, offset: nat): Block
    requires |meta| == |blocks| && InRange(below, ino, offset)
  {
    var i := Slot(meta, ino, offset);
    if i < |meta| then blocks[i] else below[ino][offset]
  }

  /** The first `n` blocks that the cache stands for in one inode. */
  function Row(meta: seq<BlockInfo>, blocks: seq<Block>, below: Inodes, ino: nat, n: nat): (r: seq<Block>)
    requires |meta| == |blocks| && ino < |below| && n <= |below[ino]|
    ensures |r| == n
  {
    if n == 0 then [] else Row(meta, blocks, below, ino, n - 1) + [Lookup(meta, blocks, below, ino, n - 1)]
  }

  function Rows(meta: seq<BlockInfo>, blocks: seq<Block>, below: Inodes, n: nat): (v: Inodes)
    requires |meta| == |blocks| && n <= |below|
    ensures |v| == n && forall i | 0 <= i < n :: |v[i]| == |below[i]|
  {
    if n == 0 then [] else Rows(meta, blocks, below, n - 1) + [Row(meta, blocks, below, n - 1, |below[n - 1]|)]
  }

  /** The store that the cache stands for. */
  function View(meta: seq<BlockInfo>, blocks: seq<Block>, below: Inodes): (v: Inodes)
    requires |meta| == |blocks|
    ensures SameShape(v, below)
  {
    Rows(meta, blocks, below, |below|)
  }

  lemma {:induction false} RowAt(meta: seq<BlockInfo>, blocks: seq<Block>, below: Inodes, ino: nat, n: nat, o: nat)
    requires |meta| == |blocks| && ino < |below| && o < n <= |below[ino]|
    ensures Row(meta, blocks, below, ino, n)[o] == Lookup(meta, blocks, below, ino, o)
  {
    if o >= n - 1 {
    } else {
      RowAt(meta, blocks, below, ino, n - 1, o);
    }
  }

  lemma {:induction false} RowsAt(meta: seq<BlockInfo>, blocks: seq<Block>, below: Inodes, n: nat, i: nat)
    requires |meta| == |blocks| && i < n <= |below|
    ensures Rows(meta, blocks, below, n)[i] == Row(meta, blocks, below, i, |below[i]|)
  {
    if i >= n - 1 {
    } else {
      RowsAt(meta, blocks, below, n - 1, i);
    }
  }

  lemma ViewAt(meta: seq<BlockInfo>, blocks: seq<Block>, below: Inodes, i: nat, o: nat)
    requires |meta| == |blocks| && InRange(below, i, o)
    ensures View(meta, blocks, below)[i][o] == Lookup(meta, blocks, below, i, o)
  {
    RowsAt(meta, blocks, below, |below|, i);
    RowAt(meta, blocks, below, i, |below[i]|, o);
  }

  /** Two caches stand for the same store when they agree on every key in range. */
  lemma ViewIs(meta: seq<BlockInfo>, blocks: seq<Block>, below: Inodes, v: Inodes)
    requires |meta| == |blocks| && SameShape(v, below)
    requires forall i: nat, o: nat | InRange(below, i, o) :: v[i][o] == Lookup(meta, blocks, below, i, o)
    ensures View(meta, blocks, below) == v
  {
    forall i, o | 0 <= i < |v| && 0 <= o < |v[i]| ensures View(meta, blocks, below)[i][o] == v[i][o] {
      ViewAt(meta, blocks, below, i, o);
    }
    Extensional(View(meta, blocks, below), v);
  }

  /** No key has two valid slots. */
  ghost predicate Unique(meta: seq<BlockInfo>) {
    forall i, j | 0 <= i < |meta| && 0 <= j < |meta| && meta[i].useBit && Holds(meta[j], meta[i].ino, meta[i].offset) ::
      i == j
  }

  /** A valid clean slot repeats the block below it. */
  ghost predicate CleanAgrees(meta: seq<BlockInfo>, blocks: seq<Block>, below: Inodes)
    requires |meta| == |blocks|
  {
    forall i | 0 <= i < |meta| && meta[i].useBit && !meta[i].dirtyBit ::
      InRange(below, meta[i].ino, meta[i].offset) && below[meta[i].ino][meta[i].offset] == blocks[i]
  }

  lemma SlotIs(meta: seq<BlockInfo>, ino: nat, offset: nat, i: nat)
    requires Unique(meta) && i < |meta| && Holds(meta[i], ino, offset)
    ensures Slot(meta, ino, offset) == i
  {
    var k := Slot(meta, ino, offset);
    assert Holds(meta[i], meta[k].ino, meta[k].offset);
  }

  /** What a dirty victim leaves below when it is evicted. */
  function WrittenBack(m: BlockInfo, block: Block, below: Inodes): Inodes {
    if m.dirtyBit && m.useBit then Put(below, m.ino, m.offset, block) else below
  }

  /** Evicting slot `h` and filling it with a key that is not cached changes the view at that key alone. */
  lemma FillView(meta: seq<BlockInfo>, blocks: seq<Block>, below: Inodes, h: nat, ino: nat, offset: nat, b: Block)
    requires |meta| == |blocks| && Unique(meta) && CleanAgrees(meta, blocks, below)
    requires h < |meta| && Slot(meta, ino, offset) == |meta|
    ensures var below' := WrittenBack(meta[h], blocks[h], below);
            var meta' := meta[h := BlockInfo(true, true, ino, offset, true)];
            var blocks' := blocks[h := b];
            && Unique(meta') && CleanAgrees(meta', blocks', below')
            && View(meta', blocks', below') == Put(View(meta, blocks, below), ino, offset, b)
  {
    var below' := WrittenBack(meta[h], blocks[h], below);
    var meta' := meta[h := BlockInfo(true, true, ino, offset, true)];
    var blocks' := blocks[h := b];
    assert forall j | 0 <= j < |meta| :: !Holds(meta[j], ino, offset);
    forall i | 0 <= i < |meta'| && meta'[i].useBit && !meta'[i].dirtyBit
      ensures InRange(below', meta'[i].ino, meta'[i].offset) && below'[meta'[i].ino][meta'[i].offset] == blocks'[i]
    {
      assert meta'[i] == meta[i];
      assert meta[h].useBit ==> !Holds(meta[i], meta[h].ino, meta[h].offset);
    }
    var v := Put(View(meta, blocks, below), ino, offset, b);
    forall i: nat, o: nat | InRange(below', i, o) ensures v[i][o] == Lookup(meta', blocks', below', i, o) {
      ViewAt(meta, blocks, below, i, o);
      FillLookup(meta, blocks, below, h, ino, offset, b, i, o);
    }
    ViewIs(meta', blocks', below', v);
  }

  lemma FillLookup(meta: seq<BlockInfo>, blocks: seq<Block>, below: Inodes, h: nat, ino: nat, offset: nat, b: Block,
                   i: nat, o: nat)
    requires |meta| == |blocks| && Unique(meta) && CleanAgrees(meta, blocks, below)
    requires h < |meta| && Slot(meta, ino, offset) == |meta| && InRange(below, i, o)
    requires Unique(meta[h := BlockInfo(true, true, ino, offset, true)])
    ensures Lookup(meta[h := BlockInfo(true, true, ino, offset, true)], blocks[h := b],
                   WrittenBack(meta[h], blocks[h], below), i, o)
            == if i == ino && o == offset then b else Lookup(meta, blocks, below, i, o)
  {
    var meta' := meta[h := BlockInfo(true, true, ino, offset, true)];
    if i == ino && o == offset {
      SlotIs(meta', i, o, h);
    } else if Holds(meta[h], i, o) {
      SlotIs(meta, i, o, h);
      var s := Slot(meta', i, o);
      if s < |meta| {
        SlotIs(meta, i, o, s);
      }
    } else {
      var s := Slot(meta, i, o);
      if s < |meta| {
        SlotIs(meta', i, o, s);
      } else {
        assert forall j | 0 <= j < |meta| :: !Holds(meta[j], i, o);
        assert forall j | 0 <= j < |meta'| :: !Holds(meta'[j], i, o);
      }
    }
  }

  /** Overwriting the slot of a cached key changes the view at that key alone. */
  lemma HitView(meta: seq<BlockInfo>, blocks: seq<Block>, below: Inodes, s: nat, b: Block)
    requires |meta| == |blocks| && Unique(meta) && CleanAgrees(meta, blocks, below)
    requires s < |meta| && meta[s].useBit
    ensures var meta' := meta[s := meta[s].(dirtyBit := true)];
            var blocks' := blocks[s := b];
            && Unique(meta') && CleanAgrees(meta', blocks', below)
            && View(meta', blocks', below) == Put(View(meta, blocks, below), meta[s].ino, meta[s].offset, b)
  {
    var meta' := meta[s := meta[s].(dirtyBit := true)];
    var blocks' := blocks[s := b];
    var v := Put(View(meta, blocks, below), meta[s].ino, meta[s].offset, b);
    forall i: nat, o: nat | InRange(below, i, o) ensures v[i][o] == Lookup(meta', blocks', below, i, o) {
      ViewAt(meta, blocks, below, i, o);
      var k := Slot(meta, i, o);
      if k < |meta| {
        SlotIs(meta', i, o, k);
        SlotIs(meta, i, o, k);
        assert Holds(meta[s], i, o) ==> k == s;
      } else {
        assert forall j | 0 <= j < |meta| :: !Holds(meta[j], i, o);
        assert forall j | 0 <= j < |meta'| :: !Holds(meta'[j], i, o);
      }
    }
    ViewIs(meta', blocks', below, v);
  }

  /** Writing back a dirty slot in range and marking it clean leaves the view alone. */
  lemma CleanView(meta: seq<BlockInfo>, blocks: seq<Block>, below: Inodes, s: nat)
    requires |meta| == |blocks| && Unique(meta) && CleanAgrees(meta, blocks, below)
    requires s < |meta| && meta[s].useBit && InRange(below, meta[s].ino, meta[s].offset)
    ensures var meta' := meta[s := meta[s].(dirtyBit := false)];
            var below' := Put(below, meta[s].ino, meta[s].offset, blocks[s]);
            && Unique(meta') && CleanAgrees(meta', blocks, below')
            && View(meta', blocks, below') == View(meta, blocks, below)
  {
    var meta' := meta[s := meta[s].(dirtyBit := false)];
    var below' := Put(below, meta[s].ino, meta[s].offset, blocks[s]);
    forall i | 0 <= i < |meta'| && meta'[i].useBit && !meta'[i].dirtyBit
      ensures InRange(below', meta'[i].ino, meta'[i].offset) && below'[meta'[i].ino][meta'[i].offset] == blocks[i]
    {
      if i != s {
        assert meta'[i] == meta[i];
        assert !Holds(meta[i], meta[s].ino, meta[s].offset);
      }
    }
    var v := View(meta, blocks, below);
    forall i: nat, o: nat | InRange(below', i, o) ensures v[i][o] == Lookup(meta', blocks, below', i, o) {
      ViewAt(meta, blocks, below, i, o);
      var k := Slot(meta, i, o);
      if k < |meta| {
        SlotIs(meta', i, o, k);
      } else {
        assert forall j | 0 <= j < |meta| :: !Holds(meta[j], i, o);
        assert forall j | 0 <= j < |meta'| :: !Holds(meta'[j], i, o);
      }
    }
    ViewIs(meta', blocks, below', v);
  }

  /** Whether truncating `ino` to `size` drops the slot. */
  predicate Beyond(m: BlockInfo, ino: nat, size: nat) {
    m.ino == ino && m.offset >= size && m.useBit
  }

  /** Invalidating the slots past `size` and truncating below truncates the view. */
  lemma TruncateView(meta: seq<BlockInfo>, meta': seq<BlockInfo>, blocks: seq<Block>, below: Inodes, ino: nat, size: nat)
    requires |meta| == |blocks| == |meta'| && Unique(meta) && CleanAgrees(meta, blocks, below)
    requires ino < |below| && size <= |below[ino]|
    requires forall i | 0 <= i < |meta| ::
      meta'[i] == if Beyond(meta[i], ino, size) then meta[i].(useBit := false, dirtyBit := false) else meta[i]
    ensures var below' := Truncate(below, ino, size);
            var v := View(meta, blocks, below);
            && Unique(meta') && CleanAgrees(meta', blocks, below')
            && View(meta', blocks, below') == Truncate(v, ino, size)
  {
    var below' := Truncate(below, ino, size);
    var v0 := View(meta, blocks, below);
    var v := Truncate(v0, ino, size);
    forall i: nat, o: nat | InRange(below', i, o) ensures v[i][o] == Lookup(meta', blocks, below', i, o) {
      ViewAt(meta, blocks, below, i, o);
      var k := Slot(meta, i, o);
      if k < |meta| {
        SlotIs(meta', i, o, k);
      } else {
        assert forall j | 0 <= j < |meta| :: !Holds(meta[j], i, o);
        assert forall j | 0 <= j < |meta'| :: !Holds(meta'[j], i, o);
      }
    }
    ViewIs(meta', blocks, below', v);
  }

  /** Dropping only slots out of range leaves the view alone. */
  lemma DropView(meta: seq<BlockInfo>, meta': seq<BlockInfo>, blocks: seq<Block>, below: Inodes, ino: nat, size: nat)
    requires |meta| == |blocks| == |meta'| && Unique(meta) && CleanAgrees(meta, blocks, below)
    requires ino < |below| ==> |below[ino]| < size
    requires forall i | 0 <= i < |meta| ::
      meta'[i] == if Beyond(meta[i], ino, size) then meta[i].(useBit := false, dirtyBit := false) else meta[i]
    ensures Unique(meta') && CleanAgrees(meta', blocks, below)
    ensures View(meta', blocks, below) == View(meta, blocks, below)
  {
    var v := View(meta, blocks, below);
    forall i: nat, o: nat | InRange(below, i, o) ensures v[i][o] == Lookup(meta', blocks, below, i, o) {
      ViewAt(meta, blocks, below, i, o);
      var k := Slot(meta, i, o);
      if k < |meta| {
        SlotIs(meta', i, o, k);
      } else {
        assert forall j | 0 <= j < |meta| :: !Holds(meta[j], i, o);
        assert forall j | 0 <= j < |meta'| :: !Holds(meta'[j], i, o);
      }
    }
    ViewIs(meta', blocks, below, v);
  }

  /** A cache whose slots for `ino` are all clean leaves nothing to write back: below already is the view. */
  lemma SyncedView(meta: seq<BlockInfo>, blocks: seq<Block>, below: Inodes, ino: nat)
    requires |meta| == |blocks| && CleanAgrees(meta, blocks, below) && ino < |below|
    requires forall i | 0 <= i < |meta| && meta[i].useBit && meta[i].ino == ino :: !meta[i].dirtyBit
    ensures View(meta, blocks, below)[ino] == below[ino]
  {
    var v := View(meta, blocks, below);
    forall o | 0 <= o < |v[ino]| ensures v[ino][o] == below[ino][o] {
      ViewAt(meta, blocks, below, ino, o);
    }
  }

  /** The store below is what the cache stands for exactly when every dirty slot in range repeats the block below
      it. */
  lemma BelowIsView(meta: seq<BlockInfo>, blocks: seq<Block>, below: Inodes)
    requires |meta| == |blocks| && Unique(meta) && CleanAgrees(meta, blocks, below)
    ensures View(meta, blocks, below) == below <==>
      forall i | 0 <= i < |meta| && meta[i].useBit && meta[i].dirtyBit && InRange(below, meta[i].ino, meta[i].offset) ::
        below[meta[i].ino][meta[i].offset] == blocks[i]
  {
    if View(meta, blocks, below) == below {
      forall i | 0 <= i < |meta| && meta[i].useBit && InRange(below, meta[i].ino, meta[i].offset)
        ensures below[meta[i].ino][meta[i].offset] == blocks[i]
      {
        SlotIs(meta, meta[i].ino, meta[i].offset, i);
        ViewAt(meta, blocks, below, meta[i].ino, meta[i].offset);
      }
    } else if forall i | 0 <= i < |meta| && meta[i].useBit && meta[i].dirtyBit && InRange(below, meta[i].ino, meta[i].offset) ::
                below[meta[i].ino][meta[i].offset] == blocks[i] {
      ViewIs(meta, blocks, below, below);
    }
  }

  /** Where the clock stands after `fills` fills: the slot of the last fill, the only one with its bit set. */
  ghost predicate ClockAt(meta: seq<BlockInfo>, hand: nat, fills: nat) {
    && hand < |meta|
    && hand == (if fills == 0 then 0 else (fills - 1) % |meta|)
    && forall i | 0 <= i < |meta| :: meta[i].recentBit <==> (fills > 0 && i == hand)
  }

  /** The next victim follows the slot of the last fill. */
  lemma ClockMoves(meta: seq<BlockInfo>, hand: nat, fills: nat) returns (next: nat)
    requires ClockAt(meta, hand, fills)
    ensures hand < |meta| && next == fills % |meta|
    ensures next == if fills == 0 then hand else if hand == |meta| - 1 then 0 else hand + 1
    ensures forall i | 0 <= i < |meta| :: meta[i].recentBit <==> (fills > 0 && i == hand)
  {
    next := fills % |meta|;
    if fills > 0 {
      NextMod(fills - 1, |meta|);
    }
  }

  lemma ClockFilled(meta: seq<BlockInfo>, hand: nat, fills: nat, info: BlockInfo)
    requires |meta| > 0 && hand == fills % |meta| && info.recentBit && forall i | 0 <= i < |meta| :: !meta[i].recentBit
    ensures ClockAt(meta[hand := info], hand, fills + 1)
  {
  }

  class ClockDisk {
    const below: Store
    const blocks: array<Block>
    const metadatas: array<BlockInfo>
    const nblocks: nat
    var clockHand: nat
    ghost var fills: nat  // how often a slot has been filled

    ghost predicate Valid()
      reads Repr()
    {
      && blocks.Length == metadatas.Length == nblocks > 0
      && metadatas as object != blocks as object
      && Unique(metadatas[..])
      && CleanAgrees(metadatas[..], blocks[..], below.inodes)
      && ClockAt(metadatas[..], clockHand, fills)
    }

    ghost function Repr(): set<object> {
      {this, blocks, metadatas, below}
    }

    /** The store that the cache presents to the layer above. */
    ghost function Inodes(): Inodes
      requires Valid()
      reads Repr()
    {
      View(metadatas[..], blocks[..], below.inodes)
    }

    ghost function CachedAt(ino: nat, offset: nat): (i: nat)
      requires Valid()
      reads Repr()
    {
      Slot(metadatas[..], ino, offset)
    }

    constructor (below: Store, blocks: array<Block>)
      requires blocks.Length > 0
      ensures Valid() && Inodes() == below.inodes
      ensures this.below == below && this.blocks == blocks && fresh(Repr() - {blocks, below})
    {
      this.below := below;
      this.blocks := blocks;
      this.nblocks := blocks.Length;
      this.metadatas := new BlockInfo[blocks.Length](_ => BlockInfo(false, false, 0, 0, false));
      this.clockHand := 0;
      this.fills := 0;
      new;
      ViewIs(metadatas[..], this.blocks[..], below.inodes, below.inodes);
    }

    /** Finds the slot of a key by scanning all of them. */
    method Find(ino: nat, offset: nat) returns (i: nat)
      requires Valid()
      ensures i == CachedAt(ino, offset)
    {
      i := 0;
      while i < nblocks
        invariant 0 <= i <= nblocks
        invariant Slot(metadatas[..], ino, offset) == Slot(metadatas[..], ino, offset, i)
      {
        if metadatas[i].ino == ino && metadatas[i].offset == offset && metadatas[i].useBit {
          break;
        }
        i := i + 1;
      }
    }

    /** Moves the clock hand to the victim.  The scan stops after at most one step, so that slots are
        taken strictly in turn: the victim of the k-th fill is slot (k-1) mod nblocks. */
    method FindVictim()
      requires Valid()
      modifies this`clockHand, metadatas
      ensures clockHand == fills % nblocks
      ensures forall i | 0 <= i < nblocks :: metadatas[i] == old(metadatas[i]).(recentBit := false)
    {
      hide Unique, CleanAgrees, ClockAt;
      ghost var next := ClockMoves(metadatas[..], clockHand, fills);
      ghost var cleared := false;
      while true
        invariant clockHand == if cleared then next else old(clockHand)
        invariant cleared ==> fills > 0
        invariant forall i | 0 <= i < nblocks ::
          metadatas[i] == if cleared then old(metadatas[i]).(recentBit := false) else old(metadatas[i])
        decreases !cleared
      {
        if !metadatas[clockHand].recentBit {
          break;
        }
        metadatas[clockHand] := metadatas[clockHand].(recentBit := false);
        if clockHand == nblocks - 1 {
          clockHand := 0;
        } else {
          clockHand := clockHand + 1;
        }
        cleared := true;
      }
    }

    /** Fills the victim's slot with a key that is not cached yet. */
    method CacheUpdate(ino: nat, offset: nat, block: Block)
      requires Valid() && CachedAt(ino, offset) == nblocks
      modifies this, blocks, metadatas, below
      ensures Valid() && Inodes() == Put(old(Inodes()), ino, offset, block)
      ensures CachedAt(ino, offset) < nblocks && blocks[CachedAt(ino, offset)] == block
      ensures fills == old(fills) + 1
      ensures Holds(metadatas[old(fills) % nblocks], ino, offset)
    {
      hide Unique, CleanAgrees, View, ClockAt;
      FindVictim();
      ghost var meta := metadatas[..];
      ClockFilled(meta, clockHand, fills, BlockInfo(true, true, ino, offset, true));
      SameButRecent(old(metadatas[..]), meta, blocks[..], below.inodes, ino, offset);
      FillView(meta, blocks[..], below.inodes, clockHand, ino, offset, block);
      if metadatas[clockHand].dirtyBit && metadatas[clockHand].useBit {
        var _ := below.Write(metadatas[clockHand].ino, metadatas[clockHand].offset, blocks[clockHand]);
      }
      blocks[clockHand] := block;
      metadatas[clockHand] := BlockInfo(true, true, ino, offset, true);
      fills := fills + 1;
      assert metadatas[..] == meta[clockHand := BlockInfo(true, true, ino, offset, true)];
      assert blocks[..] == old(blocks[..])[clockHand := block];
      SlotIs(metadatas[..], ino, offset, clockHand);
    }

    method GetSize(ino: nat) returns (size: int)
      requires Valid()
      ensures size == if ino < |Inodes()| then |Inodes()[ino]| else -1
    {
      size := below.GetSize(ino);
    }

    /** Drops the slots of one inode from `size` on. */
    method Invalidate(ino: nat, size: nat)
      requires Valid()
      modifies metadatas
      ensures forall j | 0 <= j < nblocks ::
        metadatas[j] == if old(Beyond(metadatas[j], ino, size))
                        then old(metadatas[j]).(useBit := false, dirtyBit := false) else old(metadatas[j])
    {
      for i := 0 to nblocks
        invariant forall j | 0 <= j < nblocks ::
          metadatas[j] == if j < i && old(Beyond(metadatas[j], ino, size))
                          then old(metadatas[j]).(useBit := false, dirtyBit := false) else old(metadatas[j])
      {
        if metadatas[i].ino == ino && metadatas[i].offset >= size && metadatas[i].useBit {
          metadatas[i] := metadatas[i].(useBit := false, dirtyBit := false);
        }
      }
    }

    method SetSize(ino: nat, size: nat) returns (r: int)
      requires Valid()
      modifies this, blocks, metadatas, below
      ensures Valid() && fills == old(fills)
      ensures var v := old(Inodes());
              if ino < |v| && size <= |v[ino]| then r == |v[ino]| && Inodes() == Truncate(v, ino, size)
              else r == -1 && Inodes() == v
    {
      Invalidate(ino, size);
      ghost var meta0 := old(metadatas[..]);
      if ino < |below.inodes| && size <= |below.inodes[ino]| {
        TruncateView(meta0, metadatas[..], blocks[..], below.inodes, ino, size);
      } else {
        DropView(meta0, metadatas[..], blocks[..], below.inodes, ino, size);
      }
      r := below.SetSize(ino, size);
    }

    /** A read returns what the cache stands for and changes none of it; a key out of range is
        found only while a write to it is still cached. */
    method Read(ino: nat, offset: nat) returns (r: Option<Block>)
      requires Valid()
      modifies this, blocks, metadatas, below
      ensures Valid() && Inodes() == old(Inodes())
      ensures InRange(old(Inodes()), ino, offset) ==> r == Some(old(Inodes())[ino][offset])
      ensures !InRange(old(Inodes()), ino, offset) ==>
                r == if old(CachedAt(ino, offset)) < nblocks then Some(old(blocks[..][CachedAt(ino, offset)])) else None
      ensures fills == old(fills) + if old(CachedAt(ino, offset)) == nblocks && r.Some? then 1 else 0
    {
      var i := Find(ino, offset);
      if i == nblocks {
        r := below.Read(ino, offset);
        if r == None {
          return;
        }
        ViewAt(metadatas[..], blocks[..], below.inodes, ino, offset);
        CacheUpdate(ino, offset, r.value);
        Extensional(Inodes(), old(Inodes()));
      } else {
        if InRange(below.inodes, ino, offset) {
          ViewAt(metadatas[..], blocks[..], below.inodes, ino, offset);
        }
        r := Some(blocks[i]);
      }
    }

    /** A write always reports success; it changes the view at the written key and nowhere else, and
        not at all when the key is out of range. */
    method Write(ino: nat, offset: nat, block: Block) returns (ok: bool)
      requires Valid()
      modifies this, blocks, metadatas, below
      ensures ok && Valid() && Inodes() == Put(old(Inodes()), ino, offset, block)
      ensures CachedAt(ino, offset) < nblocks && blocks[CachedAt(ino, offset)] == block
      ensures fills == old(fills) + if old(CachedAt(ino, offset)) == nblocks then 1 else 0
    {
      var i := Find(ino, offset);
      if i == nblocks {
        CacheUpdate(ino, offset, block);
      } else {
        HitView(metadatas[..], blocks[..], below.inodes, i, block);
        ghost var meta, cached := metadatas[..], blocks[..];
        blocks[i] := block;
        metadatas[i] := metadatas[i].(dirtyBit := true);
        assert metadatas[..] == meta[i := meta[i].(dirtyBit := true)];
        assert blocks[..] == cached[i := block];
        SlotIs(metadatas[..], ino, offset, i);
      }
      ok := true;
    }

    /** Writes back the dirty slots of one inode.  It succeeds exactly when none of them is out of
        range, and then the inode below is what the cache stands for; no other inode is touched. */
    method Sync(ino: nat) returns (ok: bool)
      requires Valid()
      modifies this, blocks, metadatas, below
      ensures Valid() && Inodes() == old(Inodes()) && fills == old(fills)
      ensures ok <==> forall i | 0 <= i < nblocks ::
        old(metadatas[..])[i].useBit && old(metadatas[..])[i].ino == ino && old(metadatas[..])[i].dirtyBit ==>
          InRange(old(Inodes()), ino, old(metadatas[..])[i].offset)
      ensures ok && ino < |Inodes()| ==> below.inodes[ino] == Inodes()[ino]
      ensures forall j | 0 <= j < |below.inodes| && j != ino :: below.inodes[j] == old(below.inodes)[j]
      ensures ino >= |Inodes()| ==> below.inodes == old(below.inodes)
    {
      hide Unique, CleanAgrees, Rows, View, Beyond, WrittenBack, CachedAt, Holds;
      ghost var meta0, below0, view := metadatas[..], below.inodes, Inodes();
      for i := 0 to nblocks
        invariant Valid() && Inodes() == view && fills == old(fills) && blocks[..] == old(blocks[..])
        invariant SameShape(below.inodes, below0)
        invariant forall j | i <= j < nblocks :: metadatas[j] == meta0[j]
        invariant forall j | 0 <= j < i ::
          && (metadatas[j].useBit && metadatas[j].ino == ino ==> !metadatas[j].dirtyBit)
          && (meta0[j].useBit && meta0[j].ino == ino && meta0[j].dirtyBit ==> InRange(view, ino, meta0[j].offset))
        invariant forall j | 0 <= j < |below.inodes| && j != ino :: below.inodes[j] == below0[j]
      {
        if metadatas[i].ino == ino && metadatas[i].useBit && metadatas[i].dirtyBit {
          ghost var meta := metadatas[..];
          if InRange(below.inodes, ino, metadatas[i].offset) {
            CleanView(meta, blocks[..], below.inodes, i);
          }
          var written := below.Write(ino, metadatas[i].offset, blocks[i]);
          if !written {
            return false;
          }
          metadatas[i] := metadatas[i].(dirtyBit := false);
          assert metadatas[..] == meta[i := meta[i].(dirtyBit := false)];
        }
      }
      if ino < |below.inodes| {
        SyncedView(metadatas[..], blocks[..], below.inodes, ino);
      }
      ok := true;
    }
  }

  /** The recent bits play no part in what the cache stands for. */
  lemma SameButRecent(meta: seq<BlockInfo>, meta': seq<BlockInfo>, blocks: seq<Block>, below: Inodes, ino: nat, offset: nat)
    requires |meta| == |meta'| == |blocks| && Unique(meta) && CleanAgrees(meta, blocks, below)
    requires forall i | 0 <= i < |meta| :: meta'[i] == meta[i].(recentBit := meta'[i].recentBit)
    ensures Unique(meta') && CleanAgrees(meta', blocks, below)
    ensures View(meta', blocks, below) == View(meta, blocks, below)
    ensures Slot(meta', ino, offset) == Slot(meta, ino, offset)
  {
    forall i: nat, o: nat ensures Slot(meta', i, o) == Slot(meta, i, o) {
      var k, k' := Slot(meta, i, o), Slot(meta', i, o);
      if k < |meta| { assert Holds(meta'[k], i, o); }
      if k' < |meta| { assert Holds(meta[k'], i, o); }
    }
    var v := View(meta, blocks, below);
    forall i: nat, o: nat | InRange(below, i, o) ensures v[i][o] == Lookup(meta', blocks, below, i, o) {
      ViewAt(meta, blocks, below, i, o);
    }
    ViewIs(meta', blocks, below, v);
  }
}
