/** The on-disk layout of block/treedisk.h, read off a disk image. */
module TreeLayout {
  import opened Blocks

  /** The blocks of the inode below that holds the file system. */
  type Image = seq<Block>

  const INODES_PER_BLOCK := 128

  /** How many data blocks a tree of `l` levels can hold. */
  function Capacity(l: nat): (c: nat)
    ensures c >= 1
  {
    if l == 0 then 1 else 256 * Capacity(l - 1)
  }

  /** The number of levels that a file of `n` blocks needs. */
  function Levels(n: nat, l: nat := 0): (r: nat)
    ensures l <= r && n <= Capacity(r)
    ensures r > l ==> Capacity(r - 1) < n
    decreases n - Capacity(l)
  {
    if n <= Capacity(l) then l else Levels(n, l + 1)
  }

  lemma {:induction false} CapacityGrows(l: nat, m: nat)
    requires l < m
    ensures Capacity(l) * 256 <= Capacity(m)
    decreases m
  {
    if l + 1 >= m {
    } else {
      CapacityGrows(l, m - 1);
    }
  }

  /** Levels is characterized by the bounds it keeps. */
  lemma LevelsIs(n: nat, l: nat)
    requires n <= Capacity(l)
    requires l > 0 ==> Capacity(l - 1) < n
    ensures Levels(n) == l
  {
    var r := Levels(n);
    if r < l {
      if r < l - 1 { CapacityGrows(r, l - 1); }
      assert false;
    } else if l < r {
      if l < r - 1 { CapacityGrows(l, r - 1); }
      assert false;
    }
  }

  lemma LevelsMonotonic(n: nat, m: nat)
    requires n <= m
    ensures Levels(n) <= Levels(m)
  {
    var r, s := Levels(n), Levels(m);
    if s + 1 < r {
      CapacityGrows(s, r - 1);
    }
  }

  /** Which node of level `l` covers data block `offset`. */
  function Prefix(offset: nat, l: nat): nat {
    if l == 0 then offset else Prefix(offset, l - 1) / 256
  }

  /** Node `prefix` of level `level` is node `q` of level `l`, or lies below it. */
  predicate AtOrBelow(level: nat, prefix: nat, l: nat, q: nat) {
    level <= l && Prefix(prefix, l - level) == q
  }

  /** The index of that node within its parent. */
  function Digit(offset: nat, l: nat): (d: nat)
    ensures d < 256
  {
    Prefix(offset, l) % 256
  }

  lemma {:induction false} PrefixLess(offset: nat, l: nat, k: nat)
    ensures Prefix(offset, l) < k <==> offset < Capacity(l) * k
  {
    if l == 0 {
    } else {
      PrefixLess(offset, l - 1, 256 * k);
      assert Capacity(l - 1) * (256 * k) == Capacity(l) * k;
    }
  }

  lemma {:induction false} PrefixZero(offset: nat, l: nat)
    requires offset < Capacity(l)
    ensures Prefix(offset, l) == 0
  {
    PrefixLess(offset, l, 1);
  }

  /** Whether the first data block below node `q` of level `l` lies within a file of `n` blocks. */
  predicate Within(q: nat, l: nat, n: nat)
    decreases l
  {
    if l == 0 then q < n else Within(q * 256, l - 1, n)
  }

  lemma {:induction false} WithinMonotonic(q: nat, l: nat, n: nat, q': nat, n': nat)
    requires Within(q, l, n) && q' <= q && n <= n'
    ensures Within(q', l, n')
    decreases l
  {
    if l == 0 {
    } else {
      WithinMonotonic(q * 256, l - 1, n, q' * 256, n');
    }
  }

  lemma {:induction false} WithinZero(l: nat, n: nat)
    requires n > 0
    ensures Within(0, l, n)
    decreases l
  {
    if l == 0 {
    } else {
      WithinZero(l - 1, n);
    }
  }

  lemma {:induction false} PrefixWithin(offset: nat, l: nat, n: nat)
    requires offset < n
    ensures Within(Prefix(offset, l), l, n)
    decreases l
  {
    if l == 0 {
    } else {
      PrefixWithin(offset, l - 1, n);
      WithinMonotonic(Prefix(offset, l - 1), l - 1, n, Prefix(offset, l) * 256, n);
    }
  }

  function NInodeBlocks(img: Image): nat
    requires |img| > 0
  {
    img[0][0]
  }

  function FreeList(img: Image): nat
    requires |img| > 0
  {
    img[0][1]
  }

  /** The superblock, the inode blocks and the block numbers fit. */
  predicate Formatted(img: Image) {
    0 < |img| < WORD_LIMIT && 1 + NInodeBlocks(img) <= |img|
  }

  function NInodes(img: Image): nat
    requires |img| > 0
  {
    NInodeBlocks(img) * INODES_PER_BLOCK
  }

  function InodeBlockno(ino: nat): nat {
    1 + ino / INODES_PER_BLOCK
  }

  function InodeIndex(ino: nat): (i: nat)
    ensures i < 128
  {
    ino % INODES_PER_BLOCK
  }

  lemma InodeInRange(img: Image, ino: nat)
    requires Formatted(img) && ino < NInodes(img)
    ensures 1 <= InodeBlockno(ino) <= NInodeBlocks(img) && InodeBlockno(ino) < |img|
  {
  }

  datatype Inode = Inode(root: Word, nblocks: Word)

  function GetInode(block: Block, i: nat): Inode
    requires i < 128
  {
    Inode(block[2 * i], block[2 * i + 1])
  }

  function SetInode(block: Block, i: nat, inode: Inode): (b: Block)
    requires i < 128
    ensures GetInode(b, i) == inode
    ensures forall j | 0 <= j < 128 && j != i :: GetInode(b, j) == GetInode(block, j)
  {
    block[2 * i := inode.root][2 * i + 1 := inode.nblocks]
  }

  function InodeOf(img: Image, ino: nat): Inode
    requires Formatted(img) && ino < NInodes(img)
  {
    GetInode(img[InodeBlockno(ino)], InodeIndex(ino))
  }

  /** The image after changing one inode. */
  function WithInode(img: Image, ino: nat, inode: Inode): (img': Image)
    requires Formatted(img) && ino < NInodes(img)
    ensures |img'| == |img| && Formatted(img') && NInodes(img') == NInodes(img)
    ensures img'[0] == img[0]
  {
    img[InodeBlockno(ino) := SetInode(img[InodeBlockno(ino)], InodeIndex(ino), inode)]
  }

  lemma InodeUpdated(img: Image, ino: nat, inode: Inode, other: nat)
    requires Formatted(img) && ino < NInodes(img) && other < NInodes(img)
    ensures InodeOf(WithInode(img, ino, inode), other) == if other == ino then inode else InodeOf(img, other)
  {
    InodeInRange(img, ino);
    InodeInRange(img, other);
    if other != ino && InodeBlockno(other) == InodeBlockno(ino) {
      assert InodeIndex(other) != InodeIndex(ino);
    }
  }

  /** The level of a file's root. */
  function Top(img: Image, ino: nat): nat
    requires Formatted(img) && ino < NInodes(img)
  {
    Levels(InodeOf(img, ino).nblocks)
  }

  /** The data block `offset` of a tree whose root is block `b`; block number 0 is a hole. */
  function BlockAt(img: Image, b: nat, l: nat, offset: nat): Block
    decreases l
  {
    if b == 0 || b >= |img| then NullBlock()
    else if l == 0 then img[b]
    else BlockAt(img, img[b][Digit(offset, l - 1)], l - 1, offset)
  }

  function FileBlocks(img: Image, inode: Inode): (f: seq<Block>)
    ensures |f| == inode.nblocks
    ensures forall k | 0 <= k < |f| :: f[k] == BlockAt(img, inode.root, Levels(inode.nblocks), k)
  {
    seq(inode.nblocks, k requires 0 <= k < inode.nblocks => BlockAt(img, inode.root, Levels(inode.nblocks), k))
  }

  function Contents(img: Image, ino: nat): seq<Block>
    requires Formatted(img) && ino < NInodes(img)
  {
    FileBlocks(img, InodeOf(img, ino))
  }

  /** The virtual block store that the image stands for. */
  function Files(img: Image): (v: Inodes)
    requires Formatted(img)
    ensures |v| == NInodes(img)
  {
    seq(NInodes(img), ino requires 0 <= ino < NInodes(img) => Contents(img, ino))
  }

  // ---------------------------------------------------------------- shifts

  /** The C operator `>>` on an unsigned value. */
  function ShiftR(x: nat, nbits: nat): nat {
    if nbits == 0 then x else ShiftR(x, nbits - 1) / 2
  }

  /** A shift right that yields 0 when it shifts out the whole word. */
  function LogShiftR(x: Word, nbits: nat): nat {
    if nbits >= 32 then 0 else ShiftR(x, nbits)
  }

  lemma {:induction false} ShiftByLevels(x: nat, l: nat)
    ensures ShiftR(x, 8 * l) == Prefix(x, l)
  {
    if l == 0 {
    } else {
      ShiftByLevels(x, l - 1);
      var n := 8 * (l - 1);
      assert ShiftR(x, n + 2) == ShiftR(x, n) / 4;
      assert ShiftR(x, n + 4) == ShiftR(x, n + 2) / 4;
      assert ShiftR(x, n + 6) == ShiftR(x, n + 4) / 4;
      assert ShiftR(x, n + 8) == ShiftR(x, n + 6) / 4;
    }
  }

  lemma CapacityFour()
    ensures Capacity(1) == 256 && Capacity(2) == 65536 && Capacity(3) == 0x100_0000 && Capacity(4) == WORD_LIMIT
  {
    assert Capacity(1) == 256 * Capacity(0);
    assert Capacity(2) == 256 * Capacity(1);
    assert Capacity(3) == 256 * Capacity(2);
    assert Capacity(4) == 256 * Capacity(3);
  }

  /** Shifting by whole levels finds the covering node. */
  lemma ShiftIsPrefix(x: Word, l: nat)
    ensures LogShiftR(x, l * 8) == Prefix(x, l)
    ensures Prefix(x, l) == 0 <==> x < Capacity(l)
  {
    PrefixLess(x, l, 1);
    if l >= 4 {
      CapacityFour();
      if l > 4 { CapacityGrows(4, l); }
    }
    ShiftByLevels(x, l);
  }

  /** The value of `max_capacity` after `k` rounds of the loop that looks for the level of a file. */
  function MaxCapacity(k: nat): Word {
    if k == 0 then 256 else MaxCapacity(k - 1) * 256 % WORD_LIMIT
  }

  lemma {:induction false} MaxCapacityIs(k: nat)
    ensures MaxCapacity(k) == if k <= 2 then Capacity(k + 1) else 0
  {
    CapacityFour();
    if k == 0 {
    } else {
      MaxCapacityIs(k - 1);
    }
  }

  /** That loop ends exactly for files of at most 2^24 blocks: beyond, the capacity wraps around to 0 for good. */
  lemma CapacityLoopEnds(n: Word)
    ensures (exists k :: MaxCapacity(k) >= n) <==> n <= 0x100_0000
  {
    CapacityFour();
    MaxCapacityIs(2);
    if n > 0x100_0000 {
      forall k: nat ensures MaxCapacity(k) < n {
        MaxCapacityIs(k);
        if k < 2 { CapacityGrows(k + 1, 3); }
      }
    }
  }

  /** For a file of 2^24 + 1 blocks no round ends it. */
  lemma LargeFileLoops(k: nat)
    ensures MaxCapacity(k) < 0x100_0001
  {
    CapacityFour();
    MaxCapacityIs(k);
    if k < 2 {
      CapacityGrows(k + 1, 3);
    }
  }

  /** log2 of the number of references per block. */
  const LOG_RPB := 8

  /** The levels of a tree whose last data block is `last`, found by shifting until nothing is left. */
  method CountLevels(last: Word) returns (nlevels: nat)
    ensures nlevels == Levels(last + 1)
  {
    nlevels := 0;
    ShiftIsPrefix(last, nlevels);
    while LogShiftR(last, nlevels * LOG_RPB) != 0
      invariant Levels(last + 1) == Levels(last + 1, nlevels)
      invariant LogShiftR(last, nlevels * LOG_RPB) == 0 <==> last < Capacity(nlevels)
      decreases last + 1 - Capacity(nlevels)
    {
      nlevels := nlevels + 1;
      ShiftIsPrefix(last, nlevels);
    }
  }
}
