/** The virtualized block store of block/treedisk.c, on one inode of the cache below. */
module TreeDisks {
  import opened Options
  import opened Blocks
  import opened ClockCache
  import opened TreeLayout
  import opened TreeInvariant
  import opened FreeLists
  import opened TreeSteps
  import opened TreeFree
  import opened TreeWrite

  /** How an operation ends.  On Panicked the whole system exits. */
  datatype Status = Done | Failed | Panicked

  /** The in-memory copies that an operation works on; `inode` is entry `index` of `inodeblock`. */
  class Snapshot {
    var superblock: Block
    var inodeblock: Block
    var inodeBlockno: nat
    var index: nat

    constructor ()
    {
      superblock, inodeblock, inodeBlockno, index := NullBlock(), NullBlock(), 0, 0;
    }
  }

  class TreeDisk {
    const below: ClockDisk
    const belowIno: nat
    ghost var img: Image  // the blocks of that inode
    ghost var at: Roles   // what every block is for

    ghost function Repr(): set<object> {
      {this} + below.Repr()
    }

    ghost predicate Apart(s: Snapshot) {
      s as object !in Repr()
    }

    /** The cache below is intact and its inode holds the image. */
    ghost predicate Mounted()
      reads this`img, below.Repr()
    {
      below.Valid() && belowIno < |below.Inodes()| && below.Inodes()[belowIno] == img
    }

    ghost predicate Valid()
      reads Repr()
    {
      Mounted() && Inv(img, at) && NoLimbo(at) && RootsSet(img)
    }

    /** The block store that the tree disk presents to the layer above. */
    ghost function Inodes(): Inodes
      requires Valid()
      reads Repr()
    {
      Files(img)
    }

    constructor (below: ClockDisk, belowIno: nat, ghost at: Roles)
      requires below.Valid() && belowIno < |below.Inodes()|
      requires Inv(below.Inodes()[belowIno], at) && NoLimbo(at) && RootsSet(below.Inodes()[belowIno])
      ensures Valid() && this.below == below && this.belowIno == belowIno && this.at == at
      ensures Inodes() == Files(below.Inodes()[belowIno])
    {
      this.below := below;
      this.belowIno := belowIno;
      this.img := below.Inodes()[belowIno];
      this.at := at;
    }

    /** Accesses to the store below stay in range, so that they never fail. */
    method ReadBelow(offset: nat) returns (block: Block)
      requires Mounted() && offset < |img|
      modifies below.Repr()
      ensures Mounted() && block == img[offset]
    {
      var r := below.Read(belowIno, offset);
      block := r.value;
    }

    method WriteBelow(offset: nat, block: Block)
      requires Mounted() && offset < |img|
      modifies below.Repr(), this`img
      ensures Mounted() && img == old(img)[offset := block]
    {
      var _ := below.Write(belowIno, offset, block);
      img := below.Inodes()[belowIno];
    }

    /** The superblock and the inode block of a file; it fails when the inode number is too large. */
    method GetSnapshot(s: Snapshot, ino: nat) returns (ok: bool)
      requires Apart(s) && Mounted() && Formatted(img)
      modifies below.Repr(), s
      ensures Mounted()
      ensures ok <==> ino < NInodes(img)
      ensures s.superblock == img[0]
      ensures ok ==> s.inodeBlockno == InodeBlockno(ino) < |img| && s.index == InodeIndex(ino)
                     && s.inodeblock == img[InodeBlockno(ino)]
    {
      s.superblock := ReadBelow(0);
      if ino >= s.superblock[0] * INODES_PER_BLOCK {
        return false;
      }
      InodeInRange(img, ino);
      s.inodeBlockno := 1 + ino / INODES_PER_BLOCK;
      s.inodeblock := ReadBelow(s.inodeBlockno);
      s.index := ino % INODES_PER_BLOCK;
      ok := true;
    }

    // -------------------------------------------------------------- the free list

    /** Takes a block off the free list: the last slot in use of its head, or else the head itself.
        It panics when the free list is empty. */
    method AllocBlock(s: Snapshot) returns (b: nat, full: bool)
      requires Apart(s) && Mounted() && Readable(img) && s.superblock == img[0]
      modifies below.Repr(), this`img, s`superblock
      ensures b == TakenBlock(old(img)) && (full <==> b == 0)
      ensures Mounted() && img == TakenImage(old(img)) && s.superblock == img[0]
    {
      b := s.superblock[1];
      if b == 0 {
        return b, true;
      }
      full := false;
      var freelistblock: Block := ReadBelow(b);
      var i := 256;
      while true
        invariant 1 <= i <= 256
        invariant LastSlot(freelistblock) == LastSlot(freelistblock, i)
        decreases i
      {
        i := i - 1;
        if i == 0 || freelistblock[i] != 0 {
          break;
        }
      }
      if i == 0 {
        s.superblock := s.superblock[1 := freelistblock[0]];
        WriteBelow(0, s.superblock);
      } else {
        var head := b;
        b := freelistblock[i];
        freelistblock := freelistblock[i := 0];
        WriteBelow(head, freelistblock);
      }
    }

    /** Puts a block on the free list: into the first empty slot of its head, or else as its new head. */
    method FreeBlock(s: Snapshot, target: nat)
      requires Apart(s) && Mounted() && Readable(img) && 0 < target < |img| && target != FreeList(img)
      requires s.superblock == img[0]
      modifies below.Repr(), this`img, s`superblock
      ensures Mounted() && img == FreedImage(old(img), target) && s.superblock == img[0]
    {
      hide Inv;
      WriteBelow(target, NullBlock());
      var b := s.superblock[1];
      if b == 0 {
        s.superblock := s.superblock[1 := target];
        WriteBelow(0, s.superblock);
        return;
      }
      var freelistblock: Block := ReadBelow(b);
      var i := 1;
      while i < 256
        invariant 1 <= i <= 256
        invariant EmptySlot(freelistblock) == EmptySlot(freelistblock, i)
      {
        if freelistblock[i] == 0 {
          break;
        }
        i := i + 1;
      }
      assert freelistblock == old(img)[b];
      if i != 256 {
        freelistblock := freelistblock[i := target];
        WriteBelow(b, freelistblock);
        assert img == SlotImage(old(img), target, i);
      } else {
        s.superblock := s.superblock[1 := target];
        WriteBelow(0, s.superblock);
        WriteBelow(target, NullBlock()[0 := b]);
        assert img == HeadImage(old(img), target);
      }
    }

    // -------------------------------------------------------------- freeing a file

    /** Frees block `b`, a node of file `ino` at height `level - currLevel`, with all that is below it. */
    method RecursiveFree(level: nat, currLevel: nat, b: nat, s: Snapshot, ghost ino: nat, ghost q: nat)
      requires Apart(s) && Mounted() && currLevel <= level
      requires TreeAt(img, at, ino, level - currLevel, q, b) && s.superblock == img[0]
      modifies below.Repr(), this`img, this`at, s`superblock
      ensures Mounted() && |img| > 0 && s.superblock == img[0]
      ensures TreeFreed(old(img), img, old(at), at, ino, level - currLevel, q)
      decreases level - currLevel, 1
    {
      if level == currLevel {
        FreeStart(img, at, ino, 0, q);
      } else {
        FreeEntries(level, currLevel, b, s, ino, q);
      }
      FreeSelf(b, s, old(img), old(at), ino, level - currLevel, q);
    }

    /** Frees what entry `i` of indirect block `b` refers to. */
    method FreeChild(level: nat, currLevel: nat, child: nat, s: Snapshot,
                     ghost img0: Image, ghost at0: Roles, ghost ino: nat, ghost q: nat, ghost b: nat, ghost i: nat)
      requires Apart(s) && Mounted() && currLevel < level && |img| > 0 && s.superblock == img[0]
      requires TreeAt(img0, at0, ino, level - currLevel, q, b) && i < 256 && img0[b][i] == child != 0
      requires Freeing(img0, img, at0, at, ino, level - currLevel, q, i)
      modifies below.Repr(), this`img, this`at, s`superblock
      ensures Mounted() && |img| > 0 && s.superblock == img[0]
      ensures Freeing(img0, img, at0, at, ino, level - currLevel, q, i + 1)
      decreases level - currLevel - 1, 2
    {
      ghost var l := level - currLevel;
      ChildReady(img0, img, at0, at, ino, l, q, b, i);
      RecursiveFree(level, currLevel + 1, child, s, ino, q * 256 + i);
      FreeEntry(img0, old(img), img, at0, old(at), at, ino, l, q, i);
    }

    /** Frees block `b` itself, the last of its tree. */
    method FreeSelf(b: nat, s: Snapshot, ghost img0: Image, ghost at0: Roles, ghost ino: nat, ghost l: nat, ghost q: nat)
      requires Apart(s) && Mounted() && |img| > 0 && s.superblock == img[0]
      requires TreeAt(img0, at0, ino, l, q, b) && Freeing(img0, img, at0, at, ino, l, q, 256)
      modifies below.Repr(), this`img, this`at, s`superblock
      ensures Mounted() && |img| > 0 && s.superblock == img[0]
      ensures TreeFreed(img0, img, at0, at, ino, l, q)
    {
      FreeNode(img0, img, at0, at, ino, l, q, b);
      at := FreedRoles(img, at, b);
      FreeBlock(s, b);
    }

    /** Frees what the entries of indirect block `b` refer to. */
    method FreeEntries(level: nat, currLevel: nat, b: nat, s: Snapshot, ghost ino: nat, ghost q: nat)
      requires Apart(s) && Mounted() && currLevel < level
      requires TreeAt(img, at, ino, level - currLevel, q, b) && s.superblock == img[0]
      modifies below.Repr(), this`img, this`at, s`superblock
      ensures Mounted() && |img| > 0 && s.superblock == img[0]
      ensures Freeing(old(img), img, old(at), at, ino, level - currLevel, q, 256)
      decreases level - currLevel, 0
    {
      hide Inv;
      ghost var l := level - currLevel;
      FreeStart(img, at, ino, l, q);
      var indirblock: Block := ReadBelow(b);
      var i := 0;
      while i < 256
        invariant 0 <= i <= 256
        invariant Mounted() && |img| > 0 && s.superblock == img[0]
        invariant Freeing(old(img), img, old(at), at, ino, l, q, i)
      {
        if indirblock[i] != 0 {
          FreeChild(level, currLevel, indirblock[i], s, old(img), old(at), ino, q, b, i);
        } else {
          NoChild(old(img), img, old(at), at, ino, l, q, b, i);
        }
        i := i + 1;
      }
    }

    /** Frees all blocks of a file.  Its inode is left to the caller. */
    method FreeFile(s: Snapshot, ghost ino: nat)
      requires Apart(s) && Mounted() && Inv(img, at) && s.superblock == img[0]
      requires ino < NInodes(img) && s.index < 128 && GetInode(s.inodeblock, s.index) == InodeOf(img, ino)
      requires InodeOf(img, ino).root == 0 <==> InodeOf(img, ino).nblocks == 0
      requires InodeOf(img, ino).nblocks <= 0x100_0000  // else the search for the level does not end
      modifies below.Repr(), this`img, this`at, s`superblock
      ensures Mounted()
      ensures InodeOf(old(img), ino).nblocks == 0 ==> img == old(img) && at == old(at)
      ensures InodeOf(old(img), ino).nblocks > 0 ==>
        TreeFreed(old(img), img, old(at), at, ino, Top(old(img), ino), 0)
    {
      var inode := GetInode(s.inodeblock, s.index);
      if inode.nblocks == 0 {
        return;
      }
      FileTree(img, at, ino);
      if inode.nblocks == 1 {
        LevelsIs(1, 0);
        FreeStart(img, at, ino, 0, 0);
        FreeSelf(inode.root, s, img, at, ino, 0, 0);
        return;
      }
      var level := 1;
      var maxCapacity: Word := 256;
      CapacityFour();
      while maxCapacity < inode.nblocks
        invariant 1 <= level <= 3 && maxCapacity == Capacity(level) && Capacity(level - 1) < inode.nblocks
        decreases 3 - level
      {
        assert level < 3;
        level := level + 1;
        maxCapacity := maxCapacity * 256 % WORD_LIMIT;
      }
      LevelsIs(inode.nblocks, level);
      RecursiveFree(level, 0, inode.root, s, ino, 0);
    }

    // -------------------------------------------------------------- the operations

    method GetNInodes() returns (n: nat)
      requires Valid()
      modifies below.Repr()
      ensures Valid() && img == old(img) && n == |Inodes()|
    {
      var superblock: Block := ReadBelow(0);
      n := superblock[0] * INODES_PER_BLOCK;
    }

    method GetSize(ino: nat) returns (size: int)
      requires Valid()
      modifies below.Repr()
      ensures Valid() && img == old(img)
      ensures size == if ino < |Inodes()| then |Inodes()[ino]| else -1
    {
      var s := new Snapshot();
      var ok := GetSnapshot(s, ino);
      if !ok {
        return -1;
      }
      size := GetInode(s.inodeblock, s.index).nblocks;
    }

    /** Truncates a file to nothing; no other new size is supported.  Exactly the blocks of that file
        become free, and no other file changes. */
    method SetSize(ino: nat, nblocks: Word) returns (r: int)
      requires Valid() && ino < |Inodes()| && |Inodes()[ino]| <= 0x100_0000
      modifies Repr()
      ensures Valid()
      ensures nblocks == |old(Inodes())[ino]| ==> r == nblocks && Inodes() == old(Inodes()) && at == old(at)
      ensures 0 < nblocks != |old(Inodes())[ino]| ==> r == -1 && Inodes() == old(Inodes()) && at == old(at)
      ensures nblocks == 0 < |old(Inodes())[ino]| ==>
        && r == |old(Inodes())[ino]| && Inodes() == old(Inodes())[ino := []]
        && |at| == |old(at)|
        && forall c | 0 <= c < |at| :: IsFree(at[c]) <==> IsFree(old(at)[c]) || (old(at)[c].Node? && old(at)[c].ino == ino)
    {
      var s := new Snapshot();
      var _ := GetSnapshot(s, ino);
      var inode := GetInode(s.inodeblock, s.index);
      if nblocks == inode.nblocks {
        return nblocks;
      }
      if nblocks > 0 {
        return -1;
      }
      var oldsize := inode.nblocks;
      FreeFile(s, ino);
      FileFreed(old(img), img, old(at), at, ino);
      Truncated(old(img), img, old(at), at, ino);
      s.inodeblock := SetInode(s.inodeblock, s.index, Inode(0, 0));
      WriteBelow(s.inodeBlockno, s.inodeblock);
      r := oldsize;
    }

    /** Reads a block of a file; a hole reads as null bytes. */
    method Read(ino: nat, offset: Word) returns (r: Option<Block>)
      requires Valid()
      modifies below.Repr()
      ensures Valid() && img == old(img)
      ensures r == if InRange(Inodes(), ino, offset) then Some(Inodes()[ino][offset]) else None
    {
      var s := new Snapshot();
      var ok := GetSnapshot(s, ino);
      if !ok {
        return None;
      }
      var inode := GetInode(s.inodeblock, s.index);
      if offset >= inode.nblocks {
        return None;
      }
      var nlevels := CountLevels(inode.nblocks - 1);
      PathStart(img, at, ino, offset);
      var block := FollowPath(inode.root, nlevels, ino, offset);
      r := Some(block);
    }

    /** Walks down from node `root` to a data block; below a hole there are null bytes. */
    method FollowPath(root: nat, levels: nat, ghost ino: nat, offset: Word) returns (block: Block)
      requires Mounted() && Inv(img, at) && OnPath(img, at, ino, root, levels)
      modifies below.Repr()
      ensures Mounted() && block == BlockAt(img, root, levels, offset)
    {
      var b: nat, nlevels: nat := root, levels;
      while true
        invariant Mounted() && OnPath(img, at, ino, b, nlevels)
        invariant BlockAt(img, b, nlevels, offset) == BlockAt(img, root, levels, offset)
        decreases nlevels
      {
        if b == 0 {
          return NullBlock();
        }
        block := ReadBelow(b);
        if nlevels == 0 {
          return;
        }
        nlevels := nlevels - 1;
        PathStep(img, at, ino, b, nlevels, offset);
        var index := LogShiftR(offset, nlevels * LOG_RPB) % REFS_PER_BLOCK;
        b := block[index];
      }
    }

    /** Puts one indirect block above the root; the inode changes in memory only. */
    method GrowOne(s: Snapshot, ghost ino: nat, ghost offset: Word, ghost from: nat, ghost l: nat, ghost n: Word,
                   ghost img0: Image, ghost at0: Roles) returns (full: bool)
      requires Apart(s) && Mounted() && |img| > 0 && s.superblock == img[0]
      requires InodeBlockno(ino) < |img| && s.index == InodeIndex(ino)
      requires Growing(img0, Virtual(img, s.inodeblock, ino, n), at0, at, ino, offset, from, l)
      requires l < Levels(offset + 1) && offset + 1 < WORD_LIMIT
      modifies below.Repr(), this`img, this`at, s`superblock, s`inodeblock
      ensures full <==> FreeCount(old(at)) == 0
      ensures !full ==>
        && Mounted() && |img| == |old(img)| && s.superblock == img[0]
        && GetInode(s.inodeblock, s.index).nblocks == old(GetInode(s.inodeblock, s.index).nblocks)
        && Growing(img0, Virtual(img, s.inodeblock, ino, NextSize(offset, l)), at0, at, ino, offset, from, l + 1)
    {
      hide Inv, RoleOk, Files, Prepared, FreeCount;
      VirtualRound(img0, img, s.inodeblock, n, at0, at, ino, offset, from, l);
      var indir;
      indir, full := AllocBlock(s);
      if full {
        return;
      }
      var inode := GetInode(s.inodeblock, s.index);
      var tib: Block := NullBlock()[0 := inode.root];
      s.inodeblock := SetInode(s.inodeblock, s.index, inode.(root := indir));
      WriteBelow(indir, tib);
      at := RootedAt(at, ino, l, indir, inode.root);
    }

    /** Puts indirect blocks above the root until the file has `to` levels. */
    method Grow(s: Snapshot, ghost ino: nat, offset: Word, from: nat, to: nat) returns (full: bool)
      requires Apart(s) && Mounted() && Inv(img, at) && NoLimbo(at) && s.superblock == img[0]
      requires ino < NInodes(img) && s.index == InodeIndex(ino) && offset + 1 < WORD_LIMIT
      requires InodeOf(img, ino).nblocks <= offset && from == Top(img, ino) && to == Levels(offset + 1)
      requires InodeBlockno(ino) < |img|
      requires s.inodeblock == SetInode(img[InodeBlockno(ino)], s.index, InodeOf(img, ino).(nblocks := offset + 1))
      modifies below.Repr(), this`img, this`at, s`superblock, s`inodeblock
      ensures full <==> FreeCount(old(at)) < to - from
      ensures !full ==>
        && Mounted() && |img| == |old(img)| && s.superblock == img[0] && InodeBlockno(ino) < |img|
        && Prepared(old(img), img[InodeBlockno(ino) := s.inodeblock], old(at), at, ino, offset)
    {
      hide Prepared, FreeCount, Top, RoleOk, Files, Levels;
      ghost var n: Word := InodeOf(img, ino).nblocks;
      var nlevels: nat := from;
      VirtualStart(img, s.inodeblock, ino, offset + 1);
      GrowStart(img, at, ino, offset);
      while nlevels < to
        invariant from <= nlevels && Mounted() && |img| == |old(img)| && s.superblock == img[0]
        invariant GetInode(s.inodeblock, s.index).nblocks == offset + 1
        invariant Growing(old(img), Virtual(img, s.inodeblock, ino, n), old(at), at, ino, offset, from, nlevels)
        invariant nlevels == from ==> img == old(img) && at == old(at) && Virtual(img, s.inodeblock, ino, n) == img
      {
        full := GrowOne(s, ino, offset, from, nlevels, n, old(img), old(at));
        if full {
          return;
        }
        n := NextSize(offset, nlevels);
        nlevels := nlevels + 1;
      }
      GrowEnd(old(img), Virtual(img, s.inodeblock, ino, n), old(at), at, ino, offset);
      VirtualIsWritten(img, s.inodeblock, ino, n, offset + 1);
      full := false;
    }

    /** Allocates the node that belongs at entry `parentNo` of a block and writes that block back. */
    method TakeNode(s: Snapshot, ghost ino: nat, ghost offset: nat, ghost l: nat,
                    parentOff: nat, parentBlock: Block, parentNo: nat, ghost img0: Image, ghost at0: Roles)
      returns (full: bool, node: nat, linked: Block)
      requires Apart(s) && Mounted() && |img| > 0 && s.superblock == img[0]
      requires parentOff < |img| && parentNo < 256 && parentBlock[parentNo] == 0
      requires Walking(img0, img[parentOff := parentBlock], at0, at, ino, offset, l, parentOff, parentNo)
      modifies below.Repr(), this`img, this`at, s`superblock
      ensures full <==> FreeCount(old(at)) == 0
      ensures !full ==>
        && Mounted() && |img| == |old(img)| && s.superblock == img[0] && 0 < node < |img|
        && (l > 0 ==> Walking(img0, img[node := NullBlock()], at0, at, ino, offset, l - 1, node, Digit(offset, l - 1)))
        && (l == 0 ==> Landed(img0, img[node := NullBlock()], at0, at, ino, offset, node))
    {
      hide Inv, RoleOk, Files, Prepared, FreeCount;
      TakeStep(img0, img, parentBlock, at0, at, ino, offset, l, parentOff, parentNo);
      ghost var role := PlaceRole(img[parentOff := parentBlock], ino, offset, l, parentOff);
      linked := parentBlock;
      node, full := AllocBlock(s);
      if full {
        return;
      }
      linked := parentBlock[parentNo := node];
      WriteBelow(parentOff, linked);
      at := at[node := role];
    }

    /** Goes from entry `parentNo` of a block to the node it names, which is allocated if there is none. */
    method Visit(s: Snapshot, ghost ino: nat, ghost offset: nat, ghost l: nat,
                 parentOff: nat, parentBlock: Block, parentNo: nat, ghost img0: Image, ghost at0: Roles)
      returns (full: bool, node: nat, linked: Block)
      requires Apart(s) && Mounted() && |img| > 0 && s.superblock == img[0]
      requires parentOff < |img| && parentNo < 256 && (parentBlock == img[parentOff] || parentBlock[parentNo] == 0)
      requires Walking(img0, img[parentOff := parentBlock], at0, at, ino, offset, l, parentOff, parentNo)
      modifies below.Repr(), this`img, this`at, s`superblock
      ensures full <==> parentBlock[parentNo] == 0 && FreeCount(old(at)) == 0
      ensures !full ==>
        && Mounted() && |img| == |old(img)| && s.superblock == img[0] && 0 < node < |img|
        && var img1 := if parentBlock[parentNo] == 0 then img[node := NullBlock()] else img;
        && (l > 0 ==> Walking(img0, img1, at0, at, ino, offset, l - 1, node, Digit(offset, l - 1)))
        && (l == 0 ==> Landed(img0, img1, at0, at, ino, offset, node))
    {
      hide Inv, RoleOk, Files, Walking, Landed, FreeCount;
      node, linked, full := parentBlock[parentNo], parentBlock, false;
      if node == 0 {
        full, node, linked := TakeNode(s, ino, offset, l, parentOff, parentBlock, parentNo, img0, at0);
      } else {
        assert img[parentOff := parentBlock] == img;
        Descend(img0, img, at0, at, ino, offset, l, parentOff, parentNo);
      }
    }

    /** Walks down to data block `offset`, allocating the nodes that are missing, and writes it. */
    method Walk(s: Snapshot, ghost ino: nat, offset: Word, block: Block, levels: nat)
      returns (full: bool, b: nat, ghost landed: Image)
      requires Apart(s) && Mounted() && Inv(img, at) && NoLimbo(at) && s.superblock == img[0]
      requires ino < NInodes(img) && offset < InodeOf(img, ino).nblocks && levels == Top(img, ino)
      requires s.index == InodeIndex(ino) && s.inodeBlockno == InodeBlockno(ino) < |img|
      requires s.inodeblock == img[s.inodeBlockno]
      modifies below.Repr(), this`img, this`at, s`superblock
      ensures full <==> FreeCount(old(at)) < Missing(old(img), InodeOf(old(img), ino).root, levels, offset)
      ensures !full ==> Mounted() && Landed(old(img), landed, old(at), at, ino, offset, b) && img == landed[b := block]
    {
      hide Inv, RoleOk, Walking, Landed, FreeCount, Missing, Files, Mounted, Formatted, Top, Apart;
      var nlevels: nat := levels;
      var parentOff: nat, parentNo: nat := s.inodeBlockno, 2 * s.index;
      var parentBlock: Block := s.inodeblock;
      b, landed := 0, img;
      WalkStart(img, at, ino, offset);
      assert img[parentOff := parentBlock] == img;
      while true
        invariant Mounted() && |img| == |old(img)| && |img| > 0 && s.superblock == img[0]
        invariant parentOff < |img| && parentNo < 256 && (parentBlock == img[parentOff] || parentBlock[parentNo] == 0)
        invariant Walking(old(img), img[parentOff := parentBlock], old(at), at, ino, offset, nlevels, parentOff, parentNo)
        decreases nlevels
      {
        WalkingNeeds(old(img), img[parentOff := parentBlock], old(at), at, ino, offset, nlevels, parentOff, parentNo);
        var created := parentBlock[parentNo] == 0;
        full, b, parentBlock := Visit(s, ino, offset, nlevels, parentOff, parentBlock, parentNo, old(img), old(at));
        if full {
          return;
        }
        if nlevels == 0 {
          landed := if created then img[b := NullBlock()] else img;
          break;
        }
        var tib: Block := NullBlock();
        if !created {
          tib := ReadBelow(b);
          assert img[b := tib] == img;
        }
        nlevels := nlevels - 1;
        ShiftIsPrefix(offset, nlevels);
        parentNo := LogShiftR(offset, nlevels * LOG_RPB) % REFS_PER_BLOCK;
        parentBlock := tib;
        parentOff := b;
      }
      WriteBelow(b, block);
      LandedNeeds(old(img), landed, old(at), at, ino, offset, b);
    }

    /** Makes room for block `offset` past the end of a file: the new size, and the levels it needs. */
    method Extend(s: Snapshot, ghost ino: nat, offset: Word, nlevels: nat) returns (full: bool, nlevelsAfter: nat)
      requires Apart(s) && Mounted() && Inv(img, at) && NoLimbo(at) && s.superblock == img[0]
      requires ino < NInodes(img) && InodeOf(img, ino).nblocks <= offset && offset + 1 < WORD_LIMIT
      requires nlevels == Top(img, ino)
      requires s.index == InodeIndex(ino) && s.inodeBlockno == InodeBlockno(ino) < |img|
      requires s.inodeblock == img[s.inodeBlockno]
      modifies below.Repr(), this`img, this`at, s`superblock, s`inodeblock
      ensures full ==> FreeCount(old(at)) < Needed(old(img), ino, offset)
      ensures !full ==>
        && Mounted() && |img| == |old(img)| && s.superblock == img[0]
        && s.inodeBlockno < |img| && s.inodeblock == img[s.inodeBlockno]
        && Prepared(old(img), img, old(at), at, ino, offset) && nlevelsAfter == Top(img, ino)
    {
      hide Inv, Kept;
      s.inodeblock := SetInode(s.inodeblock, s.index, GetInode(s.inodeblock, s.index).(nblocks := offset + 1));
      nlevelsAfter := CountLevels(offset);
      full := Grow(s, ino, offset, nlevels, nlevelsAfter);
      if full {
        return;
      }
      PreparedSize(old(img), img[s.inodeBlockno := s.inodeblock], old(at), at, ino, offset);
      WriteBelow(s.inodeBlockno, s.inodeblock);
    }

    /** Makes a file long enough for block `offset`, and finds the number of its levels. */
    method MakeRoom(s: Snapshot, ghost ino: nat, offset: Word) returns (full: bool, nlevels: nat)
      requires Apart(s) && Valid() && s.superblock == img[0] && ino < NInodes(img) && offset + 1 < WORD_LIMIT
      requires s.index == InodeIndex(ino) && s.inodeBlockno == InodeBlockno(ino) < |img| && s.inodeblock == img[s.inodeBlockno]
      modifies below.Repr(), this`img, this`at, s`superblock, s`inodeblock
      ensures full ==> FreeCount(old(at)) < Needed(old(img), ino, offset)
      ensures !full ==>
        && Mounted() && |img| == |old(img)| && s.superblock == img[0]
        && s.inodeBlockno < |img| && s.inodeblock == img[s.inodeBlockno]
        && Prepared(old(img), img, old(at), at, ino, offset) && nlevels == Top(img, ino)
    {
      hide RoleOk, Prepared, FreeCount, Needed, Missing, Files;
      var inode := GetInode(s.inodeblock, s.index);
      nlevels := 0;
      LevelsIs(0, 0);
      if inode.nblocks > 0 {
        nlevels := CountLevels(inode.nblocks - 1);
      }
      full := false;
      if offset >= inode.nblocks {
        full, nlevels := Extend(s, ino, offset, nlevels);
      } else {
        PreparedInside(img, at, ino, offset);
      }
    }

    /** Writes a block of a file, which grows if need be; the blocks skipped over are holes.  No other
        block of any file changes.  The system panics exactly when there are fewer free blocks than the
        write takes. */
    method Write(ino: nat, offset: Word, block: Block) returns (r: Status)
      requires Valid() && offset + 1 < WORD_LIMIT
      modifies Repr()
      ensures r == Failed <==> ino >= |old(Inodes())|
      ensures r == Panicked <==> ino < |old(Inodes())| && FreeCount(old(at)) < Needed(old(img), ino, offset)
      ensures r == Failed ==> Valid() && img == old(img) && at == old(at)
      ensures r == Done ==> Valid() && Inodes() == Written(old(Inodes()), ino, offset, block)
      ensures r == Done ==> FreeCount(at) == FreeCount(old(at)) - Needed(old(img), ino, offset)
    {
      hide Inv, RoleOk, Prepared, Landed, FreeCount, Needed, Missing, Files, Written, RootsSet, NoLimbo, Formatted;
      var s := new Snapshot();
      InvFormatted(img, at);
      var ok := GetSnapshot(s, ino);
      if !ok {
        return Failed;
      }
      var full, nlevels := MakeRoom(s, ino, offset);
      if full {
        return Panicked;
      }
      ghost var img1, at1 := img, at;
      PreparedReady(old(img), img, old(at), at, ino, offset);
      var b;
      ghost var landed;
      full, b, landed := Walk(s, ino, offset, block, nlevels);
      if full {
        return Panicked;
      }
      LandedNeeds(img1, landed, at1, at, ino, offset, b);
      WriteEnd(old(img), img1, landed, old(at), at1, at, ino, offset, b, block);
      r := Done;
    }
  }
}
