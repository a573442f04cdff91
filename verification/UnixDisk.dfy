/** The unix-style file system of block/unixdisk.c on inode 0 of a block store. */
module UnixDisks {
  import opened Options
  import opened Blocks
  import opened UnixLayout
  import opened UnixLists
  import opened UnixFiles
  import opened UnixInvariant
  import opened UnixGrow
  import opened UnixEffects
  import opened UnixShrink
  import opened UnixCount

  /** What an operation has in memory: the superblock, and the inode block of its file. */
  class Snapshot {
    var superblock: Block
    var inodeblock: Block
    var inodeBlockno: nat
    var index: nat

    constructor ()
    {
      superblock, inodeblock, inodeBlockno, index := NullBlock(), NullBlock(), 0, 0;
    }
  }

  class UnixDisk {
    const below: Store
    ghost var disk: Disk

    ghost function Img(): Image
      reads below
    {
      if |below.inodes| > 0 then below.inodes[0] else []
    }

    ghost predicate Valid()
      reads this, below
    {
      |below.inodes| > 0 && Inv(Img(), disk)
    }

    /** The files as the layer above sees them. */
    ghost function Inodes(): Inodes
      requires Valid()
      reads this, below
    {
      FilesOf(Img(), disk)
    }

    /** Opens the file system that is there. */
    constructor (below: Store, ghost disk: Disk)
      requires |below.inodes| > 0 && Inv(below.inodes[0], disk)
      ensures this.below == below && this.disk == disk && Valid()
    {
      this.below := below;
      this.disk := disk;
    }

    method ReadBelow(a: nat) returns (block: Block)
      requires a < |Img()|
      ensures block == Img()[a]
    {
      var r := below.Read(0, a);
      block := r.value;
    }

    method WriteBelow(a: nat, block: Block)
      requires a < |Img()|
      modifies below
      ensures |below.inodes| > 0 && Img() == old(Img())[a := block]
    {
      var _ := below.Write(0, a, block);
    }

    /** The superblock and the inode block of a file; it fails when the inode number is too large. */
    method GetSnapshot(s: Snapshot, ino: nat) returns (ok: bool)
      requires Formatted(Img())
      modifies s
      ensures ok <==> ino < NInodes(Img())
      ensures s.superblock == Img()[0]
      ensures ok ==> InodeBlockno(ino) < |Img()| && s.inodeBlockno == InodeBlockno(ino) && s.index == ino % INODES_PER_BLOCK
                     && s.inodeblock == Img()[InodeBlockno(ino)]
    {
      s.superblock := ReadBelow(0);
      if ino >= s.superblock[0] * INODES_PER_BLOCK {
        return false;
      }
      s.inodeBlockno := 1 + ino / INODES_PER_BLOCK;
      s.inodeblock := ReadBelow(s.inodeBlockno);
      s.index := ino % INODES_PER_BLOCK;
      ok := true;
    }

    // -------------------------------------------------------------- the free list

    /** Takes a block off the free list: the last entry of its head, or the head itself.  An empty list yields the
        number that stands for none. */
    method PopFree(s: Snapshot) returns (next: Word)
      requires |Img()| > 0 && s.superblock[2] <= 254
      modifies below, s`superblock
      ensures |below.inodes| > 0 && |Img()| == |old(Img())| && s.superblock[2] <= 254
      ensures old(Formatted(Img()) && s.superblock == Img()[0]) ==>
        next == TakenBlock(old(Img())) && Img() == TakenImage(old(Img())) && s.superblock == Img()[0]
      ensures old(s.superblock)[1] == NONE ==> next == NONE && Img() == old(Img()) && s.superblock == old(s.superblock)
    {
      if s.superblock[1] == NONE {
        return NONE;
      }
      var freeList := (s.superblock[1] + 1 + s.superblock[0]) % WORD_LIMIT;
      var r := below.Read(0, freeList);
      if r.None? {
        return NONE;
      }
      var freeHead: Block := r.value;
      if s.superblock[2] > 0 {
        s.superblock := s.superblock[2 := s.superblock[2] - 1];
        next := freeHead[2 + s.superblock[2]];
      } else {
        next := s.superblock[1];
        s.superblock := s.superblock[1 := freeHead[1]][2 := ENTRIES_PER_FREE_BLOCK];
      }
      assert Formatted(Img()) && old(s.superblock) == Img()[0] ==> s.superblock == TakenImage(Img())[0];
      WriteBelow(0, s.superblock);
    }

    /** Puts a block on the free list: into the next entry of its head, or as the new head. */
    method PushFree(s: Snapshot, b: Word)
      requires Readable(Img()) && b < NData(Img()) && s.superblock == Img()[0]
      modifies below, s`superblock
      ensures Img() == GivenImage(old(Img()), b) && s.superblock == Img()[0] && |below.inodes| > 0
    {
      ghost var img := Img();
      var freeList := (s.superblock[1] + 1 + s.superblock[0]) % WORD_LIMIT;
      var freeHead: Block := ReadBelow(freeList);
      if s.superblock[2] < ENTRIES_PER_FREE_BLOCK {
        freeHead := freeHead[2 + s.superblock[2] := b];
        s.superblock := s.superblock[2 := s.superblock[2] + 1];
        WriteBelow(freeList, freeHead);
        assert s.superblock == SuperImage(Img(), FreeList(img), FreeOffset(img) + 1)[0];
        WriteBelow(0, s.superblock);
      } else {
        freeHead := freeHead[1 := s.superblock[1]];
        s.superblock := s.superblock[1 := b][2 := 0];
        WriteBelow(b + 1 + s.superblock[0], freeHead);
        assert s.superblock == SuperImage(Img(), b, 0)[0];
        WriteBelow(0, s.superblock);
      }
    }

    // -------------------------------------------------------------- allocation

    /** What holds in memory and on disk whether there are enough blocks or not. */
    ghost predicate Loose(s: Snapshot, n: nat)
      reads s, below
    {
      |below.inodes| > 0 && |Img()| == n > 0 && s.superblock[2] <= 254 && s.index < INODES_PER_BLOCK
    }

    /** While file `ino` grows.  Without room for all its new blocks nothing is known of the files. */
    ghost predicate Going(s: Snapshot, img0: Image, d0: Disk, ino: nat, room: bool)
      reads this, s, below
    {
      && Loose(s, |img0|)
      && (room ==> Growing(img0, Img(), d0, disk, ino) && s.superblock == Img()[0])
    }

    ghost predicate Room(d0: Disk, ino: nat, offset: nat) {
      ino < |d0.files| && Total(offset + 1) <= |d0.stack| + Used(d0.files[ino])
    }

    method ReadData(s: Snapshot, b: Word) returns (r: Option<Block>)
      requires |Img()| > 0
      ensures Formatted(Img()) && b < NData(Img()) && s.superblock == Img()[0] ==> r == Some(DataBlock(Img(), b))
    {
      r := below.Read(0, (b + 1 + s.superblock[0]) % WORD_LIMIT);
    }

    method WriteData(s: Snapshot, b: Word, block: Block) returns (ok: bool)
      requires |Img()| > 0
      modifies below
      ensures |below.inodes| > 0 && |Img()| == |old(Img())|
      ensures Formatted(old(Img())) && b < NData(old(Img())) && s.superblock == old(Img())[0] ==>
        ok && Img() == old(Img())[First(old(Img())) + b := block] && s.superblock == Img()[0]
    {
      ok := below.Write(0, (b + 1 + s.superblock[0]) % WORD_LIMIT, block);
    }

    /** Takes the top of the free list for place `p` of the file. */
    method TakeFor(s: Snapshot, ghost img0: Image, ghost d0: Disk, ghost ino: nat, ghost p: Place, ghost room: bool)
      returns (next: Word)
      requires Going(s, img0, d0, ino, room) && (room ==> disk.stack != [] && Next(disk.files[ino], ino, p))
      modifies below, this`disk, s`superblock
      ensures Going(s, img0, d0, ino, room)
      ensures room ==> next == Top(old(disk).stack) < NData(Img()) && disk == Taken(old(disk), ino, p)
      ensures room ==> FreeOffset(old(Img())) <= 254 && Img() == TakenImage(old(Img()))
      ensures !room && old(s.superblock)[1] == NONE ==> next == NONE && Img() == old(Img()) && s.superblock == old(s.superblock)
    {
      hide Sound, OtherSame, OldSame, TakenImage, TakenBlock;
      if room {
        GrowTake(img0, Img(), d0, disk, ino, p);
        disk := Taken(disk, ino, p);
      }
      next := PopFree(s);
    }

    /** Allocates direct blocks. */
    method AllocDirect(s: Snapshot, ghost img0: Image, ghost d0: Disk, ghost ino: nat, offset: nat, i0: nat, ghost room: bool)
      returns (i: nat)
      requires Going(s, img0, d0, ino, room) && i0 <= offset && (room ==> Room(d0, ino, offset))
      requires room && i0 < DIRECT ==> AtSingle(Img(), GetInode(s.inodeblock, s.index), disk.files[ino], i0)
      modifies below, this`disk, s`superblock, s`inodeblock
      ensures Going(s, img0, d0, ino, room) && OnlyPointers(old(s.inodeblock), s.inodeblock, s.index)
      ensures i == if i0 >= DIRECT then i0 else if offset < DIRECT then offset + 1 else DIRECT
      ensures room && i0 >= DIRECT ==> disk == old(disk) && Img() == old(Img()) && s.inodeblock == old(s.inodeblock)
      ensures room && i0 < DIRECT ==> AtSingle(Img(), GetInode(s.inodeblock, s.index), disk.files[ino], i)
      ensures !room && i0 == offset < DIRECT && old(s.superblock)[1] == NONE ==>
        Img() == old(Img()) && s.superblock == old(s.superblock) && s.inodeblock == SetPointer(old(s.inodeblock), s.index, 1 + offset, NONE)
    {
      hide AtSingle, Sound, OtherSame, OldSame, GetInode;
      i := i0;
      while i < DIRECT && i <= offset
        invariant i0 <= i && (i > i0 ==> i <= DIRECT && i <= offset + 1) && Going(s, img0, d0, ino, room)
        invariant room && i0 < DIRECT ==> AtSingle(Img(), GetInode(s.inodeblock, s.index), disk.files[ino], i)
        invariant i0 == i ==> disk == old(disk) && Img() == old(Img()) && s.inodeblock == old(s.inodeblock) && s.superblock == old(s.superblock)
        invariant OnlyPointers(old(s.inodeblock), s.inodeblock, s.index)
        invariant !room && i0 == offset < DIRECT && old(s.superblock)[1] == NONE && i > i0 ==>
          Img() == old(Img()) && s.superblock == old(s.superblock) && s.inodeblock == SetPointer(old(s.inodeblock), s.index, 1 + offset, NONE)
      {
        i := TakeDirect(s, img0, d0, ino, offset, i, room);
      }
    }

    method TakeDirect(s: Snapshot, ghost img0: Image, ghost d0: Disk, ghost ino: nat, ghost offset: nat, i: nat, ghost room: bool)
      returns (i': nat)
      requires Going(s, img0, d0, ino, room) && i <= offset && i < DIRECT
      requires room ==> Room(d0, ino, offset) && AtSingle(Img(), GetInode(s.inodeblock, s.index), disk.files[ino], i)
      modifies below, this`disk, s`superblock, s`inodeblock
      ensures Going(s, img0, d0, ino, room) && OnlyPointers(old(s.inodeblock), s.inodeblock, s.index) && i' == i + 1
      ensures room ==> AtSingle(Img(), GetInode(s.inodeblock, s.index), disk.files[ino], i')
      ensures !room && old(s.superblock)[1] == NONE ==>
        Img() == old(Img()) && s.superblock == old(s.superblock) && s.inodeblock == SetPointer(old(s.inodeblock), s.index, 1 + i, NONE)
    {
      if room {
        HasRoom(i, offset, 0);
        GrowTake(img0, Img(), d0, disk, ino, Data(ino, i));
        DirectStep(Img(), disk, GetInode(s.inodeblock, s.index), ino, i);
      }
      hide AtSingle, Sound, OtherSame, OldSame, GetInode;
      var next := TakeFor(s, img0, d0, ino, Data(ino, i), room);
      s.inodeblock := SetPointer(s.inodeblock, s.index, 1 + i, next);
      i' := i + 1;
    }

    /** Allocates blocks behind the single indirect block, which is new for a file of at most 12 blocks. */
    method AllocSingle(s: Snapshot, ghost img0: Image, ghost d0: Disk, ghost ino: nat, n: nat, offset: nat, i0: nat, ghost room: bool)
      returns (failed: bool, i: nat)
      requires Going(s, img0, d0, ino, room) && DIRECT <= i0 < WITH_SINGLE && i0 <= offset
      requires room ==> Room(d0, ino, offset) && (n <= DIRECT <==> i0 == DIRECT)
      requires room ==> AtSingle(Img(), GetInode(s.inodeblock, s.index), disk.files[ino], i0)
      modifies below, this`disk, s`superblock, s`inodeblock
      ensures Going(s, img0, d0, ino, room) && OnlyPointers(old(s.inodeblock), s.inodeblock, s.index) && (room ==> !failed)
      ensures !failed ==> i == if offset < WITH_SINGLE then offset + 1 else WITH_SINGLE
      ensures room ==> AtSingle(Img(), GetInode(s.inodeblock, s.index), disk.files[ino], i)
    {
      hide Sound, OtherSame, OldSame, AtSingle, InSingle, GetInode;
      i := i0;
      var b, block;
      failed, b, block := StartSingle(s, img0, d0, ino, n, offset, i0, room);
      if failed {
        return;
      }
      while i < WITH_SINGLE && i <= offset
        invariant i0 <= i <= WITH_SINGLE && i <= offset + 1 && Going(s, img0, d0, ino, room)
        invariant OnlyPointers(old(s.inodeblock), s.inodeblock, s.index)
        invariant room ==> disk.files[ino].single == [b] && InSingle(Img(), GetInode(s.inodeblock, s.index), block, disk.files[ino], i)
      {
        block := TakeSingle(s, img0, d0, ino, offset, i, block, room);
        i := i + 1;
      }
      failed := FinishSingle(s, img0, d0, ino, i, b, block, room);
    }

    method StartSingle(s: Snapshot, ghost img0: Image, ghost d0: Disk, ghost ino: nat, n: nat, ghost offset: nat, ghost i: nat, ghost room: bool)
      returns (failed: bool, b: Word, block: Block)
      requires Going(s, img0, d0, ino, room) && DIRECT <= i < WITH_SINGLE && i <= offset
      requires room ==> Room(d0, ino, offset) && (n <= DIRECT <==> i == DIRECT)
      requires room ==> AtSingle(Img(), GetInode(s.inodeblock, s.index), disk.files[ino], i)
      modifies below, this`disk, s`superblock, s`inodeblock
      ensures Going(s, img0, d0, ino, room) && OnlyPointers(old(s.inodeblock), s.inodeblock, s.index) && (room ==> !failed)
      ensures room ==> disk.files[ino].single == [b] && InSingle(Img(), GetInode(s.inodeblock, s.index), block, disk.files[ino], i)
    {
      hide Sound, OtherSame, OldSame, GetInode;
      block := NullBlock();
      if n <= DIRECT {
        ghost var img, d, inode := Img(), disk, GetInode(s.inodeblock, s.index);
        if room {
          HasRoom(i, offset, 0);
          GrowTake(img0, img, d0, d, ino, Single(ino));
        }
        var next := TakeFor(s, img0, d0, ino, Single(ino), room);
        s.inodeblock := SetPointer(s.inodeblock, s.index, 13, next);
        if room {
          NewSingle(img, d, inode, DataBlock(Img(), next), ino);
        }
      }
      b := GetInode(s.inodeblock, s.index)[13];
      var r := ReadData(s, b);
      failed := r.None?;
      if !failed {
        block := r.value;
      }
    }

    method TakeSingle(s: Snapshot, ghost img0: Image, ghost d0: Disk, ghost ino: nat, ghost offset: nat, i: nat, block0: Block, ghost room: bool)
      returns (block: Block)
      requires Going(s, img0, d0, ino, room) && DIRECT <= i < WITH_SINGLE && i <= offset
      requires room ==> Room(d0, ino, offset) && InSingle(Img(), GetInode(s.inodeblock, s.index), block0, disk.files[ino], i)
      modifies below, this`disk, s`superblock
      ensures Going(s, img0, d0, ino, room)
      ensures room ==> disk.files[ino].single == old(disk).files[ino].single
      ensures room ==> InSingle(Img(), GetInode(s.inodeblock, s.index), block, disk.files[ino], i + 1)
    {
      hide Sound, OtherSame, GetInode;
      if room {
        HasRoom(i, offset, 0);
        GrowTake(img0, Img(), d0, disk, ino, Data(ino, i));
        SingleStep(Img(), disk, GetInode(s.inodeblock, s.index), block0, ino, i);
      }
      var next := TakeFor(s, img0, d0, ino, Data(ino, i), room);
      block := block0[i - DIRECT := next];
    }

    method FinishSingle(s: Snapshot, ghost img0: Image, ghost d0: Disk, ghost ino: nat, ghost i: nat, b: Word, block: Block, ghost room: bool)
      returns (failed: bool)
      requires Going(s, img0, d0, ino, room) && i > DIRECT
      requires room ==> disk.files[ino].single == [b] && InSingle(Img(), GetInode(s.inodeblock, s.index), block, disk.files[ino], i)
      modifies below
      ensures Going(s, img0, d0, ino, room) && (room ==> !failed)
      ensures room ==> AtSingle(Img(), GetInode(s.inodeblock, s.index), disk.files[ino], i)
    {
      if room {
        SingleDone(Img(), GetInode(s.inodeblock, s.index), block, disk.files[ino], i);
      }
      hide Sound, OtherSame, OldSame, GetInode;
      if room {
        assert Has(disk, Single(ino)) && BlockAt(disk, Single(ino)) == b;
        GrowWrite(img0, Img(), d0, disk, ino, Single(ino), block);
      }
      var ok := WriteData(s, b, block);
      failed := !ok;
    }

    /** Allocates blocks behind the double indirect block, which is new for a file of at most 268 blocks. */
    method AllocDouble(s: Snapshot, ghost img0: Image, ghost d0: Disk, ghost ino: nat, n: nat, offset: nat, i0: nat, ghost room: bool)
      returns (failed: bool, i: nat)
      requires Going(s, img0, d0, ino, room) && WITH_SINGLE <= i0 <= offset < WITH_DOUBLE
      requires if n <= WITH_SINGLE then i0 == WITH_SINGLE else i0 == n
      requires room ==> Room(d0, ino, offset) && i0 == |disk.files[ino].data|
      requires room ==> Built(Img(), GetInode(s.inodeblock, s.index), disk.files[ino])
      modifies below, this`disk, s`superblock, s`inodeblock
      ensures Going(s, img0, d0, ino, room) && OnlyPointers(old(s.inodeblock), s.inodeblock, s.index) && (room ==> !failed)
      ensures room ==> i == offset + 1 == |disk.files[ino].data| && Built(Img(), GetInode(s.inodeblock, s.index), disk.files[ino])
    {
      hide Sound, OtherSame, OldSame, AtDouble, Built, GetInode;
      i := i0;
      var b, indirect;
      failed, b, indirect := StartDouble(s, img0, d0, ino, n, offset, i0, room);
      if failed {
        return;
      }
      while i < WITH_DOUBLE && i <= offset
        invariant i0 <= i <= offset + 1 && (i == n || (i - WITH_SINGLE) % 256 == 0 || i == offset + 1) && n <= i
        invariant Going(s, img0, d0, ino, room) && OnlyPointers(old(s.inodeblock), s.inodeblock, s.index)
        invariant room ==> disk.files[ino].double == [b] && AtDouble(Img(), GetInode(s.inodeblock, s.index), indirect, disk.files[ino], i)
      {
        failed, i, indirect := FillSecond(s, img0, d0, ino, n, offset, i, indirect, room);
        if failed {
          return;
        }
      }
      failed := FinishDouble(s, img0, d0, ino, i, b, indirect, room);
    }

    method StartDouble(s: Snapshot, ghost img0: Image, ghost d0: Disk, ghost ino: nat, n: nat, ghost offset: nat, ghost i: nat, ghost room: bool)
      returns (failed: bool, b: Word, indirect: Block)
      requires Going(s, img0, d0, ino, room) && WITH_SINGLE <= i <= offset
      requires room ==> Room(d0, ino, offset) && i == |disk.files[ino].data| && (if n <= WITH_SINGLE then i == WITH_SINGLE else i == n)
      requires room ==> Built(Img(), GetInode(s.inodeblock, s.index), disk.files[ino])
      modifies below, this`disk, s`superblock, s`inodeblock
      ensures Going(s, img0, d0, ino, room) && OnlyPointers(old(s.inodeblock), s.inodeblock, s.index) && (room ==> !failed)
      ensures room ==> disk.files[ino].double == [b] && AtDouble(Img(), GetInode(s.inodeblock, s.index), indirect, disk.files[ino], i)
    {
      hide Sound, OtherSame, GetInode, Built, AtDouble;
      ghost var img, d, inode := Img(), disk, GetInode(s.inodeblock, s.index);
      indirect := NullBlock();
      if n <= WITH_SINGLE {
        if room {
          HasRoom(i, offset, 0);
          BuiltSmall(img, inode, d.files[ino]);
          GrowTake(img0, img, d0, d, ino, Double(ino));
        }
        var next := TakeFor(s, img0, d0, ino, Double(ino), room);
        s.inodeblock := SetPointer(s.inodeblock, s.index, 14, next);
        if room {
          NewDouble(img, d, inode, DataBlock(Img(), next), ino);
        }
      } else if room {
        ReadyForDouble(img, inode, d.files[ino]);
        DoublePointer(img, inode, DataBlock(img, d.files[ino].double[0]), d.files[ino], i);
      }
      b := GetInode(s.inodeblock, s.index)[14];
      var r := ReadData(s, b);
      failed := r.None?;
      if !failed {
        indirect := r.value;
      }
    }

    /** Fills the indirect block in which block `i` of the file goes, as far as it has room. */
    method FillSecond(s: Snapshot, ghost img0: Image, ghost d0: Disk, ghost ino: nat, n: nat, offset: nat, i0: nat, indirect0: Block, ghost room: bool)
      returns (failed: bool, i: nat, indirect: Block)
      requires Going(s, img0, d0, ino, room)
      requires WITH_SINGLE <= i0 <= offset < WITH_DOUBLE && n <= i0 && (i0 == n || (i0 - WITH_SINGLE) % 256 == 0)
      requires room ==> Room(d0, ino, offset) && AtDouble(Img(), GetInode(s.inodeblock, s.index), indirect0, disk.files[ino], i0)
      modifies below, this`disk, s`superblock
      ensures Going(s, img0, d0, ino, room) && (room ==> !failed)
      ensures !failed ==> i0 < i <= offset + 1 && ((i - WITH_SINGLE) % 256 == 0 || i == offset + 1)
      ensures room ==> disk.files[ino].double == old(disk).files[ino].double
      ensures room ==> AtDouble(Img(), GetInode(s.inodeblock, s.index), indirect, disk.files[ino], i)
    {
      hide Sound, OtherSame, OldSame, AtDouble, InSecond, GetInode;
      i := i0;
      var j := (i0 - WITH_SINGLE) / 256;
      var b, block;
      failed, b, indirect, block := StartSecond(s, img0, d0, ino, n, offset, i0, j, indirect0, room);
      if failed {
        return;
      }
      while i < SecondStart(j + 1) && i <= offset
        invariant i0 <= i <= SecondStart(j + 1) && i <= offset + 1 && Going(s, img0, d0, ino, room)
        invariant room ==> disk.files[ino].double == old(disk).files[ino].double && |disk.files[ino].seconds| == j + 1
        invariant room ==> disk.files[ino].seconds[j] == b
        invariant room ==> InSecond(Img(), GetInode(s.inodeblock, s.index), indirect, block, disk.files[ino], i, j)
      {
        block := TakeSecond(s, img0, d0, ino, offset, i, j, indirect, block, room);
        i := i + 1;
      }
      failed := FinishSecond(s, img0, d0, ino, i, j, b, indirect, block, room);
    }

    method StartSecond(s: Snapshot, ghost img0: Image, ghost d0: Disk, ghost ino: nat, n: nat, ghost offset: nat, ghost i: nat,
                       j: nat, indirect0: Block, ghost room: bool)
      returns (failed: bool, b: Word, indirect: Block, block: Block)
      requires Going(s, img0, d0, ino, room) && SecondStart(j) <= i < SecondStart(j + 1) <= WITH_DOUBLE && i <= offset
      requires room ==> Room(d0, ino, offset) && (n <= SecondStart(j) <==> i == SecondStart(j))
      requires room ==> AtDouble(Img(), GetInode(s.inodeblock, s.index), indirect0, disk.files[ino], i)
      modifies below, this`disk, s`superblock
      ensures Going(s, img0, d0, ino, room) && (room ==> !failed)
      ensures room ==> disk.files[ino].double == old(disk).files[ino].double
      ensures room ==> |disk.files[ino].seconds| == j + 1 && disk.files[ino].seconds[j] == b
      ensures room ==> InSecond(Img(), GetInode(s.inodeblock, s.index), indirect, block, disk.files[ino], i, j)
    {
      hide Sound, OtherSame, OldSame, GetInode, InSecond;
      ghost var img, d, inode := Img(), disk, GetInode(s.inodeblock, s.index);
      indirect, block := indirect0, NullBlock();
      if n <= SecondStart(j) {
        if room {
          HasRoom(i, offset, j);
          GrowTake(img0, img, d0, d, ino, Second(ino, j));
        }
        var next := TakeFor(s, img0, d0, ino, Second(ino, j), room);
        indirect := indirect0[j := next];
        if room {
          NewSecond(img, d, inode, indirect0, DataBlock(Img(), next), ino, i, j);
        }
      } else if room {
        OldSecond(img, inode, indirect, d.files[ino], i, j);
      }
      b := indirect[j];
      var r := ReadData(s, b);
      failed := r.None?;
      if !failed {
        block := r.value;
      }
    }

    method TakeSecond(s: Snapshot, ghost img0: Image, ghost d0: Disk, ghost ino: nat, ghost offset: nat, i: nat, j: nat,
                      ghost indirect: Block, block0: Block, ghost room: bool)
      returns (block: Block)
      requires Going(s, img0, d0, ino, room) && SecondStart(j) <= i < SecondStart(j + 1) && i <= offset
      requires room ==> Room(d0, ino, offset) && InSecond(Img(), GetInode(s.inodeblock, s.index), indirect, block0, disk.files[ino], i, j)
      modifies below, this`disk, s`superblock
      ensures Going(s, img0, d0, ino, room)
      ensures room ==> disk.files[ino].double == old(disk).files[ino].double && disk.files[ino].seconds == old(disk).files[ino].seconds
      ensures room ==> InSecond(Img(), GetInode(s.inodeblock, s.index), indirect, block, disk.files[ino], i + 1, j)
    {
      hide Sound, OtherSame, GetInode;
      if room {
        HasRoom(i, offset, j);
        GrowTake(img0, Img(), d0, disk, ino, Data(ino, i));
        SecondStep(Img(), disk, GetInode(s.inodeblock, s.index), indirect, block0, ino, i, j);
      }
      var next := TakeFor(s, img0, d0, ino, Data(ino, i), room);
      block := block0[i - SecondStart(j) := next];
    }

    method FinishSecond(s: Snapshot, ghost img0: Image, ghost d0: Disk, ghost ino: nat, ghost i: nat, ghost j: nat, b: Word,
                        ghost indirect: Block, block: Block, ghost room: bool)
      returns (failed: bool)
      requires Going(s, img0, d0, ino, room) && i > SecondStart(j)
      requires room ==> |disk.files[ino].seconds| == j + 1 && disk.files[ino].seconds[j] == b
      requires room ==> InSecond(Img(), GetInode(s.inodeblock, s.index), indirect, block, disk.files[ino], i, j)
      modifies below
      ensures Going(s, img0, d0, ino, room) && (room ==> !failed)
      ensures room ==> AtDouble(Img(), GetInode(s.inodeblock, s.index), indirect, disk.files[ino], i)
    {
      hide Sound, OtherSame, OldSame, GetInode, AtDouble;
      ghost var img := Img();
      if room {
        assert Has(disk, Second(ino, j)) && BlockAt(disk, Second(ino, j)) == b;
        WriteUntouched(img, disk, Second(ino, j), block);
        GrowWrite(img0, img, d0, disk, ino, Second(ino, j), block);
      }
      var ok := WriteData(s, b, block);
      failed := !ok;
      if room {
        SecondDone(img, Img(), disk, GetInode(s.inodeblock, s.index), indirect, block, ino, i, j);
      }
    }

    method FinishDouble(s: Snapshot, ghost img0: Image, ghost d0: Disk, ghost ino: nat, ghost i: nat, b: Word, indirect: Block, ghost room: bool)
      returns (failed: bool)
      requires Going(s, img0, d0, ino, room) && i > WITH_SINGLE
      requires room ==> disk.files[ino].double == [b] && AtDouble(Img(), GetInode(s.inodeblock, s.index), indirect, disk.files[ino], i)
      modifies below
      ensures Going(s, img0, d0, ino, room) && (room ==> !failed)
      ensures room ==> |disk.files[ino].data| == i && Built(Img(), GetInode(s.inodeblock, s.index), disk.files[ino])
    {
      hide Sound, OtherSame, GetInode, Built;
      ghost var img := Img();
      if room {
        assert Has(disk, Double(ino)) && BlockAt(disk, Double(ino)) == b;
        WriteUntouched(img, disk, Double(ino), indirect);
        GrowWrite(img0, img, d0, disk, ino, Double(ino), indirect);
      }
      var ok := WriteData(s, b, indirect);
      failed := !ok;
      if room {
        DoubleDone(img, Img(), disk, GetInode(s.inodeblock, s.index), indirect, ino, i);
      }
    }

    /** Allocates all blocks up to `offset`.  Without room for them nothing is promised but what a full disk gets for
        a direct block. */
    method Alloc(s: Snapshot, ghost ino: nat, offset: nat) returns (failed: bool)
      requires Valid() && ino < |disk.files| && s.superblock == Img()[0] && s.index == ino % INODES_PER_BLOCK
      requires InodeBlockno(ino) == s.inodeBlockno < |Img()| && s.inodeblock == Img()[s.inodeBlockno]
      requires |disk.files[ino].data| <= offset < WITH_DOUBLE
      modifies below, this`disk, s`superblock, s`inodeblock
      ensures Loose(s, |old(Img())|)
      ensures old(Room(disk, ino, offset)) ==>
        && !failed && Valid() && Lengthened(old(Inodes()), Inodes(), ino, offset + 1)
        && s.superblock == Img()[0] && s.inodeBlockno < |Img()| && s.inodeblock == Img()[s.inodeBlockno]
        && |disk.stack| + Total(offset + 1) == |old(disk.stack)| + Total(|old(disk.files)[ino].data|)
      ensures old(disk.stack) == [] && |old(disk.files)[ino].data| == offset < DIRECT ==>
        !failed && Img() == PointerToNone(old(Img()), ino, offset) && s.superblock == Img()[0] && s.inodeblock == Img()[InodeBlockno(ino)]
    {
      hide Inv, Sound, OtherSame, OldSame, AtSingle, Built, OnlyPointers;
      ghost var img0, d0, room := Img(), disk, Room(disk, ino, offset);
      InvNeeds(img0, d0);
      BuiltStart(img0, d0, ino);
      assert GetInode(s.inodeblock, s.index) == InodeOf(img0, ino) by {
        assert InodeOf(img0, ino) == GetInode(img0[InodeBlockno(ino)], ino % INODES_PER_BLOCK);
      }
      GrowStart(img0, d0, ino);
      InodeInRange(img0, ino);
      if disk.stack == [] {
        FullDisk(img0, d0, ino);
      }
      var n := GetInode(s.inodeblock, s.index)[0];
      failed := AllocBlocks(s, img0, d0, ino, n, offset, room);
      if room {
        BuiltUses(Img(), GetInode(s.inodeblock, s.index), disk.files[ino]);
      }
      if !failed {
        failed := FinishAlloc(s, img0, d0, ino, offset, room);
      }
    }

    /** Goes through direct, single and double indirect blocks. */
    method AllocBlocks(s: Snapshot, ghost img0: Image, ghost d0: Disk, ghost ino: nat, n: nat, offset: nat, ghost room: bool)
      returns (failed: bool)
      requires Going(s, img0, d0, ino, room) && n <= offset < WITH_DOUBLE
      requires room ==> Room(d0, ino, offset) && n == |disk.files[ino].data| && Built(Img(), GetInode(s.inodeblock, s.index), disk.files[ino])
      modifies below, this`disk, s`superblock, s`inodeblock
      ensures Going(s, img0, d0, ino, room) && OnlyPointers(old(s.inodeblock), s.inodeblock, s.index) && (room ==> !failed)
      ensures room ==> |disk.files[ino].data| == offset + 1 && Built(Img(), GetInode(s.inodeblock, s.index), disk.files[ino])
      ensures !room && n == offset < DIRECT && old(s.superblock)[1] == NONE ==>
        && !failed && Img() == old(Img()) && s.superblock == old(s.superblock)
        && s.inodeblock == SetPointer(old(s.inodeblock), s.index, 1 + offset, NONE)
    {
      hide Sound, OtherSame, AtSingle, Built, GetInode;
      failed := false;
      if room && n <= WITH_SINGLE {
        BuiltSmall(Img(), GetInode(s.inodeblock, s.index), disk.files[ino]);
      }
      var i := AllocDirect(s, img0, d0, ino, offset, n, room);
      if i < WITH_SINGLE && i <= offset {
        failed, i := AllocSingle(s, img0, d0, ino, n, offset, i, room);
        if failed {
          return;
        }
      }
      if room && i <= WITH_SINGLE {
        SingleSize(Img(), GetInode(s.inodeblock, s.index), disk.files[ino], i);
        BuiltSmall(Img(), GetInode(s.inodeblock, s.index), disk.files[ino]);
      }
      if i < WITH_DOUBLE && i <= offset {
        failed, i := AllocDouble(s, img0, d0, ino, n, offset, i, room);
      }
    }

    /** Writes the inode with the new size. */
    method FinishAlloc(s: Snapshot, ghost img0: Image, ghost d0: Disk, ghost ino: nat, offset: nat, ghost room: bool)
      returns (failed: bool)
      requires Going(s, img0, d0, ino, room) && offset < WITH_DOUBLE && s.inodeBlockno == InodeBlockno(ino) < |img0|
      requires s.index == ino % INODES_PER_BLOCK
      requires room ==>
        && ino < NInodes(img0) && OnlyPointers(img0[InodeBlockno(ino)], s.inodeblock, s.index)
        && |disk.files[ino].data| == offset + 1 && Built(Img(), GetInode(s.inodeblock, s.index), disk.files[ino])
      modifies below, s`inodeblock
      ensures Loose(s, |img0|) && !failed
      ensures Img() == old(Img())[s.inodeBlockno := s.inodeblock] && s.inodeblock == old(s.inodeblock)[16 * s.index := offset + 1]
      ensures room ==>
        && Inv(Img(), disk) && Lengthened(FilesOf(img0, d0), FilesOf(Img(), disk), ino, offset + 1)
        && s.superblock == Img()[0]
    {
      hide Inv, Sound, OtherSame, OldSame, Built, OnlyPointers, GetInode, Lengthened;
      if room {
        GrowEnd(img0, Img(), d0, disk, ino, s.inodeblock);
      }
      s.inodeblock := s.inodeblock[16 * s.index := offset + 1];
      var ok := below.Write(0, s.inodeBlockno, s.inodeblock);
      failed := !ok;
    }

    // -------------------------------------------------------------- reading and writing

    /** Reads the `k`-th pointer in an indirect block. */
    method ReadEntry(s: Snapshot, d: Word, k: nat) returns (e: Option<Word>)
      requires |Img()| > 0 && k < ENTRIES_PER_BLOCK
      ensures s.superblock == Img()[0] ==> e == Entry(Img(), d, k)
    {
      var r := below.Read(0, (d + 1 + s.superblock[0]) % WORD_LIMIT);
      if r.None? {
        return None;
      }
      e := Some(r.value[k]);
    }

    /** Finds a block through the pointers; one that leads off the disk ends the search. */
    method TraversePointers(s: Snapshot, offset: nat) returns (a: Word)
      requires |Img()| > 0 && s.index < INODES_PER_BLOCK
      requires offset < WITH_DOUBLE + ENTRIES_PER_BLOCK * ENTRIES_PER_BLOCK * ENTRIES_PER_BLOCK
      ensures s.superblock == Img()[0] ==> a == Traverse(Img(), GetInode(s.inodeblock, s.index), offset)
    {
      hide Entry;
      var inode := GetInode(s.inodeblock, s.index);
      var e;
      if offset < DIRECT {
        e := Some(inode[1 + offset]);
      } else if offset < WITH_SINGLE {
        e := ReadEntry(s, inode[13], offset - DIRECT);
      } else if offset < WITH_DOUBLE {
        Indices(offset - WITH_SINGLE);
        var firstIndex := (offset - WITH_SINGLE) / 256;
        e := ReadEntry(s, inode[14], firstIndex);
        if e.Some? {
          e := ReadEntry(s, e.value, offset - WITH_SINGLE - firstIndex * 256);
        }
      } else {
        e := TraverseTriple(s, inode, offset);
      }
      a := if e.Some? then (e.value + 1 + s.superblock[0]) % WORD_LIMIT else NONE;
    }

    method TraverseTriple(s: Snapshot, inode: Inode, offset: nat) returns (e: Option<Word>)
      requires |Img()| > 0
      requires WITH_DOUBLE <= offset < WITH_DOUBLE + ENTRIES_PER_BLOCK * ENTRIES_PER_BLOCK * ENTRIES_PER_BLOCK
      ensures s.superblock == Img()[0] ==> e == Pointer(Img(), inode, offset)
    {
      hide Entry;
      Indices(offset - WITH_DOUBLE);
      var firstIndex := (offset - WITH_DOUBLE) / 65536;
      e := ReadEntry(s, inode[14], firstIndex);
      if e.Some? {
        var secondIndex := (offset - WITH_DOUBLE - firstIndex * 65536) / 256;
        e := ReadEntry(s, e.value, secondIndex);
        if e.Some? {
          e := ReadEntry(s, e.value, offset - WITH_DOUBLE - firstIndex * 65536 - secondIndex * 256);
        }
      }
    }

    /** Reads a block of a file. */
    method Read(ino: nat, offset: nat) returns (r: Option<Block>)
      requires Valid()
      ensures r == if Blocks.InRange(Inodes(), ino, offset) then Some(Inodes()[ino][offset]) else None
    {
      hide Sound, FileOk, Traverse;
      InvNeeds(Img(), disk);
      var s := new Snapshot();
      var ok := GetSnapshot(s, ino);
      if !ok {
        return None;
      }
      SizeIs(Img(), disk, ino);
      if offset >= GetInode(s.inodeblock, s.index)[0] {
        return None;
      }
      TraverseIs(Img(), disk, ino, offset);
      var a := TraversePointers(s, offset);
      r := below.Read(0, a);
    }

    /** The number of blocks that a write takes. */
    ghost function Needed(ino: nat, offset: nat): nat
      requires Valid() && ino < |disk.files|
      reads this, below
    {
      var n := |disk.files[ino].data|;
      if offset < n || Total(offset + 1) < Total(n) then 0 else Total(offset + 1) - Total(n)
    }

    /** Writes a block of a file.  Exactly with enough free blocks it changes one block of one file, which gets longer
        if the block is past its end; exactly the blocks needed for that leave the free list.  Without them the disk
        is not in order afterwards, or the block is not written.  On a full disk a new direct block goes to the last
        inode block. */
    method Write(ino: nat, offset: nat, block: Block) returns (ok: bool)
      requires Valid() && (ino < |disk.files| ==> offset < WITH_DOUBLE)
      modifies below, this`disk
      ensures ino >= |old(Inodes())| ==> !ok && Valid() && Img() == old(Img()) && disk == old(disk)
      ensures ino < |old(Inodes())| && old(Needed(ino, offset)) <= |old(disk.stack)| ==>
        && ok && Valid() && Written(old(Inodes()), Inodes(), ino, offset, block)
        && |disk.stack| == |old(disk.stack)| - old(Needed(ino, offset))
      ensures ino < |old(Inodes())| && old(Needed(ino, offset)) > |old(disk.stack)| ==>
        forall d: Disk :: Inv(Img(), d) ==> !Written(old(Inodes()), FilesOf(Img(), d), ino, offset, block)
      ensures ino < |old(Inodes())| && old(disk.stack) == [] && offset == |old(Inodes())[ino]| < DIRECT ==>
        ok && Img() == PointerToNone(old(Img()), ino, offset)[NInodeBlocks(old(Img())) := block]
    {
      hide Sound, FileOk, Traverse, PointerToNone;
      InvNeeds(Img(), disk);
      var s := new Snapshot();
      ok := GetSnapshot(s, ino);
      if !ok {
        return;
      }
      SizeIs(Img(), disk, ino);
      ghost var img0, d0, v0, room := Img(), disk, Inodes(), Needed(ino, offset) <= |disk.stack|;
      var failed := false;
      UsedIs(img0, d0, ino);
      if offset < DIRECT {
        NoneLeads(img0, ino, offset);
      }
      if offset >= GetInode(s.inodeblock, s.index)[0] {
        TotalGrows(|disk.files[ino].data|, offset + 1);
        failed := Alloc(s, ino, offset);
      }
      if !failed {
        ok := WriteBlock(s, ino, offset, block, v0, room);
      } else {
        ok := false;
      }
      if !room {
        NeverWritten(img0, d0, Img(), ino, offset, block);
      }
    }

    method WriteBlock(s: Snapshot, ghost ino: nat, offset: nat, block: Block, ghost v0: Inodes, ghost room: bool) returns (ok: bool)
      requires Loose(s, |Img()|) && s.index == ino % INODES_PER_BLOCK && offset < WITH_DOUBLE
      requires room ==>
        && Valid() && ino < |disk.files| && offset < |disk.files[ino].data| && s.superblock == Img()[0]
        && InodeBlockno(ino) < |Img()| && s.inodeblock == Img()[InodeBlockno(ino)]
        && ino < |v0| && (v0 == Inodes() || (offset >= |v0[ino]| && Lengthened(v0, Inodes(), ino, offset + 1)))
      modifies below
      ensures |below.inodes| > 0 && |Img()| == |old(Img())|
      ensures room ==> ok && Valid() && Written(v0, Inodes(), ino, offset, block)
      ensures s.superblock == old(Img())[0] ==>
        var a := Traverse(old(Img()), GetInode(s.inodeblock, s.index), offset);
        a < |old(Img())| ==> ok && Img() == old(Img())[a := block]
    {
      hide Sound, FileOk, Traverse;
      if room {
        InvNeeds(Img(), disk);
        TraverseIs(Img(), disk, ino, offset);
        DataWritten(Img(), disk, ino, offset, block);
      }
      var a := TraversePointers(s, offset);
      ok := below.Write(0, a, block);
    }

    // -------------------------------------------------------------- freeing a file

    /** Gives block `b` of the file, which is at place `p`, back to the free list. */
    method GiveFrom(s: Snapshot, ghost img0: Image, ghost d0: Disk, ghost ino: nat, ghost p: Place, b: Word)
      requires Shrinking(img0, Img(), d0, disk, ino) && Leads(disk.files[ino], ino, p) && BlockAt(disk, p) == b
      requires s.superblock == Img()[0]
      modifies below, this`disk, s`superblock
      ensures Shrinking(img0, Img(), d0, disk, ino) && s.superblock == Img()[0]
      ensures disk.files[ino] == Shrunk(old(disk).files[ino], p)
    {
      GiveStep(img0, Img(), d0, disk, ino, p);
      disk := Given(disk, ino, p);
      PushFree(s, b);
    }

    method FreeDirect(s: Snapshot, ghost img0: Image, ghost d0: Disk, ghost ino: nat, n: nat) returns (i: nat)
      requires Shrinking(img0, Img(), d0, disk, ino) && s.superblock == Img()[0] && s.index < INODES_PER_BLOCK
      requires Whole(GetInode(s.inodeblock, s.index), d0.files[ino]) && n == |d0.files[ino].data|
      requires disk.files[ino] == d0.files[ino]
      modifies below, this`disk, s`superblock
      ensures Shrinking(img0, Img(), d0, disk, ino) && s.superblock == Img()[0]
      ensures i == (if n < DIRECT then n else DIRECT) && disk.files[ino] == d0.files[ino].(from := i)
    {
      hide Sound, OtherSame, Remains, GetInode;
      i := 0;
      while i < DIRECT && i < n
        invariant Shrinking(img0, Img(), d0, disk, ino) && s.superblock == Img()[0]
        invariant 0 <= i <= DIRECT && i <= n && disk.files[ino] == d0.files[ino].(from := i)
      {
        GiveFrom(s, img0, d0, ino, Data(ino, i), GetInode(s.inodeblock, s.index)[1 + i]);
        i := i + 1;
      }
    }

    method FreeSingle(s: Snapshot, ghost img0: Image, ghost d0: Disk, ghost ino: nat, n: nat) returns (i: nat)
      requires Shrinking(img0, Img(), d0, disk, ino) && s.superblock == Img()[0] && s.index < INODES_PER_BLOCK
      requires Whole(GetInode(s.inodeblock, s.index), d0.files[ino]) && DIRECT < n == |d0.files[ino].data|
      requires disk.files[ino] == d0.files[ino].(from := DIRECT)
      modifies below, this`disk, s`superblock
      ensures Shrinking(img0, Img(), d0, disk, ino) && s.superblock == Img()[0]
      ensures i == (if n < WITH_SINGLE then n else WITH_SINGLE) && disk.files[ino] == d0.files[ino].(from := i, single := [])
    {
      hide Sound, OtherSame, Remains, GetInode;
      SingleRead(Img(), GetInode(s.inodeblock, s.index), d0.files[ino], disk.files[ino]);
      var b := GetInode(s.inodeblock, s.index)[13];
      var r := ReadData(s, b);
      var block := r.value;
      i := DIRECT;
      while i < WITH_SINGLE && i < n
        invariant Shrinking(img0, Img(), d0, disk, ino) && s.superblock == Img()[0]
        invariant DIRECT <= i <= WITH_SINGLE && i <= n && disk.files[ino] == d0.files[ino].(from := i)
      {
        GiveFrom(s, img0, d0, ino, Data(ino, i), block[i - DIRECT]);
        i := i + 1;
      }
      GiveFrom(s, img0, d0, ino, Single(ino), b);
    }

    method FreeDouble(s: Snapshot, ghost img0: Image, ghost d0: Disk, ghost ino: nat, n: nat) returns (i: nat)
      requires Shrinking(img0, Img(), d0, disk, ino) && s.superblock == Img()[0] && s.index < INODES_PER_BLOCK
      requires Whole(GetInode(s.inodeblock, s.index), d0.files[ino]) && WITH_SINGLE < n == |d0.files[ino].data|
      requires disk.files[ino] == d0.files[ino].(from := WITH_SINGLE, single := [])
      modifies below, this`disk, s`superblock
      ensures Shrinking(img0, Img(), d0, disk, ino) && s.superblock == Img()[0]
      ensures i == n && disk.files[ino] == d0.files[ino].(from := n, single := [], double := [], secFrom := Seconds(n))
    {
      hide Sound, OtherSame, Remains, GetInode;
      DoubleRead(Img(), GetInode(s.inodeblock, s.index), d0.files[ino], disk.files[ino]);
      var b := GetInode(s.inodeblock, s.index)[14];
      var r := ReadData(s, b);
      var indirect := r.value;
      i := WITH_SINGLE;
      while i < WITH_DOUBLE && i < n
        invariant Shrinking(img0, Img(), d0, disk, ino) && s.superblock == Img()[0]
        invariant WITH_SINGLE <= i <= n && ((i - WITH_SINGLE) % 256 == 0 || i == n)
        invariant disk.files[ino] == d0.files[ino].(from := i, single := [], secFrom := (i - WITH_SINGLE + 255) / 256)
      {
        i := FreeSecond(s, img0, d0, ino, n, i, indirect);
      }
      GiveFrom(s, img0, d0, ino, Double(ino), b);
    }

    /** Frees an indirect block below the double one, after the blocks that it points to. */
    method FreeSecond(s: Snapshot, ghost img0: Image, ghost d0: Disk, ghost ino: nat, n: nat, i0: nat, indirect: Block) returns (i: nat)
      requires Shrinking(img0, Img(), d0, disk, ino) && s.superblock == Img()[0] && DoubleOk(indirect, d0.files[ino])
      requires WellShaped(d0.files[ino]) && WITH_SINGLE <= i0 < n == |d0.files[ino].data| && (i0 - WITH_SINGLE) % 256 == 0
      requires disk.files[ino] == d0.files[ino].(from := i0, single := [], secFrom := (i0 - WITH_SINGLE + 255) / 256)
      modifies below, this`disk, s`superblock
      ensures Shrinking(img0, Img(), d0, disk, ino) && s.superblock == Img()[0]
      ensures i0 < i <= n && ((i - WITH_SINGLE) % 256 == 0 || i == n)
      ensures disk.files[ino] == d0.files[ino].(from := i, single := [], secFrom := (i - WITH_SINGLE + 255) / 256)
    {
      hide Sound, OtherSame, Remains;
      var j := (i0 - WITH_SINGLE) / 256;
      SecondRead(Img(), d0.files[ino], disk.files[ino], j);
      var r := ReadData(s, indirect[j]);
      var block := r.value;
      i := i0;
      while i < SecondStart(j + 1) && i < n
        invariant Shrinking(img0, Img(), d0, disk, ino) && s.superblock == Img()[0]
        invariant i0 <= i <= SecondStart(j + 1) && i <= n && disk.files[ino] == d0.files[ino].(from := i, single := [], secFrom := j)
      {
        GiveFrom(s, img0, d0, ino, Data(ino, i), block[i - SecondStart(j)]);
        i := i + 1;
      }
      GiveFrom(s, img0, d0, ino, Second(ino, j), indirect[j]);
    }

    /** Frees all blocks of a file and writes its inode. */
    method FreeFile(s: Snapshot, ghost ino: nat)
      requires Valid() && ino < |disk.files| && s.superblock == Img()[0] && s.index == ino % INODES_PER_BLOCK
      requires InodeBlockno(ino) == s.inodeBlockno < |Img()| && s.inodeblock == Img()[s.inodeBlockno]
      modifies below, this`disk, s`superblock, s`inodeblock
      ensures Valid() && Inodes() == old(Inodes())[ino := []]
      ensures old(disk).stack <= disk.stack && FreedOnly(old(disk), disk, ino)
    {
      hide Inv, Sound, OtherSame, Remains, FreedOnly, Partition;
      ghost var img0, d0, block0 := Img(), disk, s.inodeblock;
      InvNeeds(img0, d0);
      WholeStart(img0, d0, ino);
      ShrinkStart(img0, d0, ino);
      SizeIs(img0, d0, ino);
      var n := GetInode(s.inodeblock, s.index)[0];
      var i := FreeDirect(s, img0, d0, ino, n);
      if i < WITH_SINGLE && i < n {
        i := FreeSingle(s, img0, d0, ino, n);
      }
      if i < WITH_DOUBLE && i < n {
        i := FreeDouble(s, img0, d0, ino, n);
      }
      assert i == n;
      ShrinkEnd(img0, Img(), d0, disk, ino, block0);
      s.inodeblock := s.inodeblock[16 * s.index := 0];
      disk := disk.(files := disk.files[ino := NoFile()]);
      WriteBelow(s.inodeBlockno, s.inodeblock);
    }

    /** Truncates a file to nothing; no other new size is supported. */
    method SetSize(ino: nat, nblocks: Word) returns (r: int)
      requires Valid() && ino < |Inodes()|
      modifies below, this`disk
      ensures Valid()
      ensures nblocks == |old(Inodes())[ino]| ==> r == nblocks && Img() == old(Img()) && disk == old(disk)
      ensures 0 < nblocks != |old(Inodes())[ino]| ==> r == -1 && Img() == old(Img()) && disk == old(disk)
      ensures nblocks == 0 < |old(Inodes())[ino]| ==>
        && r == 0 && Inodes() == old(Inodes())[ino := []]
        && old(disk).stack <= disk.stack && FreedOnly(old(disk), disk, ino)
    {
      hide Inv, FreedOnly;
      InvNeeds(Img(), disk);
      SizeIs(Img(), disk, ino);
      var s := new Snapshot();
      var _ := GetSnapshot(s, ino);
      if nblocks == GetInode(s.inodeblock, s.index)[0] {
        return nblocks;
      }
      if nblocks > 0 {
        return -1;
      }
      FreeFile(s, ino);
      r := 0;
    }

    method GetSize(ino: nat) returns (size: int)
      requires Valid()
      ensures size == if ino < |Inodes()| then |Inodes()[ino]| else -1
    {
      hide Inv;
      InvNeeds(Img(), disk);
      var s := new Snapshot();
      var ok := GetSnapshot(s, ino);
      if !ok {
        return -1;
      }
      SizeIs(Img(), disk, ino);
      size := GetInode(s.inodeblock, s.index)[0];
    }
  }
}
