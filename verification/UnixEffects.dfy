/** What the operations of a unix disk do to its files. */
module UnixEffects {
  import opened Options
  import opened Blocks
  import opened UnixLayout
  import opened UnixLists
  import opened UnixFiles
  import opened UnixInvariant
  import opened UnixGrow

  /** File `ino` gets longer; what is in the new blocks is whatever was in them when they were free. */
  predicate Lengthened(v: Inodes, v': Inodes, ino: nat, n: nat) {
    && ino < |v| == |v'| && |v'[ino]| == n && v[ino] <= v'[ino]
    && forall g | 0 <= g < |v| && g != ino :: v'[g] == v[g]
  }

  /** A block of file `ino` is written; if that is past its end, the file gets longer. */
  predicate Written(v: Inodes, v': Inodes, ino: nat, offset: nat, block: Block) {
    && ino < |v| == |v'| && |v'[ino]| == (if offset < |v[ino]| then |v[ino]| else offset + 1)
    && v'[ino][offset] == block
    && (forall k | 0 <= k < |v[ino]| && k != offset :: v'[ino][k] == v[ino][k])
    && forall g | 0 <= g < |v| && g != ino :: v'[g] == v[g]
  }

  // ---------------------------------------------------------------- writing an inode

  /** An inode block in which only one inode has changed. */
  predicate OnlyInode(block0: Block, block: Block, k: nat)
    requires k < INODES_PER_BLOCK
  {
    forall k' | 0 <= k' < INODES_PER_BLOCK && k' != k :: GetInode(block, k') == GetInode(block0, k')
  }

  lemma InodeInRange(img: Image, ino: nat)
    requires Formatted(img) && ino < NInodes(img)
    ensures 0 < InodeBlockno(ino) < First(img)
  {
  }

  lemma InodeStack(img: Image, s: seq<nat>, a: nat, block: Block)
    requires StackOk(img, s) && 0 < a < First(img)
    ensures Formatted(img[a := block]) && NInodeBlocks(img[a := block]) == NInodeBlocks(img)
    ensures StackOk(img[a := block], s)
    ensures forall c | 0 <= c < NData(img) :: DataBlock(img[a := block], c) == DataBlock(img, c)
  {
    var img' := img[a := block];
    forall i | 0 <= i < |s| ensures SlotOk(img', s, i) {
      assert SlotOk(img, s, i);
    }
  }

  lemma BlocksSame(img: Image, img': Image, f: File)
    requires Formatted(img) && Formatted(img') && NData(img') == NData(img)
    requires forall c | 0 <= c < NData(img) :: DataBlock(img', c) == DataBlock(img, c)
    ensures Contents(img', f) == Contents(img, f)
    ensures SingleOn(img', f) == SingleOn(img, f) && DoubleOn(img', f) == DoubleOn(img, f) && SecondsOn(img', f) == SecondsOn(img, f)
  {
    if SecondsOn(img, f) {
      forall j | f.secFrom <= j < |f.seconds| ensures SecondOn(img', f, j) {
        assert SecondOn(img, f, j);
      }
    }
    if SecondsOn(img', f) {
      forall j | f.secFrom <= j < |f.seconds| ensures SecondOn(img, f, j) {
        assert SecondOn(img', f, j);
      }
    }
  }

  /** With its inode on disk a file that is complete is in order, and so are the others. */
  lemma InodeWritten(img: Image, d: Disk, ino: nat, block: Block)
    requires Sound(img, d) && FilesOk(img, d, ino) && ino < |d.files|
    requires InodeBlockno(ino) < |img| && OnlyInode(img[InodeBlockno(ino)], block, ino % 16)
    requires GetInode(block, ino % 16)[0] == |d.files[ino].data| && Built(img, GetInode(block, ino % 16), d.files[ino])
    ensures var img' := img[InodeBlockno(ino) := block];
            Inv(img', d) && FilesOf(img', d) == FilesOf(img, d)
  {
    var img' := img[InodeBlockno(ino) := block];
    InodeInRange(img, ino);
    InodeStack(img, d.stack, InodeBlockno(ino), block);
    hide Partition, StackOk, SingleOn, DoubleOn, SecondsOn;
    forall g | 0 <= g < |d.files| ensures FileOk(img', g, d.files[g]) && Contents(img', d.files[g]) == Contents(img, d.files[g]) {
      BlocksSame(img, img', d.files[g]);
      InodeInRange(img, g);
      if g != ino {
        assert FileOk(img, g, d.files[g]) && InodeOf(img', g) == InodeOf(img, g);
      }
    }
  }

  // ---------------------------------------------------------------- growing and writing

  lemma BuiltStart(img: Image, d: Disk, ino: nat)
    requires Inv(img, d) && ino < |d.files|
    ensures Built(img, InodeOf(img, ino), d.files[ino]) && InodeOf(img, ino)[0] == |d.files[ino].data|
    ensures Used(d.files[ino]) == Total(|d.files[ino].data|)
    ensures |d.files[ino].data| <= WITH_SINGLE ==> AtSingle(img, InodeOf(img, ino), d.files[ino], |d.files[ino].data|)
  {
    hide Sound;
    InvNeeds(img, d);
  }

  /** With the new size the inode block is complete. */
  lemma GrowEnd(img0: Image, img: Image, d0: Disk, d: Disk, ino: nat, block: Block)
    requires Growing(img0, img, d0, d, ino) && ino < NInodes(img0) && InodeBlockno(ino) < |img|
    requires OnlyPointers(img0[InodeBlockno(ino)], block, ino % 16) && |d.files[ino].data| < WORD_LIMIT
    requires Built(img, GetInode(block, ino % 16), d.files[ino])
    ensures var img' := img[InodeBlockno(ino) := block[16 * (ino % 16) := |d.files[ino].data|]];
            Inv(img', d) && Lengthened(FilesOf(img0, d0), FilesOf(img', d), ino, |d.files[ino].data|)
  {
    hide Sound, OtherSame, OldSame;
    var k := ino % 16;
    var size: Word := |d.files[ino].data|;
    var block': Block := block[16 * k := size];
    forall k' | 0 <= k' < INODES_PER_BLOCK
      ensures GetInode(block', k') == if k' == k then GetInode(block, k)[0 := size] else GetInode(block, k')
    {
      InodeUpdated(block, k, 0, size, k');
    }
    InodeInRange(img0, ino);
    GrownFiles(img0, img, d0, d, ino);
    assert Built(img, GetInode(block', k), d.files[ino]);
    InodeWritten(img, d, ino, block');
  }

  lemma GrownFiles(img0: Image, img: Image, d0: Disk, d: Disk, ino: nat)
    requires Growing(img0, img, d0, d, ino)
    ensures FilesOk(img, d, ino) && Lengthened(FilesOf(img0, d0), FilesOf(img, d), ino, |d.files[ino].data|)
  {
    hide Sound, FileOk;
    forall g | 0 <= g < |d.files| && g != ino ensures FileOk(img, g, d.files[g]) && FilesOf(img, d)[g] == FilesOf(img0, d0)[g] {
      assert OtherSame(img0, img, d0, d, g);
    }
  }

  lemma DataInRange(img: Image, d: Disk, ino: nat, offset: nat)
    requires Sound(img, d) && ino < |d.files| && d.files[ino].from <= offset < |d.files[ino].data|
    ensures d.files[ino].data[offset] < NData(img)
  {
    hide StackOk;
    assert Has(d, Data(ino, offset)) && BlockAt(d, Data(ino, offset)) == d.files[ino].data[offset];
  }

  lemma PointersLead(img: Image, inode: Inode, f: File, offset: nat)
    requires Formatted(img) && Built(img, inode, f) && offset < |f.data| && f.data[offset] < NData(img)
    ensures Traverse(img, inode, offset) == First(img) + f.data[offset]
  {
    if offset >= WITH_SINGLE {
      SecondLeads(img, inode, f, offset);
    }
  }

  lemma SecondLeads(img: Image, inode: Inode, f: File, offset: nat)
    requires Formatted(img) && Built(img, inode, f) && WITH_SINGLE <= offset < |f.data| && f.data[offset] < NData(img)
    ensures Traverse(img, inode, offset) == First(img) + f.data[offset]
  {
    var j := (offset - WITH_SINGLE) / 256;
    assert SecondOn(img, f, j) && offset - SecondStart(j) == (offset - WITH_SINGLE) % 256;
    assert Entry(img, inode[14], j) == Some(f.seconds[j]);
    hide Built, SingleOn, DoubleOn;
  }

  /** The block of a file is where its pointers lead. */
  lemma TraverseIs(img: Image, d: Disk, ino: nat, offset: nat)
    requires Inv(img, d) && ino < |d.files| && offset < |d.files[ino].data|
    ensures |d.files[ino].data| <= WITH_DOUBLE && d.files[ino].data[offset] < NData(img)
    ensures Traverse(img, InodeOf(img, ino), offset) == First(img) + d.files[ino].data[offset]
  {
    DataInRange(img, d, ino, offset);
    hide StackOk, Partition, Traverse;
    assert FileOk(img, ino, d.files[ino]);
    PointersLead(img, InodeOf(img, ino), d.files[ino], offset);
  }

  /** Writing a data block changes one block of one file. */
  lemma DataWritten(img: Image, d: Disk, ino: nat, offset: nat, block: Block)
    requires Inv(img, d) && ino < |d.files| && offset < |d.files[ino].data|
    ensures d.files[ino].data[offset] < NData(img)
    ensures var img' := img[First(img) + d.files[ino].data[offset] := block];
            Inv(img', d) && Written(FilesOf(img, d), FilesOf(img', d), ino, offset, block)
  {
    hide StackOk, Partition;
    var f, p := d.files[ino], Data(ino, offset);
    DataInRange(img, d, ino, offset);
    assert Has(d, p);
    WriteUntouched(img, d, p, block);
    var img' := img[First(img) + f.data[offset] := block];
    OthersWritten(img, img', d, ino, offset);
    OwnWritten(img, img', d, ino, offset);
    hide FileOk;
  }

  lemma OthersWritten(img: Image, img': Image, d: Disk, ino: nat, offset: nat)
    requires Inv(img, d) && ino < |d.files| && Untouched(img, img', d, Data(ino, offset))
    ensures forall g | 0 <= g < |d.files| && g != ino :: FileOk(img', g, d.files[g]) && FilesOf(img', d)[g] == FilesOf(img, d)[g]
  {
    hide Sound, FileOk;
    forall g | 0 <= g < |d.files| && g != ino ensures FileOk(img', g, d.files[g]) && FilesOf(img', d)[g] == FilesOf(img, d)[g] {
      OtherKept(img, img', d, Data(ino, offset), g);
    }
  }

  lemma OwnWritten(img: Image, img': Image, d: Disk, ino: nat, offset: nat)
    requires Inv(img, d) && ino < |d.files| && offset < |d.files[ino].data| && Untouched(img, img', d, Data(ino, offset))
    ensures FileOk(img', ino, d.files[ino])
    ensures forall k | 0 <= k < |d.files[ino].data| && k != offset ::
      Contents(img', d.files[ino])[k] == Contents(img, d.files[ino])[k]
  {
    var f := d.files[ino];
    assert FileOk(img, ino, f);
    OwnParts(img, img', d, ino, Data(ino, offset));
    InodeInRange(img, ino);
    forall k | 0 <= k < |f.data| && k != offset ensures Contents(img', f)[k] == Contents(img, f)[k] {
      assert Has(d, Data(ino, k)) && BlockAt(d, Data(ino, k)) == f.data[k];
    }
  }

  lemma SizeIs(img: Image, d: Disk, ino: nat)
    requires Inv(img, d) && ino < |d.files|
    ensures Formatted(img) && ino < NInodes(img) && InodeOf(img, ino)[0] == |d.files[ino].data|
  {
    InvNeeds(img, d);
  }

  lemma TotalGrows(n: nat, m: nat)
    requires n <= m
    ensures Total(n) <= Total(m)
  {
  }

  // ---------------------------------------------------------------- what goes wrong

  /** What allocation leaves on a full disk for block `offset` of a file: the inode says that the file is longer, and
      points to no block. */
  function PointerToNone(img: Image, ino: nat, offset: nat): Image
    requires InodeBlockno(ino) < |img| && offset < DIRECT
  {
    var k := ino % INODES_PER_BLOCK;
    img[InodeBlockno(ino) := SetPointer(img[InodeBlockno(ino)], k, 1 + offset, NONE)[16 * k := offset + 1]]
  }

  /** Past the double indirect blocks the code starts from the double indirect block again: for every offset there
      the pointer comes out of a data block of the file, number 268 and up. */
  lemma TripleReadsData(img: Image, inode: Inode, f: File, offset: nat)
    requires Formatted(img) && Built(img, inode, f)
    requires WITH_DOUBLE <= offset < WITH_DOUBLE + ENTRIES_PER_BLOCK * ENTRIES_PER_BLOCK * ENTRIES_PER_BLOCK
    requires var k := WITH_SINGLE + (offset - WITH_DOUBLE) / 256; k < |f.data| && f.data[k] < NData(img)
    ensures var k := WITH_SINGLE + (offset - WITH_DOUBLE) / 256;
            Traverse(img, inode, offset) == Address(img, DataBlock(img, f.data[k])[(offset - WITH_DOUBLE) % 256])
  {
    var e := offset - WITH_DOUBLE;
    var j, r := e / 65536, e / 256 % 256;
    assert e / 256 == 256 * j + r;
    assert j < |f.seconds| && f.double != [];
    assert SecondOn(img, f, j) && WITH_SINGLE + e / 256 - SecondStart(j) == r;
    assert Entry(img, inode[14], j) == Some(f.seconds[j]);
    assert Entry(img, f.seconds[j], r) == Some(f.data[WITH_SINGLE + e / 256]);
    hide Built, SingleOn, DoubleOn, SecondOn;
  }

  /** When block 268 of a file is null the pointer at offset 65804 leads to data block 0, whoever has it. */
  lemma TripleIsWrong(img: Image, d: Disk, ino: nat)
    requires Inv(img, d) && ino < |d.files| && |d.files[ino].data| == WITH_DOUBLE
    requires FilesOf(img, d)[ino][WITH_SINGLE] == NullBlock()
    ensures Traverse(img, InodeOf(img, ino), WITH_DOUBLE) == First(img)
  {
    InvNeeds(img, d);
    hide StackOk, Partition;
    BuiltStart(img, d, ino);
    DataInRange(img, d, ino, WITH_SINGLE);
    TripleReadsData(img, InodeOf(img, ino), d.files[ino], WITH_DOUBLE);
  }

  /** The pointer to no block leads to the last inode block. */
  lemma NoneLeads(img: Image, ino: nat, offset: nat)
    requires Formatted(img) && ino < NInodes(img) && InodeBlockno(ino) < |img| && offset < DIRECT
    ensures var img' := PointerToNone(img, ino, offset);
            && NInodeBlocks(img) < |img'| && img'[0] == img[0]
            && Traverse(img', GetInode(img'[InodeBlockno(ino)], ino % INODES_PER_BLOCK), offset) == NInodeBlocks(img)
  {
    var k := ino % INODES_PER_BLOCK;
    InodeUpdated(SetPointer(img[InodeBlockno(ino)], k, 1 + offset, NONE), k, 0, offset + 1, k);
  }

  /** A disk on which a file points to no block is not in order. */
  lemma PointsToNone(img: Image, d: Disk, ino: nat, offset: nat)
    requires Formatted(img) && ino < NInodes(img) && offset < DIRECT
    requires InodeOf(img, ino)[0] == offset + 1 && InodeOf(img, ino)[1 + offset] == NONE
    ensures !Inv(img, d)
  {
    if Inv(img, d) {
      InvNeeds(img, d);
      DataInRange(img, d, ino, offset);
    }
  }

  /** So a full disk is not in order after a write of a new direct block, whatever that holds, unless it falls on
      the inode of its own file. */
  lemma FullDiskBreaks(img: Image, ino: nat, offset: nat, block: Block, d: Disk)
    requires Formatted(img) && ino < NInodes(img) && InodeBlockno(ino) < NInodeBlocks(img) && offset < DIRECT
    ensures !Inv(PointerToNone(img, ino, offset)[NInodeBlocks(img) := block], d)
  {
    var k := ino % INODES_PER_BLOCK;
    InodeUpdated(SetPointer(img[InodeBlockno(ino)], k, 1 + offset, NONE), k, 0, offset + 1, k);
    PointsToNone(PointerToNone(img, ino, offset)[NInodeBlocks(img) := block], d, ino, offset);
  }
}
