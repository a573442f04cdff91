/** How a file of a unix disk grows: one block at a time comes off the free list, and the pointers to it are in memory
    until they are written. */
module UnixGrow {
  import opened Blocks
  import opened UnixLayout
  import opened UnixLists
  import opened UnixFiles
  import opened UnixInvariant

  /** All other files, and the blocks the file had, are as before; its pointers may be in memory. */
  ghost predicate Growing(img0: Image, img: Image, d0: Disk, d: Disk, ino: nat) {
    && Formatted(img0) && Sound(img, d) && |img| == |img0| && NInodeBlocks(img) == NInodeBlocks(img0)
    && (forall c | 0 < c < First(img0) :: img[c] == img0[c])
    && ino < |d.files| == |d0.files|
    && (forall g | 0 <= g < |d.files| && g != ino :: OtherSame(img0, img, d0, d, g))
    && OldSame(img0, img, d0.files[ino], d.files[ino])
    && |d.stack| + Used(d.files[ino]) == |d0.stack| + Used(d0.files[ino])
  }

  ghost predicate OtherSame(img0: Image, img: Image, d0: Disk, d: Disk, g: nat)
    requires Formatted(img0) && Formatted(img) && g < |d.files| == |d0.files|
  {
    d.files[g] == d0.files[g] && FileOk(img, g, d.files[g]) && Contents(img, d.files[g]) == Contents(img0, d0.files[g])
  }

  predicate OldSame(img0: Image, img: Image, f0: File, f: File)
    requires Formatted(img0) && Formatted(img)
  {
    f.from == 0 && f.secFrom == 0 && f0.data <= f.data && Contents(img, f)[..|f0.data|] == Contents(img0, f0)
  }

  lemma GrowStart(img: Image, d: Disk, ino: nat)
    requires Inv(img, d) && ino < |d.files|
    ensures Growing(img, img, d, d, ino)
  {
    assert FileOk(img, ino, d.files[ino]);
  }

  /** The step from `img` to `img'` leaves all other files alone. */
  lemma OthersStay(img0: Image, img: Image, img': Image, d0: Disk, d: Disk, d': Disk, ino: nat, p: Place)
    requires Growing(img0, img, d0, d, ino) && Untouched(img, img', d, p) && (Of(p, ino) || p == Limbo)
    requires |d'.files| == |d.files| && forall g | 0 <= g < |d.files| && g != ino :: d'.files[g] == d.files[g]
    ensures forall g | 0 <= g < |d.files| && g != ino :: OtherSame(img0, img', d0, d', g)
  {
    hide FileOk, Sound;
    forall g | 0 <= g < |d.files| && g != ino ensures OtherSame(img0, img', d0, d', g) {
      assert OtherSame(img0, img, d0, d, g);
      OtherKept(img, img', d, p, g);
    }
  }

  lemma OldStays(img0: Image, img: Image, img': Image, d: Disk, ino: nat, p: Place, f0: File, f': File)
    requires Sound(img, d) && ino < |d.files| && Formatted(img0) && OldSame(img0, img, f0, d.files[ino])
    requires Untouched(img, img', d, p) && !p.Data? && f'.from == f'.secFrom == 0 && d.files[ino].data <= f'.data
    ensures OldSame(img0, img', f0, f')
  {
    var f := d.files[ino];
    forall k | 0 <= k < |f0.data| ensures Contents(img', f')[k] == Contents(img, f)[k] {
      assert Has(d, Data(ino, k)) && BlockAt(d, Data(ino, k)) == f.data[k];
    }
    assert Contents(img', f')[..|f0.data|] == Contents(img, f)[..|f0.data|];
  }

  lemma GrowTake(img0: Image, img: Image, d0: Disk, d: Disk, ino: nat, p: Place)
    requires Growing(img0, img, d0, d, ino) && d.stack != [] && Next(d.files[ino], ino, p)
    ensures FreeOffset(img) <= 254 && TakenBlock(img) == Top(d.stack) < NData(img)
    ensures Growing(img0, TakenImage(img), d0, Taken(d, ino, p), ino)
  {
    hide StackOk, FileOk, OtherSame, TakenImage, TakenBlock;
    TakeUntouched(img, d);
    var img', d' := TakenImage(img), Taken(d, ino, p);
    Take(img, d.stack);
    TakenKeeps(d, ino, p);
    assert Has(d, Slot(|d.stack| - 1)) && BlockAt(d, Slot(|d.stack| - 1)) == Top(d.stack);
    OthersStay(img0, img, img', d0, d, d', ino, Limbo);
    OldStays(img0, img, img', d, ino, Limbo, d0.files[ino], d'.files[ino]);
  }

  lemma GrowWrite(img0: Image, img: Image, d0: Disk, d: Disk, ino: nat, p: Place, block: Block)
    requires Growing(img0, img, d0, d, ino) && Has(d, p) && Of(p, ino) && !p.Data?
    ensures BlockAt(d, p) < NData(img)
    ensures Growing(img0, img[First(img) + BlockAt(d, p) := block], d0, d, ino)
  {
    hide StackOk, FileOk, OtherSame;
    WriteUntouched(img, d, p, block);
    var img' := img[First(img) + BlockAt(d, p) := block];
    OthersStay(img0, img, img', d0, d, d, ino, p);
    OldStays(img0, img, img', d, ino, p, d0.files[ino], d.files[ino]);
  }

  // ---------------------------------------------------------------- the blocks of the file itself

  /** The indirect blocks of the file, but for the one at `p`, are as before. */
  lemma OwnParts(img: Image, img': Image, d: Disk, ino: nat, p: Place)
    requires Sound(img, d) && ino < |d.files| && Untouched(img, img', d, p)
    ensures p != Single(ino) && |d.files[ino].single| <= 1 && SingleOn(img, d.files[ino]) ==> SingleOn(img', d.files[ino])
    ensures p != Double(ino) && |d.files[ino].double| <= 1 && DoubleOn(img, d.files[ino]) ==> DoubleOn(img', d.files[ino])
    ensures forall j | d.files[ino].secFrom <= j < |d.files[ino].seconds| && p != Second(ino, j) && SecondOn(img, d.files[ino], j) ::
              SecondOn(img', d.files[ino], j)
  {
    var f := d.files[ino];
    assert |f.single| == 1 ==> Has(d, Single(ino)) && BlockAt(d, Single(ino)) == f.single[0];
    assert |f.double| == 1 ==> Has(d, Double(ino)) && BlockAt(d, Double(ino)) == f.double[0];
    forall j | f.secFrom <= j < |f.seconds| && p != Second(ino, j) && SecondOn(img, f, j) ensures SecondOn(img', f, j) {
      assert Has(d, Second(ino, j)) && BlockAt(d, Second(ino, j)) == f.seconds[j];
    }
  }

  /** There is a block left as long as the file has fewer than the new size takes. */
  lemma HasRoom(i: nat, offset: nat, j: nat)
    requires i <= offset
    ensures i < Total(offset + 1)
    ensures i >= DIRECT ==> i + 1 < Total(offset + 1)
    ensures i >= WITH_SINGLE ==> i + 2 < Total(offset + 1)
    ensures SecondStart(j) <= i ==> i + 2 + j + 1 < Total(offset + 1)
  {
  }

  // ---------------------------------------------------------------- phases

  /** The file has `i` blocks, and its pointers to direct and single indirect blocks are right in memory and on disk. */
  predicate AtSingle(img: Image, inode: Inode, f: File, i: nat)
    requires Formatted(img)
  {
    && |f.data| == i && Points(inode, f) && f.double == [] && f.seconds == []
    && |f.single| == (if i > DIRECT then 1 else 0) && SingleOn(img, f)
  }

  /** The same while the single indirect block is in memory. */
  predicate InSingle(img: Image, inode: Inode, block: Block, f: File, i: nat)
    requires Formatted(img)
  {
    && |f.data| == i && DIRECT <= i <= WITH_SINGLE && Points(inode, f) && f.double == [] && f.seconds == []
    && |f.single| == 1 && f.single[0] < NData(img) && SingleOk(block, f)
  }

  /** The file is complete but for its size in the inode. */
  ghost predicate Built(img: Image, inode: Inode, f: File)
    requires Formatted(img)
  {
    WellShaped(f) && Points(inode, f) && SingleOn(img, f) && DoubleOn(img, f) && SecondsOn(img, f)
  }

  lemma BuiltSmall(img: Image, inode: Inode, f: File)
    requires Formatted(img) && |f.data| <= WITH_SINGLE && f.from == f.secFrom == 0
    ensures Built(img, inode, f) <==> AtSingle(img, inode, f, |f.data|)
  {
  }

  lemma BuiltUses(img: Image, inode: Inode, f: File)
    requires Formatted(img) && Built(img, inode, f)
    ensures Used(f) == Total(|f.data|)
  {
  }

  /** The file has `i` blocks; the double indirect block is in memory. */
  ghost predicate AtDouble(img: Image, inode: Inode, indirect: Block, f: File, i: nat)
    requires Formatted(img)
  {
    && |f.data| == i && WITH_SINGLE <= i <= WITH_DOUBLE && Points(inode, f) && |f.single| == |f.double| == 1 && SingleOn(img, f)
    && SecondsOn(img, f) && f.secFrom == 0 && |f.seconds| == (i - WITH_SINGLE + 255) / 256 && DoubleOk(indirect, f)
    && f.double[0] < NData(img)
  }

  /** The same while the `j`-th indirect block below is in memory, too. */
  ghost predicate InSecond(img: Image, inode: Inode, indirect: Block, block: Block, f: File, i: nat, j: nat)
    requires Formatted(img)
  {
    && |f.data| == i && SecondStart(j) <= i <= SecondStart(j + 1) <= WITH_DOUBLE && Points(inode, f)
    && |f.single| == |f.double| == 1 && SingleOn(img, f) && f.secFrom == 0 && |f.seconds| == j + 1
    && DoubleOk(indirect, f) && f.double[0] < NData(img) && f.seconds[j] < NData(img) && SecondOk(block, f, j)
    && forall k | 0 <= k < j :: SecondOn(img, f, k)
  }

  // ---------------------------------------------------------------- steps in memory

  /** An inode block in which only the pointers of one inode have changed. */
  predicate OnlyPointers(block0: Block, block: Block, k: nat)
    requires k < INODES_PER_BLOCK
  {
    && GetInode(block, k)[0] == GetInode(block0, k)[0]
    && forall k' | 0 <= k' < INODES_PER_BLOCK && k' != k :: GetInode(block, k') == GetInode(block0, k')
  }

  function SetPointer(block: Block, k: nat, w: nat, x: Word): (r: Block)
    requires k < INODES_PER_BLOCK && 0 < w < 16
    ensures OnlyPointers(block, r, k) && GetInode(r, k) == GetInode(block, k)[w := x]
  {
    forall k' | 0 <= k' < INODES_PER_BLOCK ensures
      GetInode(block[16 * k + w := x], k') == if k' == k then GetInode(block, k)[w := x] else GetInode(block, k')
    {
      InodeUpdated(block, k, w, x, k');
    }
    block[16 * k + w := x]
  }

  lemma TakenImageOn(img: Image, d: Disk, ino: nat, p: Place)
    requires Sound(img, d) && d.stack != [] && ino < |d.files|
    ensures FreeOffset(img) <= 254 && Formatted(TakenImage(img)) && NData(TakenImage(img)) == NData(img)
    ensures forall c | 0 <= c < NData(img) :: DataBlock(TakenImage(img), c) == DataBlock(img, c)
    ensures First(TakenImage(img)) == First(img)
  {
    hide SlotOk;
  }

  lemma DirectStep(img: Image, d: Disk, inode: Inode, ino: nat, i: nat)
    requires Sound(img, d) && d.stack != [] && ino < |d.files| && AtSingle(img, inode, d.files[ino], i) && i < DIRECT
    requires Top(d.stack) < NData(img)
    ensures FreeOffset(img) <= 254
    ensures AtSingle(TakenImage(img), inode[1 + i := Top(d.stack)], Taken(d, ino, Data(ino, i)).files[ino], i + 1)
  {
    TakenImageOn(img, d, ino, Data(ino, i));
    hide Sound, TakenImage;
  }

  /** The single indirect block is new. */
  lemma NewSingle(img: Image, d: Disk, inode: Inode, block: Block, ino: nat)
    requires Sound(img, d) && d.stack != [] && ino < |d.files| && AtSingle(img, inode, d.files[ino], DIRECT)
    requires Top(d.stack) < NData(img)
    ensures FreeOffset(img) <= 254 && Next(d.files[ino], ino, Single(ino))
    ensures InSingle(TakenImage(img), inode[13 := Top(d.stack)], block, Taken(d, ino, Single(ino)).files[ino], DIRECT)
  {
    TakenImageOn(img, d, ino, Single(ino));
    hide Sound, TakenImage;
  }

  lemma SingleStep(img: Image, d: Disk, inode: Inode, block: Block, ino: nat, i: nat)
    requires Sound(img, d) && d.stack != [] && ino < |d.files| && InSingle(img, inode, block, d.files[ino], i) && i < WITH_SINGLE
    requires Top(d.stack) < NData(img)
    ensures FreeOffset(img) <= 254
    ensures InSingle(TakenImage(img), inode, block[i - DIRECT := Top(d.stack)], Taken(d, ino, Data(ino, i)).files[ino], i + 1)
  {
    TakenImageOn(img, d, ino, Data(ino, i));
    hide Sound, TakenImage;
  }

  lemma SingleDone(img: Image, inode: Inode, block: Block, f: File, i: nat)
    requires Formatted(img) && InSingle(img, inode, block, f, i) && i > DIRECT
    ensures AtSingle(img[First(img) + f.single[0] := block], inode, f, i)
  {
  }

  lemma NewDouble(img: Image, d: Disk, inode: Inode, indirect: Block, ino: nat)
    requires Sound(img, d) && d.stack != [] && ino < |d.files| && AtSingle(img, inode, d.files[ino], WITH_SINGLE)
    requires Top(d.stack) < NData(img) && d.files[ino].secFrom == 0
    ensures FreeOffset(img) <= 254 && Next(d.files[ino], ino, Double(ino))
    ensures AtDouble(TakenImage(img), inode[14 := Top(d.stack)], indirect, Taken(d, ino, Double(ino)).files[ino], WITH_SINGLE)
  {
    TakenImageOn(img, d, ino, Double(ino));
    hide Sound, TakenImage;
  }

  lemma NewSecond(img: Image, d: Disk, inode: Inode, indirect: Block, block: Block, ino: nat, i: nat, j: nat)
    requires Sound(img, d) && d.stack != [] && ino < |d.files| && AtDouble(img, inode, indirect, d.files[ino], i)
    requires Top(d.stack) < NData(img) && i == SecondStart(j) < WITH_DOUBLE
    ensures FreeOffset(img) <= 254 && Next(d.files[ino], ino, Second(ino, j))
    ensures InSecond(TakenImage(img), inode, indirect[j := Top(d.stack)], block, Taken(d, ino, Second(ino, j)).files[ino], i, j)
  {
    TakenImageOn(img, d, ino, Second(ino, j));
    hide Sound, TakenImage;
    var f := d.files[ino];
    assert |f.seconds| == j;
    forall k | 0 <= k < j ensures SecondOn(TakenImage(img), Taken(d, ino, Second(ino, j)).files[ino], k) {
      assert SecondOn(img, f, k);
    }
  }

  lemma OldSecond(img: Image, inode: Inode, indirect: Block, f: File, i: nat, j: nat)
    requires Formatted(img) && AtDouble(img, inode, indirect, f, i) && SecondStart(j) < i < SecondStart(j + 1) <= WITH_DOUBLE
    ensures |f.seconds| == j + 1 && f.seconds[j] < NData(img)
    ensures InSecond(img, inode, indirect, DataBlock(img, f.seconds[j]), f, i, j)
  {
    assert SecondOn(img, f, j);
  }

  lemma SecondStep(img: Image, d: Disk, inode: Inode, indirect: Block, block: Block, ino: nat, i: nat, j: nat)
    requires Sound(img, d) && d.stack != [] && ino < |d.files| && InSecond(img, inode, indirect, block, d.files[ino], i, j)
    requires Top(d.stack) < NData(img) && i < SecondStart(j + 1)
    ensures FreeOffset(img) <= 254
    ensures InSecond(TakenImage(img), inode, indirect, block[i - SecondStart(j) := Top(d.stack)],
                     Taken(d, ino, Data(ino, i)).files[ino], i + 1, j)
  {
    TakenImageOn(img, d, ino, Data(ino, i));
    hide Sound, TakenImage;
    forall k | 0 <= k < j ensures SecondOn(TakenImage(img), Taken(d, ino, Data(ino, i)).files[ino], k) {
      assert SecondOn(img, d.files[ino], k);
    }
  }

  lemma SecondDone(img: Image, img': Image, d: Disk, inode: Inode, indirect: Block, block: Block, ino: nat, i: nat, j: nat)
    requires Sound(img, d) && ino < |d.files| && InSecond(img, inode, indirect, block, d.files[ino], i, j) && i > SecondStart(j)
    requires Untouched(img, img', d, Second(ino, j)) && DataBlock(img', d.files[ino].seconds[j]) == block
    ensures AtDouble(img', inode, indirect, d.files[ino], i)
  {
    OwnParts(img, img', d, ino, Second(ino, j));
    hide Sound, Untouched;
    forall k | 0 <= k < |d.files[ino].seconds| ensures SecondOn(img', d.files[ino], k) {
    }
  }

  lemma DoubleDone(img: Image, img': Image, d: Disk, inode: Inode, indirect: Block, ino: nat, i: nat)
    requires Sound(img, d) && ino < |d.files| && AtDouble(img, inode, indirect, d.files[ino], i) && i > WITH_SINGLE
    requires Untouched(img, img', d, Double(ino)) && DataBlock(img', d.files[ino].double[0]) == indirect
    requires d.files[ino].from == 0
    ensures Built(img', inode, d.files[ino])
  {
    OwnParts(img, img', d, ino, Double(ino));
    hide Sound, Untouched;
  }

  lemma ReadyForDouble(img: Image, inode: Inode, f: File)
    requires Formatted(img) && Built(img, inode, f) && |f.data| > WITH_SINGLE
    ensures |f.double| == 1 && f.double[0] < NData(img) && AtDouble(img, inode, DataBlock(img, f.double[0]), f, |f.data|)
  {
  }

  lemma DoublePointer(img: Image, inode: Inode, indirect: Block, f: File, i: nat)
    requires Formatted(img) && AtDouble(img, inode, indirect, f, i)
    ensures f.double == [inode[14]] && inode[14] < NData(img)
  {
  }

  lemma SingleSize(img: Image, inode: Inode, f: File, i: nat)
    requires Formatted(img) && AtSingle(img, inode, f, i)
    ensures |f.data| == i
  {
  }
}
