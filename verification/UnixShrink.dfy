/** How a file of a unix disk is freed: its blocks go onto the free list one by one, each indirect block after the
    blocks that it points to. */
module UnixShrink {
  import opened Blocks
  import opened UnixLayout
  import opened UnixLists
  import opened UnixFiles
  import opened UnixInvariant
  import opened UnixGrow
  import opened UnixEffects

  /** All other files are as before.  Blocks of this one have become slots of the free list, on top of the old ones;
      the pointers to the rest are still on disk. */
  ghost predicate Shrinking(img0: Image, img: Image, d0: Disk, d: Disk, ino: nat) {
    && Formatted(img0) && Sound(img, d) && |img| == |img0| && NInodeBlocks(img) == NInodeBlocks(img0)
    && (forall c | 0 < c < First(img0) :: img[c] == img0[c])
    && ino < |d.files| == |d0.files| && |d.at| == |d0.at| && d0.stack <= d.stack
    && (forall g | 0 <= g < |d.files| && g != ino :: OtherSame(img0, img, d0, d, g))
    && Remains(img, d0.files[ino], d.files[ino])
    && (forall b | 0 <= b < |d.at| :: d.at[b] == d0.at[b] || (Of(d0.at[b], ino) && d.at[b].Slot?))
  }

  /** What is left of the file is where it was. */
  ghost predicate Remains(img: Image, f0: File, f: File)
    requires Formatted(img)
  {
    && f.data == f0.data && f.seconds == f0.seconds && f.from <= |f.data| && f.secFrom <= |f.seconds|
    && (f.single == [] || f.single == f0.single) && (f.double == [] || f.double == f0.double)
    && |f.single| <= 1 && |f.double| <= 1 && SingleOn(img, f) && DoubleOn(img, f) && SecondsOn(img, f)
  }

  lemma ShrinkStart(img: Image, d: Disk, ino: nat)
    requires Inv(img, d) && ino < |d.files|
    ensures Shrinking(img, img, d, d, ino)
  {
    assert FileOk(img, ino, d.files[ino]);
  }

  lemma OthersRemain(img0: Image, img: Image, img': Image, d0: Disk, d: Disk, d': Disk, ino: nat, p: Place)
    requires Shrinking(img0, img, d0, d, ino) && Untouched(img, img', d, p) && Of(p, ino)
    requires |d'.files| == |d.files| && forall g | 0 <= g < |d.files| && g != ino :: d'.files[g] == d.files[g]
    ensures forall g | 0 <= g < |d.files| && g != ino :: OtherSame(img0, img', d0, d', g)
  {
    hide FileOk, Sound, Remains;
    forall g | 0 <= g < |d.files| && g != ino ensures OtherSame(img0, img', d0, d', g) {
      assert OtherSame(img0, img, d0, d, g);
      OtherKept(img, img', d, p, g);
    }
  }

  lemma PartRemains(img: Image, img': Image, d: Disk, ino: nat, p: Place, f0: File)
    requires Sound(img, d) && ino < |d.files| && Untouched(img, img', d, p) && Leads(d.files[ino], ino, p)
    requires Remains(img, f0, d.files[ino])
    ensures Remains(img', f0, Shrunk(d.files[ino], p))
  {
    OwnParts(img, img', d, ino, p);
    hide Sound, Untouched;
    var f, f' := d.files[ino], Shrunk(d.files[ino], p);
    forall j | f'.secFrom <= j < |f'.seconds| ensures SecondOn(img', f', j) {
      assert SecondOn(img, f, j) && SecondOn(img', f, j);
    }
  }

  lemma GiveSound(img: Image, d: Disk, ino: nat, p: Place)
    requires Sound(img, d) && ino < |d.files| && Leads(d.files[ino], ino, p)
    ensures BlockAt(d, p) < NData(img) && Readable(img)
    ensures Sound(GivenImage(img, BlockAt(d, p)), Given(d, ino, p))
  {
    hide SlotOk, HeadOk, GivenImage;
    assert Has(d, p);
    GivenKeeps(d, ino, p);
    StackDistinct(d);
    assert BlockAt(d, p) !in d.stack;
    Give(img, d.stack, BlockAt(d, p));
  }

  lemma GiveStep(img0: Image, img: Image, d0: Disk, d: Disk, ino: nat, p: Place)
    requires Shrinking(img0, img, d0, d, ino) && Leads(d.files[ino], ino, p)
    ensures BlockAt(d, p) < NData(img) && Readable(img) && d.at[BlockAt(d, p)] == p
    ensures Shrinking(img0, GivenImage(img, BlockAt(d, p)), d0, Given(d, ino, p), ino)
  {
    assert Has(d, p) && Of(p, ino);
    GiveSound(img, d, ino, p);
    GiveUntouched(img, d, p);
    var img', d' := GivenImage(img, BlockAt(d, p)), Given(d, ino, p);
    OthersRemain(img0, img, img', d0, d, d', ino, p);
    PartRemains(img, img', d, ino, p, d0.files[ino]);
    hide Sound, OtherSame, Remains, GivenImage;
  }

  /** Nothing of the file is left. */
  predicate AllGone(f: File) {
    f.from == |f.data| && f.single == [] && f.double == [] && f.secFrom == |f.seconds|
  }

  /** When nothing is left and the size is null, the file is empty; exactly its blocks have become free. */
  lemma ShrinkEnd(img0: Image, img: Image, d0: Disk, d: Disk, ino: nat, block: Block)
    requires Shrinking(img0, img, d0, d, ino) && AllGone(d.files[ino]) && ino < NInodes(img0) && InodeBlockno(ino) < |img|
    requires block == img0[InodeBlockno(ino)]
    ensures var img', d' := img[InodeBlockno(ino) := block[16 * (ino % 16) := 0]], d.(files := d.files[ino := NoFile()]);
            && Inv(img', d') && FilesOf(img', d') == FilesOf(img0, d0)[ino := []] && d0.stack <= d'.stack
            && FreedOnly(d0, d', ino)
  {
    hide StackOk;
    var d' := d.(files := d.files[ino := NoFile()]);
    var k := ino % 16;
    var block': Block := block[16 * k := 0];
    forall k' | 0 <= k' < INODES_PER_BLOCK
      ensures GetInode(block', k') == if k' == k then GetInode(block, k)[0 := 0] else GetInode(block, k')
    {
      InodeUpdated(block, k, 0, 0, k');
    }
    InodeInRange(img0, ino);
    GonePartition(d, ino);
    GoneFiles(img0, img, d0, d, ino);
    InodeWritten(img, d', ino, block');
    NoneOf(d0, d, ino);
  }

  /** Exactly the blocks of the file have become slots of the free list. */
  ghost predicate FreedOnly(d0: Disk, d: Disk, ino: nat) {
    |d.at| == |d0.at| && forall b | 0 <= b < |d.at| ::
      if Of(d0.at[b], ino) then d.at[b].Slot? else d.at[b] == d0.at[b]
  }

  lemma GonePartition(d: Disk, ino: nat)
    requires Partition(d) && ino < |d.files| && AllGone(d.files[ino])
    ensures Partition(d.(files := d.files[ino := NoFile()]))
  {
    var d' := d.(files := d.files[ino := NoFile()]);
    forall p: Place ensures Has(d', p) == Has(d, p) {
    }
    forall p: Place | Has(d', p) ensures BlockAt(d', p) < |d'.at| && d'.at[BlockAt(d', p)] == p {
      assert Has(d, p) && BlockAt(d', p) == BlockAt(d, p);
    }
  }

  lemma NoneOf(d0: Disk, d: Disk, ino: nat)
    requires Partition(d) && ino < |d.files| && AllGone(d.files[ino]) && |d.at| == |d0.at|
    requires forall b | 0 <= b < |d.at| :: d.at[b] == d0.at[b] || (Of(d0.at[b], ino) && d.at[b].Slot?)
    ensures FreedOnly(d0, d, ino)
  {
    forall b | 0 <= b < |d.at| && Of(d0.at[b], ino) ensures d.at[b].Slot? {
      if d.at[b] == d0.at[b] {
        assert Has(d, d.at[b]);
      }
    }
  }

  lemma GoneFiles(img0: Image, img: Image, d0: Disk, d: Disk, ino: nat)
    requires Shrinking(img0, img, d0, d, ino)
    ensures var d' := d.(files := d.files[ino := NoFile()]);
            FilesOk(img, d', ino) && FilesOf(img, d') == FilesOf(img0, d0)[ino := []]
  {
    hide Sound, FileOk;
    var d' := d.(files := d.files[ino := NoFile()]);
    forall g | 0 <= g < |d.files| && g != ino ensures FileOk(img, g, d'.files[g]) && FilesOf(img, d')[g] == FilesOf(img0, d0)[g] {
      assert OtherSame(img0, img, d0, d, g);
    }
  }

  // ---------------------------------------------------------------- what the pointers in memory say

  /** The pointers in the inode, and the numbers of indirect blocks. */
  predicate Whole(inode: Inode, f: File) {
    WellShaped(f) && Points(inode, f)
  }

  lemma WholeStart(img: Image, d: Disk, ino: nat)
    requires Inv(img, d) && ino < |d.files|
    ensures Whole(InodeOf(img, ino), d.files[ino])
  {
    InvNeeds(img, d);
  }

  lemma SingleRead(img: Image, inode: Inode, f0: File, f: File)
    requires Formatted(img) && Remains(img, f0, f) && Whole(inode, f0) && |f0.data| > DIRECT && f.single == f0.single
    ensures f0.single == [inode[13]] && inode[13] < NData(img) && SingleOk(DataBlock(img, inode[13]), f0)
  {
  }

  lemma DoubleRead(img: Image, inode: Inode, f0: File, f: File)
    requires Formatted(img) && Remains(img, f0, f) && Whole(inode, f0) && |f0.data| > WITH_SINGLE && f.double == f0.double
    ensures f0.double == [inode[14]] && inode[14] < NData(img) && DoubleOk(DataBlock(img, inode[14]), f0)
  {
  }

  lemma SecondRead(img: Image, f0: File, f: File, j: nat)
    requires Formatted(img) && Remains(img, f0, f) && f.secFrom <= j < |f.seconds|
    ensures f0.seconds[j] < NData(img) && SecondOk(DataBlock(img, f0.seconds[j]), f0, j)
  {
    assert SecondOn(img, f, j);
  }
}
