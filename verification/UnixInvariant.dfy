/** The invariant of a unix disk: the pointers in its blocks are those of the files, and every data block is at one
    place. */
module UnixInvariant {
  import opened Blocks
  import opened UnixLayout
  import opened UnixLists
  import opened UnixFiles

  // ---------------------------------------------------------------- pointers

  /** The inode has the pointers to the direct blocks and to the indirect ones. */
  predicate Points(inode: Inode, f: File) {
    && (forall i | 0 <= i < |f.data| && i < DIRECT :: inode[1 + i] == f.data[i])
    && (f.single != [] ==> inode[13] == f.single[0])
    && (f.double != [] ==> inode[14] == f.double[0])
  }

  predicate SingleOk(block: Block, f: File) {
    forall i | DIRECT <= i < |f.data| && i < WITH_SINGLE :: block[i - DIRECT] == f.data[i]
  }

  predicate DoubleOk(block: Block, f: File) {
    |f.seconds| <= 256 && forall j | 0 <= j < |f.seconds| :: block[j] == f.seconds[j]
  }

  /** Where the blocks of the `j`-th indirect block below the double one start. */
  function SecondStart(j: nat): nat {
    WITH_SINGLE + 256 * j
  }

  predicate SecondOk(block: Block, f: File, j: nat) {
    forall i | SecondStart(j) <= i < |f.data| && i < SecondStart(j + 1) :: block[i - SecondStart(j)] == f.data[i]
  }

  predicate SingleOn(img: Image, f: File)
    requires Formatted(img)
  {
    f.single != [] ==> f.single[0] < NData(img) && SingleOk(DataBlock(img, f.single[0]), f)
  }

  predicate DoubleOn(img: Image, f: File)
    requires Formatted(img)
  {
    f.double != [] ==> f.double[0] < NData(img) && DoubleOk(DataBlock(img, f.double[0]), f)
  }

  predicate SecondOn(img: Image, f: File, j: nat)
    requires Formatted(img) && j < |f.seconds|
  {
    f.seconds[j] < NData(img) && SecondOk(DataBlock(img, f.seconds[j]), f, j)
  }

  ghost predicate SecondsOn(img: Image, f: File)
    requires Formatted(img)
  {
    forall j | f.secFrom <= j < |f.seconds| :: SecondOn(img, f, j)
  }

  // ---------------------------------------------------------------- files

  /** How many indirect blocks below the double one a file of `n` blocks has. */
  function Seconds(n: nat): nat {
    if n > WITH_SINGLE then (n - WITH_SINGLE + 255) / 256 else 0
  }

  /** How many blocks a file of `n` blocks takes, with its indirect blocks. */
  function Total(n: nat): nat {
    n + (if n > DIRECT then 1 else 0) + (if n > WITH_SINGLE then 1 else 0) + Seconds(n)
  }

  function Used(f: File): nat {
    |f.data| + |f.single| + |f.double| + |f.seconds|
  }

  predicate WellShaped(f: File) {
    && |f.data| <= WITH_DOUBLE && f.from == 0 && f.secFrom == 0
    && |f.single| == (if |f.data| > DIRECT then 1 else 0) && |f.double| == (if |f.data| > WITH_SINGLE then 1 else 0)
    && |f.seconds| == Seconds(|f.data|)
  }

  ghost predicate FileOk(img: Image, ino: nat, f: File)
    requires Formatted(img)
  {
    && WellShaped(f) && ino < NInodes(img) && InodeOf(img, ino)[0] == |f.data| && Points(InodeOf(img, ino), f)
    && SingleOn(img, f) && DoubleOn(img, f) && SecondsOn(img, f)
  }

  function Contents(img: Image, f: File): (s: seq<Block>)
    requires Formatted(img)
    ensures |s| == |f.data|
  {
    seq(|f.data|, k requires 0 <= k < |f.data| => if f.data[k] < NData(img) then DataBlock(img, f.data[k]) else NullBlock())
  }

  /** The files as the layer above sees them. */
  function FilesOf(img: Image, d: Disk): (v: Inodes)
    requires Formatted(img)
    ensures |v| == |d.files|
  {
    seq(|d.files|, g requires 0 <= g < |d.files| => Contents(img, d.files[g]))
  }

  /** The free list, the sizes, and who has which block. */
  ghost predicate Sound(img: Image, d: Disk) {
    && StackOk(img, d.stack) && |d.at| == NData(img) && |d.files| == NInodes(img) && Partition(d)
    && forall b | 0 <= b < |d.at| :: d.at[b] != Limbo
  }

  ghost predicate FilesOk(img: Image, d: Disk, but: int)
    requires Formatted(img)
  {
    forall g | 0 <= g < |d.files| && g != but :: FileOk(img, g, d.files[g])
  }

  ghost predicate Inv(img: Image, d: Disk) {
    Sound(img, d) && FilesOk(img, d, -1)
  }

  /** Every data block is at exactly one place: a slot of the free list, or one position in one file. */
  lemma OnePlace(img: Image, d: Disk, p: Place, b: nat)
    requires Inv(img, d) && b < NData(img)
    ensures Has(d, p) && BlockAt(d, p) == b <==> p == d.at[b]
  {
    hide StackOk, FileOk;
  }

  /** What any operation takes from the invariant. */
  lemma InvNeeds(img: Image, d: Disk)
    requires Inv(img, d)
    ensures Readable(img) && |d.at| == NData(img) && |d.files| == NInodes(img)
    ensures forall g | 0 <= g < |d.files| :: FileOk(img, g, d.files[g])
  {
    hide SlotOk, FileOk, Partition;
  }

  // ---------------------------------------------------------------- what stays

  /** Whether the place belongs to the file. */
  predicate Of(p: Place, ino: nat) {
    match p
    case Data(g, _) => g == ino
    case Single(g) => g == ino
    case Double(g) => g == ino
    case Second(g, _) => g == ino
    case _ => false
  }

  /** Nothing but the superblock, the free list and the block at `p` changes. */
  ghost predicate Untouched(img: Image, img': Image, d: Disk, p: Place) {
    && Formatted(img) && Formatted(img') && |img'| == |img| && NInodeBlocks(img') == NInodeBlocks(img)
    && (forall c | 0 < c < First(img) :: img'[c] == img[c])
    && (forall q: Place | Has(d, q) && !q.Slot? && q != p && BlockAt(d, q) < NData(img) ::
         DataBlock(img', BlockAt(d, q)) == DataBlock(img, BlockAt(d, q)))
  }

  lemma OtherKept(img: Image, img': Image, d: Disk, p: Place, g: nat)
    requires Sound(img, d) && g < |d.files| && !Of(p, g) && Untouched(img, img', d, p) && FileOk(img, g, d.files[g])
    ensures FileOk(img', g, d.files[g]) && Contents(img', d.files[g]) == Contents(img, d.files[g])
  {
    var f := d.files[g];
    assert f.single != [] ==> Has(d, Single(g)) && BlockAt(d, Single(g)) == f.single[0];
    assert f.double != [] ==> Has(d, Double(g)) && BlockAt(d, Double(g)) == f.double[0];
    forall j | 0 <= j < |f.seconds| ensures SecondOn(img', f, j) {
      assert Has(d, Second(g, j)) && SecondOn(img, f, j) && BlockAt(d, Second(g, j)) == f.seconds[j];
    }
    forall k | 0 <= k < |f.data| ensures Contents(img', f)[k] == Contents(img, f)[k] {
      assert Has(d, Data(g, k)) && BlockAt(d, Data(g, k)) == f.data[k];
    }
  }

  lemma TakeUntouched(img: Image, d: Disk)
    requires Sound(img, d) && d.stack != []
    ensures FreeOffset(img) <= 254 && Untouched(img, TakenImage(img), d, Limbo)
  {
  }

  lemma GiveUntouched(img: Image, d: Disk, p: Place)
    requires Sound(img, d) && Has(d, p) && !p.Slot?
    ensures BlockAt(d, p) < NData(img) && Readable(img)
    ensures Untouched(img, GivenImage(img, BlockAt(d, p)), d, p)
  {
    var b: Word := BlockAt(d, p);
    GiveHead(img, d.stack, b);
    forall c | 0 < c < First(img) ensures GivenImage(img, b)[c] == img[c] {
      GiveFrame(img, d.stack, b, c);
    }
    forall q: Place | Has(d, q) && !q.Slot? && q != p && BlockAt(d, q) < NData(img)
      ensures DataBlock(GivenImage(img, b), BlockAt(d, q)) == DataBlock(img, BlockAt(d, q))
    {
      StackDistinct(d);
      GiveFrame(img, d.stack, b, First(img) + BlockAt(d, q));
    }
  }

  lemma WriteStack(img: Image, s: seq<nat>, b: nat, block: Block)
    requires StackOk(img, s) && b < NData(img) && b !in s
    ensures StackOk(img[First(img) + b := block], s)
  {
    var img' := img[First(img) + b := block];
    forall i | 0 <= i < |s| ensures SlotOk(img', s, i) {
      assert SlotOk(img, s, i);
    }
  }

  /** Writing the block at `p` changes no other. */
  lemma WriteUntouched(img: Image, d: Disk, p: Place, block: Block)
    requires Sound(img, d) && Has(d, p) && !p.Slot?
    ensures BlockAt(d, p) < NData(img)
    ensures var img' := img[First(img) + BlockAt(d, p) := block];
            Untouched(img, img', d, p) && StackOk(img', d.stack)
  {
    hide SlotOk, HeadOk;
    StackDistinct(d);
    WriteStack(img, d.stack, BlockAt(d, p), block);
    var img' := img[First(img) + BlockAt(d, p) := block];
    forall q: Place | Has(d, q) && !q.Slot? && q != p && BlockAt(d, q) < NData(img)
      ensures DataBlock(img', BlockAt(d, q)) == DataBlock(img, BlockAt(d, q))
    {
    }
  }
}
