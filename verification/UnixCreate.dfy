/** Creation of a unix disk. */
module UnixCreate {
  import opened Arithmetic
  import opened Blocks
  import opened UnixLayout
  import opened UnixLists
  import opened UnixFiles
  import opened UnixInvariant
  import opened UnixEffects

  /** The free list of a new disk with `n` data blocks, from the bottom: the full list blocks come last on the disk,
      and the first data block is the head with what is left over. */
  function FreshSlot(n: nat, i: nat): nat
    requires i < n
  {
    var rem := n % 255;
    if i / 255 < n / 255 then rem + 255 * (n / 255 - 1 - i / 255) + i % 255 else i % 255
  }

  function FreshStack(n: nat): (s: seq<nat>)
    ensures |s| == n
  {
    seq(n, i requires 0 <= i < n => FreshSlot(n, i))
  }

  /** Where a block of a new disk is in the list. */
  function FreshIndex(n: nat, b: nat): nat
    requires b < n
  {
    var rem := n % 255;
    if b < rem then 255 * (n / 255) + b else 255 * (n / 255 - 1 - (b - rem) / 255) + (b - rem) % 255
  }

  lemma IndexOfSlot(n: nat, i: nat)
    requires i < n
    ensures FreshSlot(n, i) < n && FreshIndex(n, FreshSlot(n, i)) == i
  {
  }

  lemma SlotOfIndex(n: nat, b: nat)
    requires b < n
    ensures FreshIndex(n, b) < n && FreshSlot(n, FreshIndex(n, b)) == b
  {
  }

  /** The list block of group `q`, counted from the bottom. */
  predicate GroupOk(block: Block, n: nat, q: nat)
    requires 255 * q < n
  {
    && block[1] == (if q == 0 then NONE else FreshSlot(n, 255 * (q - 1)))
    && forall w | 2 <= w < 256 && 255 * q + w - 1 < n :: block[w] == FreshSlot(n, 255 * q + w - 1)
  }

  /** All list blocks are there. */
  ghost predicate ListThere(img: Image, n: nat)
    requires Formatted(img) && NData(img) == n
  {
    forall q | 0 <= q && 255 * q < n :: FreshSlot(n, 255 * q) < n && GroupOk(DataBlock(img, FreshSlot(n, 255 * q)), n, q)
  }

  lemma FreshStackOk(img: Image, n: nat)
    requires Formatted(img) && NData(img) == n && n % 255 != 0 && ListThere(img, n)
    requires FreeList(img) == 0 && FreeOffset(img) == n % 255 - 1
    ensures StackOk(img, FreshStack(n))
  {
    hide FreshSlot, FreshIndex, ListThere, SlotOk;
    var s := FreshStack(n);
    forall i | 0 <= i < n ensures s[i] < NData(img) {
      IndexOfSlot(n, i);
    }
    forall i | 0 <= i < n ensures SlotOk(img, s, i) {
      FreshSlotOk(img, n, i);
    }
    FreshHead(n);
  }

  lemma FreshSlotOk(img: Image, n: nat, i: nat)
    requires Formatted(img) && NData(img) == n && i < n && ListThere(img, n) && AllData(img, FreshStack(n))
    ensures SlotOk(img, FreshStack(n), i)
  {
    Quotient(i, 255);
    FreshSlotAt(img, n, i / 255, i % 255);
  }

  lemma FreshSlotAt(img: Image, n: nat, q: nat, r: nat)
    requires Formatted(img) && NData(img) == n && r < 255 && 255 * q + r < n && ListThere(img, n) && AllData(img, FreshStack(n))
    ensures SlotOk(img, FreshStack(n), 255 * q + r)
  {
    hide FreshSlot, FreshIndex, FreshStack;
    DivMod(255 * q + r, 255, q, r);
    assert GroupOk(DataBlock(img, FreshSlot(n, 255 * q)), n, q);
    FreshAt(n, 255 * q + r);
    FreshAt(n, 255 * q);
    if r > 0 {
      assert 255 * q + (r + 1) - 1 == 255 * q + r;
    } else if q > 0 {
      FreshAt(n, 255 * (q - 1));
    }
  }

  lemma FreshAt(n: nat, i: nat)
    requires i < n
    ensures FreshStack(n)[i] == FreshSlot(n, i)
  {
  }

  lemma FreshHead(n: nat)
    requires n % 255 != 0
    ensures (n - 1) % 255 == n % 255 - 1 && FreshSlot(n, n - 1 - (n - 1) % 255) == 0
  {
  }

  function FreshDisk(n: nat, ninodes: nat): Disk {
    Disk(FreshStack(n), seq(ninodes, _ => NoFile()), seq(n, b requires 0 <= b < n => Slot(FreshIndex(n, b))))
  }

  lemma FreshPartition(n: nat, ninodes: nat)
    ensures Partition(FreshDisk(n, ninodes)) && forall b | 0 <= b < n :: FreshDisk(n, ninodes).at[b] != Limbo
  {
    var d := FreshDisk(n, ninodes);
    hide FreshSlot, FreshIndex;
    forall p: Place | Has(d, p) ensures BlockAt(d, p) < |d.at| && d.at[BlockAt(d, p)] == p {
      IndexOfSlot(n, p.i);
    }
    forall b | 0 <= b < n ensures Has(d, d.at[b]) && BlockAt(d, d.at[b]) == b {
      SlotOfIndex(n, b);
    }
  }

  /** Every file of a disk with null inode blocks is empty. */
  lemma FreshFiles(img: Image, d: Disk)
    requires Formatted(img) && d == FreshDisk(NData(img), NInodes(img))
    requires forall c | 0 < c < First(img) :: img[c] == NullBlock()
    ensures FilesOk(img, d, -1) && FilesOf(img, d) == seq(NInodes(img), _ => [])
  {
    forall g | 0 <= g < NInodes(img) ensures FileOk(img, g, d.files[g]) && FilesOf(img, d)[g] == [] {
      InodeInRange(img, g);
      assert InodeOf(img, g)[0] == 0;
    }
  }

  /** How many entries the first list block gets: one less than what is left over, in 32 bits. */
  function FirstEntries(n: nat): Word {
    (n % 255 + WORD_LIMIT - 1) % WORD_LIMIT
  }

  /** They fit the block exactly when the number of data blocks is not a multiple of 255. */
  lemma FirstListFits(n: Word)
    ensures FirstEntries(n) <= ENTRIES_PER_FREE_BLOCK <==> n % 255 != 0
  {
  }

  /** With 255 data blocks the loop that fills the first list block would run 2^32 - 1 times. */
  lemma FirstListOverruns()
    ensures FirstEntries(255) == WORD_LIMIT - 1
  {
  }

  /** A superblock with the count that creation writes belongs to a disk in order only if the count fits. */
  lemma CreatedFits(img: Image, d: Disk, n: Word)
    requires Inv(img, d) && FreeOffset(img) == FirstEntries(n)
    ensures n % 255 != 0
  {
    FirstListFits(n);
    hide FileOk, Partition, SlotOk;
  }

  // ---------------------------------------------------------------- the code

  /** The first list block, which has what is left over. */
  method FillFirst(n: nat, block0: Block) returns (block: Block)
    requires n % 255 != 0 && n < WORD_LIMIT
    ensures GroupOk(block, n, n / 255)
  {
    var rem := n % 255;
    block := block0;
    var j := 0;
    while j < FirstEntries(n)
      invariant 0 <= j <= rem - 1
      invariant forall w | 2 <= w < 2 + j :: block[w] == w - 1
    {
      block := block[2 + j := j + 1];
      j := j + 1;
    }
    block := block[1 := if n > rem then rem else NONE];
    block := block[0 := FirstEntries(n)];
    if n / 255 > 0 {
      FirstBelow(n);
    }
    forall w | 2 <= w < 256 && 255 * (n / 255) + w - 1 < n ensures block[w] == FreshSlot(n, 255 * (n / 255) + w - 1) {
      FirstNumbers(n, w);
    }
  }

  /** The `i`-th of the full list blocks, in their order on the disk. */
  method FillFull(n: nat, i: nat, block0: Block) returns (block: Block)
    requires i < n / 255 && n < WORD_LIMIT
    ensures GroupOk(block, n, n / 255 - 1 - i)
  {
    var rem := n % 255;
    block := block0;
    var j := 0;
    while j < ENTRIES_PER_FREE_BLOCK
      invariant 0 <= j <= ENTRIES_PER_FREE_BLOCK
      invariant forall w | 2 <= w < 2 + j :: block[w] == i * 255 + w - 1 + rem
    {
      block := block[2 + j := i * 255 + j + 1 + rem];
      j := j + 1;
    }
    block := block[1 := if i == n / 255 - 1 then NONE else (i + 1) * 255 + rem];
    block := block[0 := j];
    GroupNumbers(n, i, 0);
    forall w | 2 <= w < 256 ensures block[w] == FreshSlot(n, 255 * (n / 255 - 1 - i) + w - 1) {
      GroupNumbers(n, i, w);
    }
  }

  lemma GroupNumbers(n: nat, i: nat, w: nat)
    requires i < n / 255 && w < 256
    ensures var q := n / 255 - 1 - i;
            && (q > 0 ==> FreshSlot(n, 255 * (q - 1)) == (i + 1) * 255 + n % 255)
            && (w >= 1 ==> FreshSlot(n, 255 * q + w - 1) == i * 255 + w - 1 + n % 255)
  {
  }

  lemma FirstNumbers(n: nat, w: nat)
    requires n % 255 != 0 && w >= 2 && 255 * (n / 255) + w - 1 < n
    ensures FreshSlot(n, 255 * (n / 255) + w - 1) == w - 1 && w - 1 < n % 255
  {
  }

  lemma FirstBelow(n: nat)
    requires n / 255 > 0
    ensures FreshSlot(n, 255 * (n / 255 - 1)) == n % 255
  {
  }

  /** The list blocks of the groups from `q0` on are there, behind `nib` inode blocks. */
  ghost predicate GroupsThere(img: Image, nib: nat, n: nat, q0: int) {
    |img| == nib + 1 + n && forall q | 0 <= q && q0 <= q && 255 * q < n ::
      FreshSlot(n, 255 * q) < n && GroupOk(img[nib + 1 + FreshSlot(n, 255 * q)], n, q)
  }

  lemma FirstGroup(img: Image, nib: nat, n: nat, block: Block)
    requires |img| == nib + 1 + n && n % 255 != 0 && GroupOk(block, n, n / 255)
    ensures GroupsThere(img[nib + 1 := block], nib, n, n / 255)
  {
    FreshHead(n);
    forall q | n / 255 <= q && 255 * q < n ensures q == n / 255 {
      Quotient(n, 255);
    }
    assert 255 * (n / 255) == n - 1 - (n - 1) % 255;
  }

  lemma NextGroup(img: Image, nib: nat, n: nat, i: nat, block: Block)
    requires GroupsThere(img, nib, n, n / 255 - i) && i < n / 255 && GroupOk(block, n, n / 255 - 1 - i)
    ensures i * 255 + n % 255 < n
    ensures GroupsThere(img[nib + 1 + i * 255 + n % 255 := block], nib, n, n / 255 - i - 1)
  {
    hide FreshSlot, FreshIndex, GroupOk;
    var q1 := n / 255 - 1 - i;
    GroupNumbers(n, i, 1);
    IndexOfSlot(n, 255 * q1);
    var img' := img[nib + 1 + i * 255 + n % 255 := block];
    forall q | q1 <= q && 255 * q < n
      ensures FreshSlot(n, 255 * q) < n && GroupOk(img'[nib + 1 + FreshSlot(n, 255 * q)], n, q)
    {
      IndexOfSlot(n, 255 * q);
    }
  }

  /** With its superblock the disk is complete. */
  lemma Created(img: Image, super: Block, nib: Word, n: nat)
    requires GroupsThere(img, nib, n, 0) && n % 255 != 0 && |img| < WORD_LIMIT
    requires forall c | 0 < c < 1 + nib :: img[c] == NullBlock()
    ensures var img', d := img[0 := super[0 := nib][1 := 0][2 := FirstEntries(n)]], FreshDisk(n, 16 * nib);
            Inv(img', d) && FilesOf(img', d) == seq(16 * nib, _ => [])
  {
    var img', d := img[0 := super[0 := nib][1 := 0][2 := FirstEntries(n)]], FreshDisk(n, 16 * nib);
    hide FreshSlot, FreshIndex, GroupOk, Partition, FileOk;
    forall q | 0 <= q && 255 * q < n ensures FreshSlot(n, 255 * q) < n && GroupOk(DataBlock(img', FreshSlot(n, 255 * q)), n, q) {
    }
    FreshStackOk(img', n);
    FreshPartition(n, 16 * nib);
    FreshFiles(img', d);
  }

  /** Creates a file system with room for `ninodes` files, unless there is one already or the store below is too
      small.  `garbage` is what the memory for a list block holds at first. */
  method Create(below: Store, ninodes: Word, garbage: Block) returns (r: int, ghost d: Disk)
    requires |below.inodes| > 0 && |below.inodes[0]| < WORD_LIMIT
    // an existing file system must have enough inode blocks; else the first list block must have room for its entries
    requires var img, nib := below.inodes[0], (ninodes + 15) / 16;
             |img| > 0 ==> if img[0][0] != 0 then nib <= img[0][0] else nib < |img| ==> (|img| - nib - 1) % 255 != 0
    modifies below
    ensures var img, img', nib := old(below.inodes)[0], if |below.inodes| > 0 then below.inodes[0] else [], (ninodes + 15) / 16;
            && (r == -1 <==> |img| == 0 || (img[0][0] == 0 && nib >= |img|)) && (r == 0 || r == -1)
            && (|img| > 0 && img[0][0] != 0 ==> img' == img)
            && (r == 0 && img[0][0] == 0 ==>
                Inv(img', d) && FilesOf(img', d) == seq(16 * nib, _ => []) && |d.stack| == |img| - nib - 1)
  {
    d := FreshDisk(0, 0);
    var nib: nat := (ninodes + INODES_PER_BLOCK - 1) / INODES_PER_BLOCK;
    ghost var img := below.inodes[0];
    var r0 := below.Read(0, 0);
    if r0.None? {
      return -1, d;
    }
    var super: Block := r0.value;
    if super[0] != 0 {
      assert super[0] >= nib;
      return 0, d;
    }
    var i := 1;
    while i <= nib
      invariant 1 <= i <= nib + 1 && i <= |img| && |below.inodes| > 0 && |below.inodes[0]| == |img|
      invariant forall c | 0 < c < i :: below.inodes[0][c] == NullBlock()
    {
      var ok := below.Write(0, i, NullBlock());
      if !ok {
        return -1, d;
      }
      i := i + 1;
    }
    var nblocks := below.GetSize(0);
    var n: nat := nblocks - nib - 1;
    FillList(below, nib, n, garbage);
    Created(below.inodes[0], super, nib, n);
    d := FreshDisk(n, 16 * nib);
    var _ := below.Write(0, 0, super[0 := nib][1 := 0][2 := FirstEntries(n)]);
    r := 0;
  }

  method FillList(below: Store, nib: nat, n: nat, garbage: Block)
    requires |below.inodes| > 0 && |below.inodes[0]| == nib + 1 + n < WORD_LIMIT && n % 255 != 0
    modifies below
    ensures |below.inodes| > 0 && GroupsThere(below.inodes[0], nib, n, 0)
    ensures forall c | 0 <= c < 1 + nib :: below.inodes[0][c] == old(below.inodes)[0][c]
  {
    hide GroupsThere, GroupOk;
    ghost var img := below.inodes[0];
    var freeblock := FillFirst(n, garbage);
    FirstGroup(img, nib, n, freeblock);
    var _ := below.Write(0, nib + 1, freeblock);
    var i := 0;
    while i < n / 255
      invariant 0 <= i <= n / 255 && |below.inodes| > 0 && |below.inodes[0]| == |img|
      invariant GroupsThere(below.inodes[0], nib, n, n / 255 - i)
      invariant forall c | 0 <= c < 1 + nib :: below.inodes[0][c] == img[c]
    {
      freeblock := FillFull(n, i, freeblock);
      NextGroup(below.inodes[0], nib, n, i, freeblock);
      var _ := below.Write(0, i * 255 + n % 255 + 1 + nib, freeblock);
      i := i + 1;
    }
  }
}
