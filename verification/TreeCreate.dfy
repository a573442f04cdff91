/** Creating a treedisk file system on an inode of the store below. */
module TreeCreate {
  import opened Blocks
  import opened ClockCache
  import opened TreeLayout
  import opened TreeInvariant
  import opened FreeLists

  function Superblock(nib: Word, head: Word): (b: Block)
    ensures b[0] == nib && b[1] == head
  {
    NullBlock()[0 := nib][1 := head]
  }

  function InitialBlock(block: Block, nib: Word, head: Word, c: nat): Block {
    if c == 0 then Superblock(nib, head) else if c <= nib then NullBlock() else block
  }

  /** The image once the superblock and the null inode blocks have been written. */
  function Initial(img: Image, nib: Word, head: Word): (img': Image)
    ensures |img'| == |img|
    ensures forall c | 0 <= c < |img| :: img'[c] == InitialBlock(img[c], nib, head, c)
  {
    seq(|img|, c requires 0 <= c < |img| => InitialBlock(img[c], nib, head, c))
  }

  /** Blocks from `next` on still have to go onto the free list, which starts at `head`. */
  ghost predicate Setup(img: Image, at: Roles, nib: Word, next: nat, head: Word) {
    && Inv(Initial(img, nib, head), at) && nib < next <= |img|
    && forall c | 0 <= c < |img| ::
         && (nib < c < next ==> IsFree(at[c]))
         && (next <= c ==> at[c] == Limbo)
  }

  function StartRoles(n: nat, nib: nat): (at: Roles)
    ensures |at| == n
  {
    seq(n, c => if c == 0 then Super else if c <= nib then InodeBlock else Limbo)
  }

  lemma SetupStart(img: Image, nib: Word)
    requires 1 + nib <= |img| < WORD_LIMIT
    ensures Setup(img, StartRoles(|img|, nib), nib, nib + 1, 0)
  {
    var initial, at := Initial(img, nib, 0), StartRoles(|img|, nib);
    assert initial[0][0] == nib && initial[0][1] == 0;
    forall ino | 0 <= ino < NInodes(initial) ensures RootOk(initial, at, ino) {
      InodeInRange(initial, ino);
    }
  }

  /** A block of the free list with slots for the `m` blocks behind it. */
  function ListData(head: Word, f: nat, m: nat): (d: Block)
    requires f + m < WORD_LIMIT && m < 256
    ensures d[0] == head && forall i | 1 <= i < 256 :: d[i] == if i <= m then f + i else 0
  {
    seq(256, i requires 0 <= i < 256 => if i == 0 then head else if i <= m then f + i else 0)
  }

  function AddedRoles(at: Roles, head: nat, f: nat, m: nat): (at': Roles)
    requires head < |at| && (head != 0 ==> at[head].ListBlock?)
    ensures |at'| == |at|
  {
    seq(|at|, c requires 0 <= c < |at| =>
      if c == f then ListBlock(if head == 0 then 0 else at[head].rank + 1, 0)
      else if f < c <= f + m then ListSlot(f, c - f)
      else if c == head != 0 then ListBlock(at[head].rank, f)
      else at[c])
  }

  lemma AddedRole(img: Image, at: Roles, nib: Word, f: Word, head: Word, m: nat, c: nat)
    requires Setup(img, at, nib, f, head) && f + m < |img| < WORD_LIMIT && m < 256 && c < |img|
    requires head < |img| && (head != 0 ==> at[head].ListBlock?)
    ensures Formatted(Initial(img[f := ListData(head, f, m)], nib, f))
    ensures RoleOk(Initial(img[f := ListData(head, f, m)], nib, f), AddedRoles(at, head, f, m), -1, c)
  {
    var initial, initial' := Initial(img, nib, head), Initial(img[f := ListData(head, f, m)], nib, f);
    assert initial[0][0] == nib && initial'[0][0] == nib;
    assert RoleOk(initial, at, -1, c);
    if c > nib {
      assert initial[0][1] == head && initial'[0][1] == f;
      if c < f {
        OldListRole(img, at, nib, f, head, m, c);
      } else if c == f {
        if head != 0 { HeadIsTop(initial, at, -1); }
        assert ListOk(initial', AddedRoles(at, head, f, m), c);
      }
    }
  }

  lemma OldListRole(img: Image, at: Roles, nib: Word, f: Word, head: Word, m: nat, c: nat)
    requires Setup(img, at, nib, f, head) && f + m < |img| < WORD_LIMIT && m < 256 && nib < c < f
    requires head < |img| && (head != 0 ==> at[head].ListBlock?)
    requires Formatted(Initial(img[f := ListData(head, f, m)], nib, f))
    requires FreeList(Initial(img, nib, head)) == head && FreeList(Initial(img[f := ListData(head, f, m)], nib, f)) == f
    ensures RoleOk(Initial(img[f := ListData(head, f, m)], nib, f), AddedRoles(at, head, f, m), -1, c)
  {
    if head == 0 {
      EmptyList(Initial(img, nib, head), at, -1, c);
    } else {
      OldRole(img, at, nib, f, head, m, c);
    }
  }

  lemma OldRole(img: Image, at: Roles, nib: Word, f: Word, head: Word, m: nat, c: nat)
    requires Setup(img, at, nib, f, head) && f + m < |img| < WORD_LIMIT && m < 256 && nib < c < f
    requires 0 < head < |img| && at[head].ListBlock?
    requires Formatted(Initial(img[f := ListData(head, f, m)], nib, f))
    requires FreeList(Initial(img, nib, head)) == head && FreeList(Initial(img[f := ListData(head, f, m)], nib, f)) == f
    ensures RoleOk(Initial(img[f := ListData(head, f, m)], nib, f), AddedRoles(at, head, f, m), -1, c)
  {
    var initial := Initial(img, nib, head);
    HeadIsTop(initial, at, -1);
    assert RoleOk(initial, at, -1, c);
    hide Inv, UpOk, DownOk, Files;
  }

  /** Writing one more block of the free list. */
  lemma AddListBlock(img: Image, at: Roles, nib: Word, f: Word, head: Word, m: nat)
    requires Setup(img, at, nib, f, head) && f + m < |img| < WORD_LIMIT && m < 256
    ensures head < |at| && (head != 0 ==> at[head].ListBlock?)
    ensures Setup(img[f := ListData(head, f, m)], AddedRoles(at, head, f, m), nib, f + m + 1, f)
  {
    var initial := Initial(img, nib, head);
    assert initial[0][1] == head && HeadOk(initial, at);
    var img', at' := img[f := ListData(head, f, m)], AddedRoles(at, head, f, m);
    var initial' := Initial(img', nib, f);
    assert initial[0][0] == nib && initial'[0][0] == nib && initial'[0][1] == f;
    forall c | 0 <= c < |img| ensures RoleOk(initial', at', -1, c) {
      AddedRole(img, at, nib, f, head, m, c);
    }
    forall ino | 0 <= ino < NInodes(initial') ensures RootOk(initial', at', ino) {
      InodeInRange(initial', ino);
    }
  }

  /** A file system whose files are all empty; every block behind the inode blocks is free. */
  ghost predicate Empty(img: Image, at: Roles, nib: nat) {
    && Inv(img, at) && NoLimbo(at) && RootsSet(img)
    && Files(img) == seq(nib * INODES_PER_BLOCK, _ => [])
    && forall c | 0 <= c < |at| :: IsFree(at[c]) <==> c > nib
  }

  /** A file system that has just been created: every file is empty and every other block is free. */
  lemma SetupDone(img: Image, at: Roles, nib: Word, head: Word)
    requires Setup(img, at, nib, |img|, head)
    ensures Empty(Initial(img, nib, head), at, nib)
  {
    var initial := Initial(img, nib, head);
    assert initial[0][0] == nib;
    forall c | 0 <= c < |at| ensures !at[c].Limbo? && (IsFree(at[c]) <==> c > nib) {
      assert RoleOk(initial, at, -1, c);
    }
    forall ino | 0 <= ino < NInodes(initial) ensures InodeOf(initial, ino) == Inode(0, 0) {
      InodeInRange(initial, ino);
    }
    assert Files(initial) == seq(nib * INODES_PER_BLOCK, _ => []);
  }

  /** A block for the free list, with slots for the blocks behind it as far as there are any. */
  method FillListBlock(head: Word, f: nat, nblocks: Word) returns (data: Block, m: nat)
    requires f < nblocks
    ensures m < 256 && f + m < nblocks && (m == 255 || f + m + 1 == nblocks) && data == ListData(head, f, m)
  {
    data := NullBlock()[0 := head];
    var next: nat := f + 1;
    var i: nat := 1;
    while i < 256 && next < nblocks
      invariant 1 <= i <= 256 && next == f + i <= nblocks && data == ListData(head, f, i - 1)
    {
      data := data[i := next];
      next := next + 1;
      i := i + 1;
    }
    m := i - 1;
    while i < 256
      invariant m < i <= 256 && data == ListData(head, f, m)
    {
      data := data[i := 0];
      i := i + 1;
    }
  }

  /** Creates the free list from block `nextFree` on and returns its first block. */
  method SetupFreelist(below: ClockDisk, belowIno: nat, nextFree: Word, nblocks: Word, ghost nib: Word)
    returns (head: Word, ghost at: Roles)
    requires below.Valid() && belowIno < |below.Inodes()| && nblocks == |below.Inodes()[belowIno]|
    requires nextFree == nib + 1 <= nblocks
    modifies below.Repr()
    ensures below.Valid() && belowIno < |below.Inodes()| && |below.Inodes()[belowIno]| == nblocks
    ensures Setup(below.Inodes()[belowIno], at, nib, nblocks, head)
  {
    var next: nat := nextFree;
    head := 0;
    ghost var img: Image := below.Inodes()[belowIno];
    at := StartRoles(nblocks, nib);
    SetupStart(img, nib);
    while next < nblocks
      invariant below.Valid() && belowIno < |below.Inodes()| && below.Inodes()[belowIno] == img && |img| == nblocks
      invariant next <= nblocks && Setup(img, at, nib, next, head)
    {
      ghost var f: Word := next;
      ghost var oldHead := head;
      var data, m := FillListBlock(head, next, nblocks);
      head := next;
      next := next + 1 + m;
      AddListBlock(img, at, nib, f, oldHead, m);
      var _ := below.Write(belowIno, head, data);
      img := img[f := data];
      at := AddedRoles(at, oldHead, f, m);
    }
  }

  /** Writes the free list, the superblock and the inode blocks. */
  method Format(below: ClockDisk, belowIno: nat, nib: Word, nblocks: Word) returns (ghost at: Roles)
    requires below.Valid() && belowIno < |below.Inodes()| && nblocks == |below.Inodes()[belowIno]| && nib + 2 <= nblocks
    modifies below.Repr()
    ensures below.Valid() && belowIno < |below.Inodes()|
    ensures Empty(below.Inodes()[belowIno], at, nib)
  {
    hide Inv, Setup, Empty;
    var head;
    head, at := SetupFreelist(below, belowIno, nib + 1, nblocks, nib);
    ghost var img: Image := below.Inodes()[belowIno];
    SetupDone(img, at, nib, head);
    var _ := below.Write(belowIno, 0, Superblock(nib, head));
    var i := 1;
    while i <= nib
      invariant 1 <= i <= nib + 1
      invariant below.Valid() && belowIno < |below.Inodes()| && |below.Inodes()[belowIno]| == |img|
      invariant forall c | 0 <= c < |img| ::
        below.Inodes()[belowIno][c] == if c < i then Initial(img, nib, head)[c] else img[c]
    {
      var _ := below.Write(belowIno, i, NullBlock());
      i := i + 1;
    }
    assert below.Inodes()[belowIno] == Initial(img, nib, head);
  }

  /** The number of inode blocks of the file system that is there, if any. */
  function Existing(img: Image): nat {
    if img == [] then 0 else NInodeBlocks(img)
  }

  lemma EmptyFiles(img: Image, at: Roles, nib: nat)
    requires Empty(img, at, nib)
    ensures |Files(img)| == nib * INODES_PER_BLOCK
  {
  }

  /** Creates a file system with room for `ninodes` files, unless there is one already or the store below
      is too small.  All its files are empty and every block past the inode blocks is free. */
  method Create(below: ClockDisk, belowIno: nat, ninodes: Word) returns (r: int, ghost at: Roles)
    requires below.Valid() && belowIno < |below.Inodes()| && |below.Inodes()[belowIno]| < WORD_LIMIT
    // an existing file system must have enough inode blocks
    requires Existing(below.Inodes()[belowIno]) == 0 || (ninodes + 127) / 128 <= Existing(below.Inodes()[belowIno])
    modifies below.Repr()
    ensures below.Valid() && belowIno < |below.Inodes()|
    ensures r == -1 <==> |old(below.Inodes())[belowIno]| < (ninodes + 127) / 128 + 2
    ensures r == -1 || Existing(old(below.Inodes())[belowIno]) != 0 ==> below.Inodes() == old(below.Inodes())
    ensures r == 0 && Existing(old(below.Inodes())[belowIno]) == 0 ==>
      Empty(below.Inodes()[belowIno], at, (ninodes + 127) / 128) && |Files(below.Inodes()[belowIno])| >= ninodes
    ensures r == 0 || r == -1
  {
    hide Empty;
    at := [];
    var nib: Word := (ninodes + INODES_PER_BLOCK - 1) / INODES_PER_BLOCK;
    var nblocks := below.GetSize(belowIno);
    if nblocks < nib + 2 {
      return -1, at;
    }
    var superblock := below.Read(belowIno, 0);
    if superblock.value[0] == 0 {
      at := Format(below, belowIno, nib, nblocks);
      EmptyFiles(below.Inodes()[belowIno], at, nib);
    }
    r := 0;
  }
}
