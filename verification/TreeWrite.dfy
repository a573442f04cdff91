/** The walk down a tree that a write makes, allocating what is missing on the way. */
module TreeWrite {
  import opened Blocks
  import opened TreeLayout
  import opened TreeInvariant
  import opened FreeLists
  import opened TreeSteps

  /** How many blocks are missing on the path from `b`, a node of level `l`, to data block `offset`. */
  function Missing(img: Image, b: nat, l: nat, offset: nat): nat
    decreases l
  {
    if b == 0 || b >= |img| then l + 1
    else if l == 0 then 0
    else Missing(img, img[b][Digit(offset, l - 1)], l - 1, offset)
  }

  /** How many blocks a write at `offset` allocates.  A file that gains levels gets an indirect block for
      each of them and a whole new path below the topmost one. */
  function Needed(img: Image, ino: nat, offset: nat): nat
    requires Formatted(img) && ino < NInodes(img)
  {
    var inode := InodeOf(img, ino);
    var l, l' := Levels(inode.nblocks), Levels(offset + 1);
    if l' > l then l' - l + l' else Missing(img, inode.root, l, offset)
  }

  lemma {:induction false} MissingBound(img: Image, b: nat, l: nat, offset: nat)
    ensures Missing(img, b, l, offset) <= l + 1
    decreases l
  {
    if b == 0 || b >= |img| || l == 0 {
    } else {
      MissingBound(img, img[b][Digit(offset, l - 1)], l - 1, offset);
    }
  }

  /** No write takes more than eight blocks. */
  lemma NeededBound(img: Image, ino: nat, offset: nat)
    requires Formatted(img) && ino < NInodes(img) && offset + 1 < WORD_LIMIT
    ensures Needed(img, ino, offset) <= 8
  {
    var n := InodeOf(img, ino).nblocks;
    CapacityFour();
    LevelsMonotonic(n, WORD_LIMIT);
    LevelsMonotonic(offset + 1, WORD_LIMIT);
    LevelsIs(WORD_LIMIT, 4);
    MissingBound(img, InodeOf(img, ino).root, Levels(n), offset);
  }

  /** Entry `i` of block `p` is where the node of level `l` that covers `offset` belongs. */
  ghost predicate Place(img: Image, at: Roles, ino: nat, offset: nat, l: nat, p: nat, i: nat)
    requires Formatted(img) && |at| == |img| && ino < NInodes(img)
  {
    && p < |img| && i < 256 && l <= Top(img, ino)
    && if l == Top(img, ino) then p == InodeBlockno(ino) && i == 2 * InodeIndex(ino)
       else at[p].Node? && at[p].ino == ino && at[p].level == l + 1 && at[p].prefix == Prefix(offset, l + 1)
            && i == Digit(offset, l)
  }

  /** What a write keeps of the state it started from, and the blocks it has taken so far. */
  ghost predicate Kept(img0: Image, img: Image, at0: Roles, at: Roles, ino: nat, offset: nat, missing: nat) {
    && Formatted(img0) && |img| == |img0| && Inv(img, at) && NoLimbo(at)
    && ino < NInodes(img0) == NInodes(img)
    && offset < InodeOf(img, ino).nblocks == InodeOf(img0, ino).nblocks
    && (forall j | 0 <= j < NInodes(img) && j != ino :: InodeOf(img, j) == InodeOf(img0, j))
    && Files(img) == Files(img0)
    && FreeCount(at) + Missing(img0, InodeOf(img0, ino).root, Top(img0, ino), offset) == FreeCount(at0) + missing
  }

  /** The write has reached the place of the node of level `l`. */
  ghost predicate Walking(img0: Image, img: Image, at0: Roles, at: Roles, ino: nat, offset: nat, l: nat, p: nat, i: nat) {
    && p < |img| && i < 256
    && Kept(img0, img, at0, at, ino, offset, Missing(img, img[p][i], l, offset))
    && Place(img, at, ino, offset, l, p, i)
    && (l < Top(img, ino) ==> InodeOf(img, ino).root != 0)
  }

  /** The write has reached data block `b`. */
  ghost predicate Landed(img0: Image, img: Image, at0: Roles, at: Roles, ino: nat, offset: nat, b: nat) {
    && Kept(img0, img, at0, at, ino, offset, 0)
    && 0 < b < |img| && at[b].Node? && at[b].ino == ino && at[b].level == 0 && at[b].prefix == offset
    && InodeOf(img, ino).root != 0
  }

  lemma WalkStart(img: Image, at: Roles, ino: nat, offset: nat)
    requires Inv(img, at) && NoLimbo(at) && ino < NInodes(img) && offset < InodeOf(img, ino).nblocks
    ensures InodeBlockno(ino) < |img|
    ensures Walking(img, img, at, at, ino, offset, Top(img, ino), InodeBlockno(ino), 2 * InodeIndex(ino))
  {
    InodeInRange(img, ino);
  }

  /** The node that is already at its place. */
  lemma PlaceHolds(img: Image, at: Roles, ino: nat, offset: nat, l: nat, p: nat, i: nat)
    requires Inv(img, at) && ino < NInodes(img) && offset < InodeOf(img, ino).nblocks
    requires Place(img, at, ino, offset, l, p, i) && img[p][i] != 0
    ensures var b := img[p][i];
            0 < b < |img| && at[b].Node? && at[b].ino == ino && at[b].level == l && at[b].prefix == Prefix(offset, l)
  {
    if l == Top(img, ino) {
      assert RootOk(img, at, ino);
      PrefixZero(offset, l);
      assert img[p][i] == InodeOf(img, ino).root;
    } else {
      Child(img, at, -1, p, i);
    }
  }

  /** One step down through a node that is there. */
  lemma Descend(img0: Image, img: Image, at0: Roles, at: Roles, ino: nat, offset: nat, l: nat, p: nat, i: nat)
    requires Walking(img0, img, at0, at, ino, offset, l, p, i) && img[p][i] != 0
    ensures img[p][i] < |img|
    ensures l > 0 ==> Walking(img0, img, at0, at, ino, offset, l - 1, img[p][i], Digit(offset, l - 1))
    ensures l == 0 ==> Landed(img0, img, at0, at, ino, offset, img[p][i])
  {
    PlaceHolds(img, at, ino, offset, l, p, i);
    InodeInRange(img, ino);
  }

  /** If the next node is missing and there is no free block, the write cannot be completed. */
  lemma WalkingNeeds(img0: Image, img: Image, at0: Roles, at: Roles, ino: nat, offset: nat, l: nat, p: nat, i: nat)
    requires Walking(img0, img, at0, at, ino, offset, l, p, i)
    ensures img[p][i] == 0 && FreeCount(at) == 0 ==>
      ino < NInodes(img0) && FreeCount(at0) < Missing(img0, InodeOf(img0, ino).root, Top(img0, ino), offset)
  {
  }

  /** A write that has arrived had enough free blocks. */
  lemma LandedNeeds(img0: Image, img: Image, at0: Roles, at: Roles, ino: nat, offset: nat, b: nat)
    requires Landed(img0, img, at0, at, ino, offset, b)
    ensures ino < NInodes(img0) && FreeCount(at0) >= Missing(img0, InodeOf(img0, ino).root, Top(img0, ino), offset)
  {
  }

  /** The image after linking block `b` at a place and nulling it. */
  function PlaceImage(img: Image, p: nat, i: nat, b: nat): Image
    requires p < |img| && b < |img| < WORD_LIMIT && i < 256
  {
    LinkImage(img, p, i, b)
  }

  ghost function PlaceRole(img: Image, ino: nat, offset: nat, l: nat, p: nat): Role
    requires Formatted(img) && ino < NInodes(img)
  {
    Node(ino, l, Prefix(offset, l), if l == Top(img, ino) then 0 else p)
  }

  /** Linking a null block into its place changes no file. */
  lemma LinkAtPlace(img: Image, at: Roles, ino: nat, offset: nat, l: nat, p: nat, i: nat, b: nat)
    requires Inv(img, at) && ino < NInodes(img) && offset < InodeOf(img, ino).nblocks
    requires Place(img, at, ino, offset, l, p, i) && img[p][i] == 0
    requires 0 < b < |img| && at[b].Limbo?
    ensures var img', at' := PlaceImage(img, p, i, b), at[b := PlaceRole(img, ino, offset, l, p)];
            && Inv(img', at') && Files(img') == Files(img) && NInodes(img') == NInodes(img)
            && (forall j | 0 <= j < NInodes(img) ::
                  InodeOf(img', j) == if j == ino && l == Top(img, ino) then InodeOf(img, j).(root := b) else InodeOf(img, j))
  {
    InodeInRange(img, ino);
    assert RoleOk(img, at, -1, 0) && RoleOk(img, at, -1, b) && RoleOk(img, at, -1, InodeBlockno(ino));
    if l == Top(img, ino) {
      LinkRoot(img, at, ino, b);
      LinkRootFrame(img, at, ino, b);
      PrefixZero(offset, l);
      RootPlaceImage(img, ino, b);
    } else {
      PrefixWithin(offset, l, InodeOf(img, ino).nblocks);
      Link(img, at, p, i, b);
      assert RoleOk(img, at, -1, p);
      InodesSame(img, LinkImage(img, p, i, b), at, -1);
    }
  }

  lemma RootPlaceImage(img: Image, ino: nat, b: nat)
    requires Formatted(img) && ino < NInodes(img) && 0 < b < |img| && InodeBlockno(ino) < |img| && b != InodeBlockno(ino)
    ensures RootImage(img, ino, b) == PlaceImage(img, InodeBlockno(ino), 2 * InodeIndex(ino), b)
  {
    var p, i := InodeBlockno(ino), InodeIndex(ino);
    assert SetInode(img[p], i, InodeOf(img, ino).(root := b)) == img[p][2 * i := b];
  }

  /** One step down by allocating the node that is missing. */
  lemma LinkHere(img0: Image, img: Image, at0: Roles, at: Roles, ino: nat, offset: nat, l: nat, p: nat, i: nat)
    requires Walking(img0, img, at0, at, ino, offset, l, p, i) && img[p][i] == 0
    ensures Readable(img)
    ensures TakenBlock(img) == 0 <==> FreeCount(at) == 0
    ensures TakenBlock(img) != 0 ==>
      var b, img1 := TakenBlock(img), TakenImage(img);
      && 0 < b < |img| == |img1| && img1[p] == img[p] && p != 0 && b != p
      && var img', at' := PlaceImage(img1, p, i, b), at[b := PlaceRole(img, ino, offset, l, p)];
      && |img'| == |img|
      && (l > 0 ==> Walking(img0, img', at0, at', ino, offset, l - 1, b, Digit(offset, l - 1)))
      && (l == 0 ==> Landed(img0, img', at0, at', ino, offset, b))
  {
    hide Inv, Files, FreeCount, RoleOk;
    Take(img, at);
    var b, img1 := TakenBlock(img), TakenImage(img);
    if b != 0 {
      PlaceIsTaken(img, at, ino, offset, l, p, i);
      TakeThenLink(img, at, ino, offset, l, p, i);
    }
  }

  /** A place is in an inode block or in a node. */
  lemma PlaceIsTaken(img: Image, at: Roles, ino: nat, offset: nat, l: nat, p: nat, i: nat)
    requires Inv(img, at) && ino < NInodes(img) && Place(img, at, ino, offset, l, p, i)
    ensures p != 0 && !IsFree(at[p])
  {
    InodeInRange(img, ino);
    assert RoleOk(img, at, -1, 0) && RoleOk(img, at, -1, InodeBlockno(ino)) && RoleOk(img, at, -1, p);
  }

  lemma TakeThenLink(img: Image, at: Roles, ino: nat, offset: nat, l: nat, p: nat, i: nat)
    requires Inv(img, at) && ino < NInodes(img) && offset < InodeOf(img, ino).nblocks
    requires Place(img, at, ino, offset, l, p, i) && img[p][i] == 0 && !IsFree(at[p]) && p != 0
    requires Readable(img) && TakenBlock(img) != 0
    ensures var b, img1 := TakenBlock(img), TakenImage(img);
      && 0 < b < |img| == |img1| && img1[p] == img[p] && b != p
      && var img', at' := PlaceImage(img1, p, i, b), at[b := PlaceRole(img, ino, offset, l, p)];
      && Inv(img', at') && Files(img') == Files(img) && NInodes(img') == NInodes(img)
      && (forall j | 0 <= j < NInodes(img) ::
            InodeOf(img', j) == if j == ino && l == Top(img, ino) then InodeOf(img, j).(root := b) else InodeOf(img, j))
      && FreeCount(at') == FreeCount(at) - 1 && img'[b] == NullBlock()
  {
    Take(img, at);
    var b, img1, at1 := TakenBlock(img), TakenImage(img), at[TakenBlock(img) := Limbo];
    assert Top(img1, ino) == Top(img, ino);
    SameFilesView(img, img1);
    LinkAtPlace(img1, at1, ino, offset, l, p, i, b);
    FreeCountUpdate(at, b, Limbo);
    FreeCountUpdate(at, b, PlaceRole(img, ino, offset, l, p));
    assert at1[b := PlaceRole(img, ino, offset, l, p)] == at[b := PlaceRole(img, ino, offset, l, p)];
  }

  // ---------------------------------------------------------------- gaining levels

  /** The disk as it will be once the inode block in memory has been written, with size `n` for file `ino`. */
  function Virtual(img: Image, inodeblock: Block, ino: nat, n: Word): Image
    requires InodeBlockno(ino) < |img|
  {
    img[InodeBlockno(ino) := SetInode(inodeblock, InodeIndex(ino), GetInode(inodeblock, InodeIndex(ino)).(nblocks := n))]
  }

  /** File `ino`, which had `from` levels, is on its way to holding `offset + 1` blocks and has `l` levels now. */
  ghost predicate Growing(img0: Image, img: Image, at0: Roles, at: Roles, ino: nat, offset: nat, from: nat, l: nat) {
    && Formatted(img0) && |img| == |img0| && Inv(img, at) && NoLimbo(at)
    && ino < NInodes(img0) == NInodes(img)
    && InodeOf(img, ino).nblocks <= offset + 1 && Top(img, ino) == l && from <= l <= Levels(offset + 1)
    && (l == Levels(offset + 1) > from ==> InodeOf(img, ino).nblocks == offset + 1)
    && (forall j | 0 <= j < NInodes(img) && j != ino :: InodeOf(img, j) == InodeOf(img0, j))
    && Files(img) == Extended(Files(img0), ino, InodeOf(img, ino).nblocks)
    && |Files(img0)[ino]| <= InodeOf(img, ino).nblocks
    && FreeCount(at) + (l - from) == FreeCount(at0)
    && (l > from ==> var r := InodeOf(img, ino).root;
                     0 < r < |img| && forall d | 1 <= d < 256 :: img[r][d] == 0)
  }

  /** The size after adding a level: no more than the levels can hold. */
  function NextSize(offset: nat, l: nat): (n: nat)
    ensures n <= offset + 1
  {
    if offset + 1 <= Capacity(l + 1) then offset + 1 else Capacity(l + 1)
  }

  lemma NextSizeBounds(offset: nat, l: nat)
    requires l < Levels(offset + 1)
    ensures Capacity(l) < NextSize(offset, l) <= Capacity(l + 1)
    ensures l + 1 == Levels(offset + 1) ==> NextSize(offset, l) == offset + 1
  {
    if l < Levels(offset + 1) - 1 { CapacityGrows(l, Levels(offset + 1) - 1); }
  }

  /** Putting a free block above the root is one round of growing. */
  lemma GrowRound(img0: Image, img: Image, at0: Roles, at: Roles, ino: nat, offset: Word, from: nat, l: nat)
    requires Growing(img0, img, at0, at, ino, offset, from, l) && l < Levels(offset + 1) && offset + 1 < WORD_LIMIT
    ensures Readable(img)
    ensures TakenBlock(img) == 0 <==> FreeCount(at) == 0
    ensures TakenBlock(img) != 0 ==>
      var b, img1, root := TakenBlock(img), TakenImage(img), InodeOf(img, ino).root;
      && b < |img| == |img1| && Formatted(img1) && ino < NInodes(img1) && InodeOf(img1, ino) == InodeOf(img, ino)
      && root < |at| && b != InodeBlockno(ino) < |img| && img1[InodeBlockno(ino)] == img[InodeBlockno(ino)]
      && Growing(img0, TallerImage(img1, ino, b, NextSize(offset, l)), at0,
                 TallerRoles(img1, at[b := Limbo], ino, b), ino, offset, from, l + 1)
  {
    Take(img, at);
    var b, img1 := TakenBlock(img), TakenImage(img);
    if b != 0 {
      InodeInRange(img, ino);
      assert RoleOk(img, at, -1, InodeBlockno(ino));
      NextSizeBounds(offset, l);
      assert Top(img1, ino) == l;
      GrowthStep(img0, img, img1, at0, at, ino, offset, from, l, b);
    }
  }

  lemma GrowthStep(img0: Image, img: Image, img1: Image, at0: Roles, at: Roles, ino: nat, offset: Word, from: nat, l: nat, b: nat)
    requires Growing(img0, img, at0, at, ino, offset, from, l) && l < Levels(offset + 1) && offset + 1 < WORD_LIMIT
    requires 0 < b < |img| && Taken(img, img1, at, at[b := Limbo], b) && Top(img1, ino) == l
    requires Capacity(l) < NextSize(offset, l) <= Capacity(l + 1)
    requires l + 1 == Levels(offset + 1) ==> NextSize(offset, l) == offset + 1
    ensures InodeOf(img1, ino).root < |at|
    ensures Growing(img0, TallerImage(img1, ino, b, NextSize(offset, l)), at0,
                    TallerRoles(img1, at[b := Limbo], ino, b), ino, offset, from, l + 1)
  {
    var n, at1 := NextSize(offset, l), at[b := Limbo];
    GrowLevel(img1, at1, ino, b, n);
    GrowFrame(img1, at1, ino, b, n);
    SameFilesView(img, img1);
    ExtendTwice(Files(img0), ino, InodeOf(img, ino).nblocks, n);
    TallerCount(img1, at, ino, b);
  }

  lemma TallerCount(img: Image, at: Roles, ino: nat, b: nat)
    requires b < |at| && Inv(img, at[b := Limbo]) && NoLimbo(at) && ino < NInodes(img)
    requires InodeOf(img, ino).root != b && InodeOf(img, ino).root < |at| && IsFree(at[b])
    ensures NoLimbo(TallerRoles(img, at[b := Limbo], ino, b))
    ensures FreeCount(TallerRoles(img, at[b := Limbo], ino, b)) == FreeCount(at) - 1
  {
    var r, l := InodeOf(img, ino).root, Top(img, ino);
    assert RootOk(img, at[b := Limbo], ino);
    FreeCountUpdate(at, b, Limbo);
    FreeCountUpdate(at[b := Limbo], b, Node(ino, l + 1, 0, 0));
    if r != 0 {
      FreeCountUpdate(at[b := Limbo][b := Node(ino, l + 1, 0, 0)], r, Node(ino, l, 0, b));
    }
  }

  /** After growing, the whole path below the topmost node is missing. */
  lemma MissingAfterGrowth(img0: Image, img: Image, at0: Roles, at: Roles, ino: nat, offset: nat, from: nat)
    requires Growing(img0, img, at0, at, ino, offset, from, Levels(offset + 1)) && from < Levels(offset + 1)
    ensures Missing(img, InodeOf(img, ino).root, Levels(offset + 1), offset) == Levels(offset + 1)
  {
    var l := Levels(offset + 1);
    PrefixLess(offset, l - 1, 1);
    PrefixLess(offset, l, 1);
    assert Prefix(offset, l) == Prefix(offset, l - 1) / 256;
    assert Digit(offset, l - 1) != 0;
  }

  // ---------------------------------------------------------------- the file before the walk

  /** The file is long enough and has all its levels; what is still missing is what the write has left to take. */
  ghost predicate Prepared(img0: Image, img: Image, at0: Roles, at: Roles, ino: nat, offset: nat) {
    && Formatted(img0) && |img| == |img0| && Inv(img, at) && NoLimbo(at)
    && ino < NInodes(img0) == NInodes(img) && offset < InodeOf(img, ino).nblocks
    && (forall j | 0 <= j < NInodes(img) && j != ino :: InodeOf(img, j) == InodeOf(img0, j))
    && Files(img) == Extended(Files(img0), ino, offset + 1)
    && FreeCount(at) - Missing(img, InodeOf(img, ino).root, Top(img, ino), offset)
       == FreeCount(at0) - Needed(img0, ino, offset)
  }

  /** A file that has been prepared can be walked, and what is missing is known. */
  lemma PreparedReady(img0: Image, img: Image, at0: Roles, at: Roles, ino: nat, offset: nat)
    requires Prepared(img0, img, at0, at, ino, offset)
    ensures Formatted(img0) && Formatted(img) && Inv(img, at) && NoLimbo(at) && ino < NInodes(img) == NInodes(img0)
    ensures offset < InodeOf(img, ino).nblocks
    ensures FreeCount(at) - Missing(img, InodeOf(img, ino).root, Top(img, ino), offset) == FreeCount(at0) - Needed(img0, ino, offset)
  {
  }

  lemma {:induction false} MissingFrame(img: Image, img': Image, at: Roles, b: nat, l: nat, offset: nat, ino: nat)
    requires Inv(img, at) && |img'| == |img|
    requires b != 0 ==> b < |img| && at[b].Node? && at[b].ino == ino && at[b].level == l
    requires forall c | 0 <= c < |img| && at[c].Node? && at[c].ino == ino :: img'[c] == img[c]
    ensures Missing(img', b, l, offset) == Missing(img, b, l, offset)
    decreases l
  {
    if b == 0 || l == 0 {
    } else {
      Child(img, at, -1, b, Digit(offset, l - 1));
      MissingFrame(img, img', at, img[b][Digit(offset, l - 1)], l - 1, offset, ino);
    }
  }

  /** A write within the file needs no preparation. */
  lemma PreparedInside(img: Image, at: Roles, ino: nat, offset: nat)
    requires Inv(img, at) && NoLimbo(at) && ino < NInodes(img) && offset < InodeOf(img, ino).nblocks
    ensures Prepared(img, img, at, at, ino, offset)
  {
    ExtendTwice(Files(img), ino, offset + 1, offset + 1);
    LevelsMonotonic(offset + 1, InodeOf(img, ino).nblocks);
  }

  lemma GrowStart(img: Image, at: Roles, ino: nat, offset: Word)
    requires Inv(img, at) && NoLimbo(at) && ino < NInodes(img) && InodeOf(img, ino).nblocks <= offset
    ensures Growing(img, img, at, at, ino, offset, Top(img, ino), Top(img, ino))
  {
    LevelsMonotonic(InodeOf(img, ino).nblocks, offset + 1);
    ExtendTwice(Files(img), ino, InodeOf(img, ino).nblocks, InodeOf(img, ino).nblocks);
  }

  /** Once all levels are there, the new size in the inode completes the preparation. */
  lemma GrowEnd(img0: Image, img: Image, at0: Roles, at: Roles, ino: nat, offset: Word)
    requires Formatted(img0) && ino < NInodes(img0) && Inv(img0, at0) && InodeOf(img0, ino).nblocks <= offset
    requires offset + 1 < WORD_LIMIT
    requires Growing(img0, img, at0, at, ino, offset, Top(img0, ino), Levels(offset + 1))
    requires Top(img0, ino) == Levels(offset + 1) ==> img == img0 && at == at0
    ensures Prepared(img0, LongerImage(img, ino, offset + 1), at0, at, ino, offset)
  {
    hide Files, FreeCount, RoleOk, Missing, Levels;
    var img', l, from := LongerImage(img, ino, offset + 1), Levels(offset + 1), Top(img0, ino);
    GrowSize(img, at, ino, offset + 1);
    GrowSizeFrame(img, at, ino, offset + 1);
    ExtendTwice(Files(img0), ino, InodeOf(img, ino).nblocks, offset + 1);
    assert RootOk(img, at, ino);
    MissingFrame(img, img', at, InodeOf(img, ino).root, l, offset, ino);
    if from < l {
      MissingAfterGrowth(img0, img, at0, at, ino, offset, from);
    }
  }

  lemma SetInodeTwice(block: Block, i: nat, a: Inode, b: Inode)
    requires i < 128
    ensures SetInode(SetInode(block, i, a), i, b) == SetInode(block, i, b)
    ensures SetInode(block, i, GetInode(block, i)) == block
  {
  }

  /** The inode block in memory is what the disk gets. */
  lemma VirtualIsWritten(img: Image, inodeblock: Block, ino: nat, n: Word, m: Word)
    requires Formatted(img) && ino < NInodes(img) && GetInode(inodeblock, InodeIndex(ino)).nblocks == m
    ensures InodeBlockno(ino) < |img|
    ensures Formatted(Virtual(img, inodeblock, ino, n)) && NInodes(Virtual(img, inodeblock, ino, n)) == NInodes(img)
    ensures LongerImage(Virtual(img, inodeblock, ino, n), ino, m) == img[InodeBlockno(ino) := inodeblock]
  {
    InodeInRange(img, ino);
    var i := InodeIndex(ino);
    var inode := GetInode(inodeblock, i);
    SetInodeTwice(inodeblock, i, inode.(nblocks := n), inode);
  }

  /** A write that has landed completes with its data. */
  lemma WriteEnd(img0: Image, img1: Image, img: Image, at0: Roles, at1: Roles, at: Roles, ino: nat, offset: nat, b: nat, block: Block)
    requires Prepared(img0, img1, at0, at1, ino, offset) && RootsSet(img0)
    requires Landed(img1, img, at1, at, ino, offset, b)
    ensures Inv(img[b := block], at) && NoLimbo(at) && RootsSet(img[b := block])
    ensures Files(img[b := block]) == Written(Files(img0), ino, offset, block)
    ensures FreeCount(at) == FreeCount(at0) - Needed(img0, ino, offset)
  {
    WriteData(img, at, b, block);
    DataInv(img, at, b, block);
    var img2 := img[b := block];
    forall j | 0 <= j < NInodes(img2) ensures InodeOf(img2, j).root == 0 <==> InodeOf(img2, j).nblocks == 0 {
      assert InodeOf(img2, j) == InodeOf(img, j);
      assert j != ino ==> InodeOf(img1, j) == InodeOf(img0, j);
    }
  }

  /** One round of growing, with the inode block still only in memory. */
  lemma VirtualRound(img0: Image, img: Image, inodeblock: Block, n: Word, at0: Roles, at: Roles, ino: nat, offset: Word, from: nat, l: nat)
    requires InodeBlockno(ino) < |img|
    requires Growing(img0, Virtual(img, inodeblock, ino, n), at0, at, ino, offset, from, l)
    requires l < Levels(offset + 1) && offset + 1 < WORD_LIMIT
    ensures Readable(img)
    ensures TakenBlock(img) == 0 <==> FreeCount(at) == 0
    ensures TakenBlock(img) != 0 ==>
      var b, inode := TakenBlock(img), GetInode(inodeblock, InodeIndex(ino));
      && b < |TakenImage(img)| == |img| && inode.root < |at| == |img|
      && Growing(img0,
                 Virtual(TakenImage(img)[b := NullBlock()[0 := inode.root]],
                         SetInode(inodeblock, InodeIndex(ino), inode.(root := b)), ino, NextSize(offset, l)),
                 at0, RootedAt(at, ino, l, b, inode.root), ino, offset, from, l + 1)
  {
    var virtual := Virtual(img, inodeblock, ino, n);
    var p, inode := InodeBlockno(ino), GetInode(inodeblock, InodeIndex(ino));
    assert !IsFree(at[p]) && 0 < p by {
      InodeInRange(virtual, ino);
      assert RoleOk(virtual, at, -1, p);
    }
    TakeElsewhere(img, at, p, virtual[p]);
    GrowRound(img0, virtual, at0, at, ino, offset, from, l);
    var b := TakenBlock(img);
    if b != 0 {
      VirtualTaller(TakenImage(img), inodeblock, ino, n, b, NextSize(offset, l));
      TallerRooted(TakenImage(virtual), at, ino, l, b, inode.root);
    }
  }

  lemma TallerRooted(img: Image, at: Roles, ino: nat, l: nat, b: nat, root: nat)
    requires Formatted(img) && ino < NInodes(img) && b < |img| == |at| && root < |at|
    requires InodeOf(img, ino).root == root && Top(img, ino) == l
    ensures TallerRoles(img, at[b := Limbo], ino, b) == RootedAt(at, ino, l, b, root)
  {
    assert at[b := Limbo][b := Node(ino, l + 1, 0, 0)] == at[b := Node(ino, l + 1, 0, 0)];
  }

  lemma VirtualTaller(img: Image, inodeblock: Block, ino: nat, n: Word, b: nat, n': Word)
    requires InodeBlockno(ino) < |img| && 0 < b < |img| && b != InodeBlockno(ino)
    requires Formatted(Virtual(img, inodeblock, ino, n)) && ino < NInodes(Virtual(img, inodeblock, ino, n))
    ensures var inode := GetInode(inodeblock, InodeIndex(ino));
            Virtual(img[b := NullBlock()[0 := inode.root]], SetInode(inodeblock, InodeIndex(ino), inode.(root := b)), ino, n')
            == TallerImage(Virtual(img, inodeblock, ino, n), ino, b, n')
  {
    var p, i, inode := InodeBlockno(ino), InodeIndex(ino), GetInode(inodeblock, InodeIndex(ino));
    SetInodeTwice(inodeblock, i, inode.(nblocks := n), Inode(b, n'));
    SetInodeTwice(inodeblock, i, inode.(root := b), Inode(b, n'));
    var virtual := Virtual(img, inodeblock, ino, n);
    assert InodeOf(virtual, ino).root == inode.root;
    assert virtual[b := NullBlock()[0 := inode.root]][p] == virtual[p];
  }

  /** The roles after block `b` has become the root above the old root. */
  ghost function RootedAt(at: Roles, ino: nat, l: nat, b: nat, root: nat): Roles
    requires b < |at| && root < |at|
  {
    if root == 0 then at[b := Node(ino, l + 1, 0, 0)]
    else at[b := Node(ino, l + 1, 0, 0)][root := Node(ino, l, 0, b)]
  }

  // ---------------------------------------------------------------- one step of the walk

  lemma PlaceTwice(img: Image, parent: Block, p: nat, i: nat, b: nat)
    requires p < |img| && b < |img| < WORD_LIMIT && i < 256 && p != b
    ensures PlaceImage(img[p := parent], p, i, b) == img[p := parent[i := b]][b := NullBlock()]
  {
  }

  /** One step down by allocating, with the parent's block still only in memory. */
  lemma TakeStep(img0: Image, img: Image, parent: Block, at0: Roles, at: Roles, ino: nat, offset: nat, l: nat, p: nat, i: nat)
    requires p < |img| && i < 256 && parent[i] == 0
    requires Walking(img0, img[p := parent], at0, at, ino, offset, l, p, i)
    ensures Readable(img) && p != 0 && Formatted(img[p := parent]) && ino < NInodes(img[p := parent])
    ensures TakenBlock(img) == 0 <==> FreeCount(at) == 0
    ensures TakenBlock(img) != 0 ==>
      var b := TakenBlock(img);
      && 0 < b < |img| == |at| == |TakenImage(img)| && b != p
      && var img2 := TakenImage(img)[p := parent[i := b]];
         var at2 := at[b := PlaceRole(img[p := parent], ino, offset, l, p)];
      && (l > 0 ==> Walking(img0, img2[b := NullBlock()], at0, at2, ino, offset, l - 1, b, Digit(offset, l - 1)))
      && (l == 0 ==> Landed(img0, img2[b := NullBlock()], at0, at2, ino, offset, b))
  {
    var virtual := img[p := parent];
    assert p != 0 && !IsFree(at[p]) by {
      InodeInRange(virtual, ino);
      assert RoleOk(virtual, at, -1, 0) && RoleOk(virtual, at, -1, InodeBlockno(ino));
    }
    TakeElsewhere(img, at, p, parent);
    LinkHere(img0, virtual, at0, at, ino, offset, l, p, i);
    var b := TakenBlock(img);
    if b != 0 {
      PlaceTwice(TakenImage(img), parent, p, i, b);
    }
  }

  /** Before the growth starts the inode block in memory differs from the disk in the new size only. */
  lemma VirtualStart(img: Image, inodeblock: Block, ino: nat, n: Word)
    requires Formatted(img) && ino < NInodes(img) && InodeBlockno(ino) < |img|
    requires inodeblock == SetInode(img[InodeBlockno(ino)], InodeIndex(ino), InodeOf(img, ino).(nblocks := n))
    ensures Virtual(img, inodeblock, ino, InodeOf(img, ino).nblocks) == img
    ensures GetInode(inodeblock, InodeIndex(ino)).nblocks == n
  {
    SetInodeTwice(img[InodeBlockno(ino)], InodeIndex(ino), InodeOf(img, ino).(nblocks := n), InodeOf(img, ino));
  }

  lemma PreparedSize(img0: Image, img: Image, at0: Roles, at: Roles, ino: nat, offset: nat)
    requires Prepared(img0, img, at0, at, ino, offset) && InodeOf(img0, ino).nblocks <= offset
    ensures InodeOf(img, ino).nblocks == offset + 1 && InodeBlockno(ino) != 0
  {
    assert |Files(img)[ino]| == offset + 1;
  }

  /** The size of a file that grows to hold block `offset`, in a 32-bit word. */
  function NewSize(offset: Word): Word {
    (offset + 1) % WORD_LIMIT
  }

  /** It holds that block exactly when the offset is not the last of all; then the size would become null. */
  lemma NewSizeHolds(offset: Word)
    ensures offset < NewSize(offset) <==> offset + 1 < WORD_LIMIT
    ensures NewSize(WORD_LIMIT - 1) == 0
  {
  }

  /** So a write that leaves the new size in the inode can have done what a write does only if the offset is not the
      last of all, whatever else it has left on the disk; at the last one the file is empty. */
  lemma WriteHolds(img: Image, img': Image, ino: nat, offset: Word, block: Block)
    requires Formatted(img) && Formatted(img') && ino < NInodes(img) == NInodes(img')
    requires InodeOf(img, ino).nblocks <= offset && InodeOf(img', ino).nblocks == NewSize(offset)
    ensures Files(img') == Written(Files(img), ino, offset, block) ==> offset + 1 < WORD_LIMIT
    ensures offset == WORD_LIMIT - 1 ==> Files(img')[ino] == []
  {
    NewSizeHolds(offset);
    assert |Files(img')[ino]| == NewSize(offset) && |Files(img)[ino]| <= offset;
  }
}
