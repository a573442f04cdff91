/** Every block number has exactly one role in a treedisk image, and the image justifies it. */
module TreeInvariant {
  import opened TreeLayout

  /** What a block is for.
      - Node: the tree node of file `ino` at `level` (0 is data) that covers the data blocks
        `prefix * 256^level` onwards; `parent` refers to it (0: the inode does)
      - ListBlock: a block of the free list with `rank` blocks behind it, linked from `pred`
      - ListSlot: a free block that slot `index` of free-list block `holder` refers to
      - Limbo: taken off the free list but not linked into a file yet */
  datatype Role =
    | Super
    | InodeBlock
    | Node(ino: nat, level: nat, prefix: nat, parent: nat)
    | ListBlock(rank: nat, pred: nat)
    | ListSlot(holder: nat, index: nat)
    | Limbo

  type Roles = seq<Role>

  predicate IsFree(r: Role) {
    r.ListBlock? || r.ListSlot?
  }

  /** Role `b` is a node, and the one place that should refer to it does. */
  ghost predicate UpOk(img: Image, at: Roles, b: nat)
    requires Formatted(img) && |at| == |img| && b < |at|
  {
    && at[b].Node?
    && var ino, l, q, par := at[b].ino, at[b].level, at[b].prefix, at[b].parent;
    && ino < NInodes(img)
    && var inode := InodeOf(img, ino);
    && Within(q, l, inode.nblocks)
    && if l == Levels(inode.nblocks) then q == 0 && par == 0 && inode.root == b
       else
         && l < Levels(inode.nblocks)
         && 0 < par < |img|
         && at[par].Node? && at[par].ino == ino && at[par].level == l + 1 && at[par].prefix == q / 256
         && img[par][q % 256] == b
  }

  /** Everything that indirect block `b` refers to is the node that belongs there. */
  ghost predicate DownOk(img: Image, at: Roles, b: nat)
    requires |at| == |img| && b < |at| && at[b].Node?
  {
    at[b].level > 0 ==>
      forall i | 0 <= i < 256 && img[b][i] != 0 ::
        img[b][i] < |img| && at[img[b][i]] == Node(at[b].ino, at[b].level - 1, at[b].prefix * 256 + i, b)
  }

  ghost predicate RootOk(img: Image, at: Roles, ino: nat)
    requires Formatted(img) && |at| == |img| && ino < NInodes(img)
  {
    var inode := InodeOf(img, ino);
    inode.root != 0 ==> inode.root < |img| && at[inode.root] == Node(ino, Levels(inode.nblocks), 0, 0)
  }

  /** Block `b` is on the free list: its predecessor, its successor and its slots agree. */
  ghost predicate ListOk(img: Image, at: Roles, b: nat)
    requires 0 < |img| == |at| && b < |at|
  {
    && at[b].ListBlock?
    && var head, rank, pred, next := FreeList(img), at[b].rank, at[b].pred, img[b][0];
    && 0 < head < |img| && at[head].ListBlock? && rank <= at[head].rank
    && (rank == at[head].rank <==> b == head)
    && (b != head ==> pred < |img| && at[pred].ListBlock? && at[pred].rank == rank + 1 && img[pred][0] == b)
    && (rank == 0 <==> next == 0)
    && (next != 0 ==> next < |img| && at[next] == ListBlock(rank - 1, b))
    && forall i | 1 <= i < 256 && img[b][i] != 0 :: img[b][i] < |img| && at[img[b][i]] == ListSlot(b, i)
  }

  ghost predicate SlotOk(img: Image, at: Roles, b: nat)
    requires |at| == |img| && b < |at|
  {
    && at[b].ListSlot?
    && at[b].holder < |img| && at[at[b].holder].ListBlock?
    && 1 <= at[b].index < 256 && img[at[b].holder][at[b].index] == b
  }

  /** The role of `b` is justified.  While file `dying` is being freed its nodes need not refer to nodes. */
  ghost predicate RoleOk(img: Image, at: Roles, dying: int, b: nat)
    requires Formatted(img) && |at| == |img| && b < |at|
  {
    && (b == 0 <==> at[b].Super?)
    && (1 <= b <= NInodeBlocks(img) <==> at[b].InodeBlock?)
    && match at[b]
       case Node(ino, _, _, _) => UpOk(img, at, b) && (ino != dying ==> DownOk(img, at, b))
       case ListBlock(_, _) => ListOk(img, at, b)
       case ListSlot(_, _) => SlotOk(img, at, b)
       case _ => true
  }

  ghost predicate HeadOk(img: Image, at: Roles)
    requires 0 < |img| == |at|
  {
    FreeList(img) != 0 ==> FreeList(img) < |img| && at[FreeList(img)].ListBlock?
  }

  ghost predicate Inv(img: Image, at: Roles, dying: int := -1) {
    && Formatted(img) && |at| == |img|
    && HeadOk(img, at)
    && (forall b | 0 <= b < |img| :: RoleOk(img, at, dying, b))
    && (forall ino | 0 <= ino < NInodes(img) && ino != dying :: RootOk(img, at, ino))
  }

  /** Nothing has leaked. */
  ghost predicate NoLimbo(at: Roles) {
    forall b | 0 <= b < |at| :: !at[b].Limbo?
  }

  /** A file has a root exactly when it is not empty. */
  ghost predicate RootsSet(img: Image)
    requires Formatted(img)
  {
    forall ino | 0 <= ino < NInodes(img) :: InodeOf(img, ino).root == 0 <==> InodeOf(img, ino).nblocks == 0
  }

  /** No node other than those of `dying` changes its contents. */
  ghost predicate SameFiles(img: Image, img': Image, dying: int := -1)
    requires Formatted(img) && Formatted(img')
  {
    && NInodes(img') == NInodes(img)
    && forall ino | 0 <= ino < NInodes(img) && ino != dying :: Contents(img', ino) == Contents(img, ino)
  }

  // ---------------------------------------------------------------- frames

  lemma InodesSame(img: Image, img': Image, at: Roles, dying: int)
    requires Inv(img, at, dying) && |img'| == |img| && NInodeBlocks(img') == NInodeBlocks(img)
    requires forall b | 0 <= b < |img| && at[b].InodeBlock? :: img'[b] == img[b]
    ensures Formatted(img')
    ensures forall ino | 0 <= ino < NInodes(img) :: InodeOf(img', ino) == InodeOf(img, ino)
  {
    forall ino | 0 <= ino < NInodes(img) ensures InodeOf(img', ino) == InodeOf(img, ino) {
      assert RoleOk(img, at, dying, InodeBlockno(ino));
    }
  }

  /** Blocks of a file that stay the same keep its tree readable. */
  lemma {:induction false} BlockAtFrame(img: Image, img': Image, at: Roles, dying: int, b: nat, l: nat, offset: nat, ino: nat)
    requires Inv(img, at, dying) && |img'| == |img| && ino != dying
    requires b != 0 ==> b < |img| && at[b].Node? && at[b].ino == ino && at[b].level == l
    requires forall c | 0 <= c < |img| && at[c].Node? && at[c].ino == ino :: img'[c] == img[c]
    ensures BlockAt(img', b, l, offset) == BlockAt(img, b, l, offset)
    decreases l
  {
    if b == 0 || l == 0 {
    } else {
      Child(img, at, dying, b, Digit(offset, l - 1));
      BlockAtFrame(img, img', at, dying, img[b][Digit(offset, l - 1)], l - 1, offset, ino);
    }
  }

  lemma FileFrame(img: Image, img': Image, at: Roles, dying: int, ino: nat)
    requires Inv(img, at, dying) && |img'| == |img| && Formatted(img') && ino != dying
    requires ino < NInodes(img) == NInodes(img') && InodeOf(img', ino) == InodeOf(img, ino)
    requires forall c | 0 <= c < |img| && at[c].Node? && at[c].ino == ino :: img'[c] == img[c]
    ensures Contents(img', ino) == Contents(img, ino)
  {
    var inode := InodeOf(img, ino);
    assert RootOk(img, at, ino);
    forall k | 0 <= k < inode.nblocks ensures Contents(img', ino)[k] == Contents(img, ino)[k] {
      BlockAtFrame(img, img', at, dying, inode.root, Levels(inode.nblocks), k, ino);
    }
  }

  /** Block `t` (if any) may leave or join the free list; no other node and no inode changes. */
  ghost predicate FreeStep(img: Image, img': Image, at: Roles, at': Roles, dying: int, t: int)
    requires Inv(img, at, dying)
  {
    && |img'| == |at'| == |img| && NInodeBlocks(img') == NInodeBlocks(img)
    && (0 <= t < |img| ==> at[t].Limbo? || (at[t].Node? && at[t].ino == dying))
    && (forall b | 0 <= b < |img| && at[b].Node? :: b == t || (at'[b] == at[b] && img'[b] == img[b] && at[b].parent != t))
    && (forall b | 0 <= b < |img| && at[b].InodeBlock? :: img'[b] == img[b])
    && (forall b | 0 <= b < |img| && at'[b].Node? :: at[b].Node? && b != t)
    && (forall b | 0 <= b < |img| :: at'[b].Super? == at[b].Super? && at'[b].InodeBlock? == at[b].InodeBlock?)
  }

  lemma FilesKept(img: Image, img': Image, at: Roles, at': Roles, dying: int, t: int)
    requires Inv(img, at, dying) && FreeStep(img, img', at, at', dying, t)
    ensures SameFiles(img, img', dying)
    ensures forall ino | 0 <= ino < NInodes(img) :: InodeOf(img', ino) == InodeOf(img, ino)
    ensures forall b | 0 <= b < |img| && !IsFree(at'[b]) :: RoleOk(img', at', dying, b)
    ensures forall ino | 0 <= ino < NInodes(img') && ino != dying :: RootOk(img', at', ino)
  {
    InodesSame(img, img', at, dying);
    forall b | 0 <= b < |img| && !IsFree(at'[b]) ensures RoleOk(img', at', dying, b) {
      assert RoleOk(img, at, dying, b);
    }
    forall ino | 0 <= ino < NInodes(img') && ino != dying
      ensures RootOk(img', at', ino) && Contents(img', ino) == Contents(img, ino)
    {
      assert RootOk(img, at, ino);
      FileFrame(img, img', at, dying, ino);
    }
  }

  /** Steps that touch no free block keep the free list. */
  lemma ListKept(img: Image, img': Image, at: Roles, at': Roles, dying: int)
    requires Inv(img, at, dying)
    requires |img'| == |at'| == |img| && Formatted(img')
    requires FreeList(img') == FreeList(img) && NInodeBlocks(img') == NInodeBlocks(img)
    requires forall c | 0 <= c < |img| && IsFree(at[c]) :: at'[c] == at[c] && img'[c] == img[c]
    ensures HeadOk(img', at')
    ensures forall c | 0 <= c < |img| && IsFree(at[c]) :: RoleOk(img', at', dying, c)
  {
    forall c | 0 <= c < |img| && IsFree(at[c]) ensures RoleOk(img', at', dying, c) {
      assert RoleOk(img, at, dying, c);
    }
  }

  lemma NodeUp(img: Image, at: Roles, dying: int, b: nat)
    requires Inv(img, at, dying) && b < |img| && at[b].Node?
    ensures b != 0 && UpOk(img, at, b)
  {
    assert RoleOk(img, at, dying, b);
  }

  /** What entry `i` of an indirect block refers to. */
  lemma Child(img: Image, at: Roles, dying: int, b: nat, i: nat)
    requires Inv(img, at, dying) && b < |img| && at[b].Node? && at[b].ino != dying && at[b].level > 0 && i < 256
    ensures img[b][i] != 0 ==>
      img[b][i] < |img| && at[img[b][i]] == Node(at[b].ino, at[b].level - 1, at[b].prefix * 256 + i, b)
  {
    assert RoleOk(img, at, dying, b);
  }

  // ---------------------------------------------------------------- counting free blocks

  function FreeCount(at: Roles): nat {
    if at == [] then 0 else FreeCount(at[..|at| - 1]) + if IsFree(at[|at| - 1]) then 1 else 0
  }

  lemma {:induction false} FreeCountUpdate(at: Roles, b: nat, r: Role)
    requires b < |at|
    ensures FreeCount(at[b := r]) ==
            FreeCount(at) - (if IsFree(at[b]) then 1 else 0) + if IsFree(r) then 1 else 0
  {
    var last := |at| - 1;
    if b == last {
      assert at[b := r][..last] == at[..last];
    } else {
      FreeCountUpdate(at[..last], b, r);
      assert at[b := r][..last] == at[..last][b := r];
    }
  }

  lemma {:induction false} FreeCountZero(at: Roles)
    requires forall b | 0 <= b < |at| :: !IsFree(at[b])
    ensures FreeCount(at) == 0
  {
    if at == [] {
    } else {
      FreeCountZero(at[..|at| - 1]);
    }
  }

  lemma InvFormatted(img: Image, at: Roles)
    requires Inv(img, at)
    ensures Formatted(img) && |img| > 0 && |Files(img)| == NInodes(img)
  {
  }
}
