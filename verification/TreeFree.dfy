/** Freeing a whole tree: which nodes lie below a node, and that freeing them leaves nothing behind. */
module TreeFree {
  import opened TreeLayout
  import opened TreeInvariant
  import opened FreeLists

  /** The node lies at or below node `q` of level `l` of file `ino`. */
  predicate Below(r: Role, ino: nat, l: nat, q: nat) {
    r.Node? && r.ino == ino && AtOrBelow(r.level, r.prefix, l, q)
  }

  /** Below this node every indirect block still refers to nodes. */
  ghost predicate Whole(img: Image, at: Roles, ino: nat, l: nat, q: nat)
    requires |at| == |img|
  {
    forall c | 0 <= c < |img| && Below(at[c], ino, l, q) :: DownOk(img, at, c)
  }

  /** `b` is the one node at this place. */
  ghost predicate Only(at: Roles, ino: nat, l: nat, q: nat, b: nat) {
    forall c | 0 <= c < |at| && at[c].Node? && at[c].ino == ino && at[c].level == l && at[c].prefix == q :: c == b
  }

  /** Everything below node (`l`, `q`) has been freed and nothing else has changed for the other nodes. */
  ghost predicate FreedBelow(img: Image, img': Image, at: Roles, at': Roles, ino: nat, l: nat, q: nat)
    requires |img| == |img'| == |at| == |at'|
  {
    forall c | 0 <= c < |img| ::
      && (IsFree(at'[c]) <==> IsFree(at[c]) || Below(at[c], ino, l, q))
      && (!IsFree(at'[c]) ==> at'[c] == at[c] && (c != 0 ==> img'[c] == img[c]))
  }

  /** Within the tree, a node at (`l`, `q`) is where `Only` says. */
  lemma OnlyChild(img: Image, at: Roles, ino: nat, l: nat, q: nat, b: nat, i: nat)
    requires Inv(img, at, ino) && b < |img| && Only(at, ino, l + 1, q, b) && i < 256 && ino < NInodes(img)
    requires l + 1 <= Top(img, ino)
    ensures Only(at, ino, l, q * 256 + i, img[b][i])
  {
    forall c | 0 <= c < |at| && at[c].Node? && at[c].ino == ino && at[c].level == l && at[c].prefix == q * 256 + i
      ensures c == img[b][i]
    {
      NodeUp(img, at, ino, c);
      assert at[c].parent == b;
    }
  }

  /** From any node below (`l`, `q`) the parents lead up to a node at (`l`, `q`). */
  lemma {:induction false} Climb(img: Image, at: Roles, ino: nat, l: nat, q: nat, c: nat)
    requires Inv(img, at, ino) && c < |img| && Below(at[c], ino, l, q) && ino < NInodes(img) && l <= Top(img, ino)
    ensures exists d :: 0 < d < |at| && at[d].Node? && at[d].ino == ino && at[d].level == l && at[d].prefix == q
    decreases l - at[c].level
  {
    NodeUp(img, at, ino, c);
    if at[c].level >= l {
    } else {
      PrefixUp(at[c].prefix, l - at[c].level);
      Climb(img, at, ino, l, q, at[c].parent);
    }
  }

  lemma {:induction false} PrefixUp(p: nat, k: nat)
    requires k > 0
    ensures Prefix(p, k) == Prefix(p / 256, k - 1)
  {
    if k <= 1 {
    } else {
      PrefixUp(p, k - 1);
    }
  }

  /** With no entry at `i` there is nothing below that place. */
  lemma NothingBelow(img: Image, at: Roles, ino: nat, l: nat, q: nat, b: nat, i: nat, c: nat)
    requires Inv(img, at, ino) && b < |img| && Only(at, ino, l + 1, q, b) && i < 256 && ino < NInodes(img)
    requires l + 1 <= Top(img, ino) && img[b][i] == 0 && c < |img|
    ensures !Below(at[c], ino, l, q * 256 + i)
  {
    OnlyChild(img, at, ino, l, q, b, i);
    if Below(at[c], ino, l, q * 256 + i) {
      Climb(img, at, ino, l, q * 256 + i, c);
    }
  }

  /** The entry of the ancestor at level `l` that leads down to a node. */
  function Entry(r: Role, l: nat): (i: nat)
    requires r.Node? && r.level < l
    ensures i < 256
  {
    Digit(r.prefix, l - 1 - r.level)
  }

  /** What lies strictly below an indirect node lies below exactly one of its entries. */
  lemma BelowEntry(r: Role, ino: nat, l: nat, q: nat, i: nat)
    requires i < 256
    ensures l > 0 && r.Node? && r.level < l ==>
      (Below(r, ino, l - 1, q * 256 + i) <==> Below(r, ino, l, q) && Entry(r, l) == i)
    ensures Below(r, ino, 0, q) ==> r.level == 0 && r.prefix == q
  {
  }

  /** When everything else below `b` has been freed, nothing has it as its parent. */
  lemma ChildrenGone(img: Image, at: Roles, ino: nat, b: nat)
    requires Inv(img, at, ino) && 0 < b < |img| && at[b].Node? && at[b].ino == ino
    requires forall c | 0 <= c < |img| && Below(at[c], ino, at[b].level, at[b].prefix) :: c == b
    ensures Loose(at, ino, b)
  {
    forall c | 0 <= c < |at| && at[c].Node? ensures c == b || at[c].parent != b {
      NodeUp(img, at, ino, c);
      if at[c].parent == b {
        assert Prefix(at[c].prefix, 1) == at[c].prefix / 256;
        assert Below(at[c], ino, at[b].level, at[b].prefix);
      }
    }
  }

  // ---------------------------------------------------------------- the loop over the entries

  /** What has happened to the tree below `b` once its first `i` entries have been freed. */
  ghost predicate Progress(img: Image, img': Image, at: Roles, at': Roles, ino: nat, l: nat, q: nat, i: nat) {
    && |img| == |img'| == |at| == |at'|
    && forall c | 0 <= c < |img| ::
         && (IsFree(at'[c]) <==>
               IsFree(at[c]) || (Below(at[c], ino, l, q) && at[c].level < l && Entry(at[c], l) < i))
         && (!IsFree(at'[c]) ==> at'[c] == at[c] && (c != 0 ==> img'[c] == img[c]))
  }

  /** The files other than `ino`, and its inode, stay as they are. */
  ghost predicate Beside(img: Image, img': Image, ino: nat) {
    && Formatted(img) && Formatted(img') && SameFiles(img, img', ino)
    && forall j | 0 <= j < NInodes(img) :: InodeOf(img', j) == InodeOf(img, j)
  }

  /** All that a call that frees the tree below `b` relies on. */
  ghost predicate TreeAt(img: Image, at: Roles, ino: nat, l: nat, q: nat, b: nat) {
    && Inv(img, at, ino) && ino < NInodes(img) && l <= Top(img, ino)
    && 0 < b < |img| && at[b].Node? && at[b].ino == ino && at[b].level == l && at[b].prefix == q
    && Whole(img, at, ino, l, q) && Only(at, ino, l, q, b)
  }

  lemma EntryOfChild(r: Role, l: nat, k: nat, parent: nat)
    requires r.Node? && 0 < r.level < l && k < 256
    ensures Entry(Node(r.ino, r.level - 1, r.prefix * 256 + k, parent), l) == Entry(r, l)
    ensures Prefix(r.prefix * 256 + k, l - (r.level - 1)) == Prefix(r.prefix, l - r.level)
  {
    PrefixUp(r.prefix * 256 + k, l - r.level);
    PrefixUp(r.prefix * 256 + k, l - (r.level - 1));
  }

  /** When its turn comes, the tree below entry `i` is still as it was. */
  lemma ChildReady(img: Image, img': Image, at: Roles, at': Roles, ino: nat, l: nat, q: nat, b: nat, i: nat)
    requires TreeAt(img, at, ino, l, q, b) && Inv(img', at', ino) && Beside(img, img', ino)
    requires l > 0 && i < 256 && Progress(img, img', at, at', ino, l, q, i)
    requires img[b][i] != 0
    ensures TreeAt(img', at', ino, l - 1, q * 256 + i, img[b][i])
  {
    var r := img[b][i];
    assert Below(at[b], ino, l, q);
    assert DownOk(img, at, b);
    assert at[r] == Node(ino, l - 1, q * 256 + i, b);
    BelowEntry(at[r], ino, l, q, i);
    OnlyChild(img, at, ino, l - 1, q, b, i);
    forall c | 0 <= c < |img'| && Below(at'[c], ino, l - 1, q * 256 + i) ensures DownOk(img', at', c) {
      NodeUp(img', at', ino, c);
      BelowEntry(at[c], ino, l, q, i);
      StillDown(img, img', at, at', ino, l, q, i, c);
    }
    NodeUp(img', at', ino, r);
  }

  lemma StillDown(img: Image, img': Image, at: Roles, at': Roles, ino: nat, l: nat, q: nat, i: nat, c: nat)
    requires Progress(img, img', at, at', ino, l, q, i) && Inv(img, at, ino) && Whole(img, at, ino, l, q)
    requires 0 < c < |img| && Below(at[c], ino, l, q) && at[c].level < l && Entry(at[c], l) >= i
    ensures at'[c] == at[c] && DownOk(img', at', c)
  {
    assert DownOk(img, at, c);
    if at[c].level > 0 {
      forall k | 0 <= k < 256 && img'[c][k] != 0
        ensures img'[c][k] < |img'| && at'[img'[c][k]] == Node(ino, at[c].level - 1, at[c].prefix * 256 + k, c)
      {
        EntryOfChild(at[c], l, k, c);
      }
    }
  }

  /** Freeing what lies below entry `i` completes its step. */
  lemma ChildDone(img: Image, img1: Image, img2: Image, at: Roles, at1: Roles, at2: Roles, ino: nat, l: nat, q: nat, i: nat)
    requires l > 0 && i < 256 && Progress(img, img1, at, at1, ino, l, q, i)
    requires |img1| == |img2| == |at1| == |at2| && FreedBelow(img1, img2, at1, at2, ino, l - 1, q * 256 + i)
    ensures Progress(img, img2, at, at2, ino, l, q, i + 1)
  {
    forall c | 0 <= c < |img|
      ensures IsFree(at2[c]) <==>
        IsFree(at[c]) || (Below(at[c], ino, l, q) && at[c].level < l && Entry(at[c], l) < i + 1)
    {
      BelowEntry(at[c], ino, l, q, i);
    }
  }

  /** An empty entry has nothing below it, and its step is done. */
  lemma NoChild(img: Image, img': Image, at: Roles, at': Roles, ino: nat, l: nat, q: nat, b: nat, i: nat)
    requires TreeAt(img, at, ino, l, q, b) && l > 0 && i < 256 && img[b][i] == 0
    requires Progress(img, img', at, at', ino, l, q, i)
    ensures Progress(img, img', at, at', ino, l, q, i + 1)
  {
    forall c | 0 <= c < |img|
      ensures IsFree(at'[c]) <==>
        IsFree(at[c]) || (Below(at[c], ino, l, q) && at[c].level < l && Entry(at[c], l) < i + 1)
    {
      NothingBelow(img, at, ino, l - 1, q, b, i, c);
      BelowEntry(at[c], ino, l, q, i);
    }
  }

  /** Once everything below `b` is free, `b` itself may be freed. */
  lemma NodeReady(img: Image, img': Image, at: Roles, at': Roles, ino: nat, l: nat, q: nat, b: nat)
    requires TreeAt(img, at, ino, l, q, b) && Inv(img', at', ino) && Progress(img, img', at, at', ino, l, q, 256)
    ensures Loose(at', ino, b)
  {
    forall c | 0 <= c < |img'| && Below(at'[c], ino, l, q) ensures c == b {
      BelowEntry(at[c], ino, l, q, 0);
    }
    ChildrenGone(img', at', ino, b);
  }

  lemma NodeDone(img: Image, img1: Image, img2: Image, at: Roles, at1: Roles, at2: Roles, ino: nat, l: nat, q: nat, b: nat)
    requires TreeAt(img, at, ino, l, q, b) && Progress(img, img1, at, at1, ino, l, q, 256)
    requires Freed(img1, img2, at1, at2, ino, b)
    ensures FreedBelow(img, img2, at, at2, ino, l, q)
  {
    forall c | 0 <= c < |img| ensures IsFree(at2[c]) <==> IsFree(at[c]) || Below(at[c], ino, l, q) {
      assert Below(at[c], ino, l, q) && at[c].level == l ==> c == b;
    }
  }

  lemma BesideTransitive(img: Image, img1: Image, img2: Image, ino: nat)
    requires Beside(img, img1, ino) && Beside(img1, img2, ino)
    ensures Beside(img, img2, ino)
  {
    forall j | 0 <= j < NInodes(img) && j != ino ensures Contents(img2, j) == Contents(img, j) {
      assert Contents(img1, j) == Contents(img, j);
    }
    forall j | 0 <= j < NInodes(img) ensures InodeOf(img2, j) == InodeOf(img, j) {
      assert InodeOf(img1, j) == InodeOf(img, j);
    }
  }

  /** The state of the loop before entry `i`. */
  ghost predicate Freeing(img: Image, img': Image, at: Roles, at': Roles, ino: nat, l: nat, q: nat, i: nat) {
    Inv(img', at', ino) && Beside(img, img', ino) && Progress(img, img', at, at', ino, l, q, i)
  }

  /** What freeing the tree below (`l`, `q`) does. */
  ghost predicate TreeFreed(img: Image, img': Image, at: Roles, at': Roles, ino: nat, l: nat, q: nat) {
    && |img| == |img'| == |at| == |at'|
    && Inv(img', at', ino) && Beside(img, img', ino) && FreedBelow(img, img', at, at', ino, l, q)
  }

  lemma FreeStart(img: Image, at: Roles, ino: nat, l: nat, q: nat)
    requires Inv(img, at, ino)
    ensures Freeing(img, img, at, at, ino, l, q, 0)
    ensures l == 0 ==> Freeing(img, img, at, at, ino, l, q, 256)
  {
  }

  lemma FreeEntry(img: Image, img1: Image, img2: Image, at: Roles, at1: Roles, at2: Roles, ino: nat, l: nat, q: nat, i: nat)
    requires l > 0 && i < 256 && Freeing(img, img1, at, at1, ino, l, q, i)
    requires TreeFreed(img1, img2, at1, at2, ino, l - 1, q * 256 + i)
    ensures Freeing(img, img2, at, at2, ino, l, q, i + 1)
  {
    ChildDone(img, img1, img2, at, at1, at2, ino, l, q, i);
    BesideTransitive(img, img1, img2, ino);
  }

  /** Freeing `b` after all its entries completes the job. */
  lemma FreeNode(img: Image, img': Image, at: Roles, at': Roles, ino: nat, l: nat, q: nat, b: nat)
    requires TreeAt(img, at, ino, l, q, b) && Freeing(img, img', at, at', ino, l, q, 256)
    ensures Readable(img') && b < |img'| && b != FreeList(img') && |at'| == |img'|
    ensures TreeFreed(img, FreedImage(img', b), at, FreedRoles(img', at', b), ino, l, q)
  {
    NodeReady(img, img', at, at', ino, l, q, b);
    Free(img', at', ino, b);
    NodeDone(img, img', FreedImage(img', b), at, at', FreedRoles(img', at', b), ino, l, q, b);
    BesideTransitive(img, img', FreedImage(img', b), ino);
  }

  // ---------------------------------------------------------------- a whole file

  /** All nodes of a file lie below its root. */
  lemma {:induction false} BelowRoot(img: Image, at: Roles, dying: int, c: nat)
    requires Inv(img, at, dying) && c < |img| && at[c].Node?
    ensures at[c].ino < NInodes(img) && at[c].level <= Top(img, at[c].ino)
    ensures Below(at[c], at[c].ino, Top(img, at[c].ino), 0)
    decreases if at[c].ino < NInodes(img) then Top(img, at[c].ino) - at[c].level else 0
  {
    NodeUp(img, at, dying, c);
    var top := Top(img, at[c].ino);
    if at[c].level >= top {
    } else {
      BelowRoot(img, at, dying, at[c].parent);
      PrefixUp(at[c].prefix, top - at[c].level);
    }
  }

  /** A file that is not empty is a whole tree below its root. */
  lemma FileTree(img: Image, at: Roles, ino: nat)
    requires Inv(img, at) && ino < NInodes(img) && InodeOf(img, ino).root != 0
    ensures TreeAt(img, at, ino, Top(img, ino), 0, InodeOf(img, ino).root)
  {
    var root, top := InodeOf(img, ino).root, Top(img, ino);
    assert RootOk(img, at, ino);
    forall c | 0 <= c < |img| ensures RoleOk(img, at, ino, c) {
      assert RoleOk(img, at, -1, c);
    }
    forall j | 0 <= j < NInodes(img) && j != ino ensures RootOk(img, at, j) {
      assert RootOk(img, at, j);
    }
    forall c | 0 <= c < |img| && Below(at[c], ino, top, 0) ensures DownOk(img, at, c) {
      assert RoleOk(img, at, -1, c);
    }
    forall c | 0 <= c < |at| && at[c].Node? && at[c].ino == ino && at[c].level == top && at[c].prefix == 0
      ensures c == root
    {
      NodeUp(img, at, -1, c);
    }
  }

  /** Once its tree has been freed, exactly the blocks of the file have become free. */
  lemma FileFreed(img: Image, img': Image, at: Roles, at': Roles, ino: nat)
    requires Inv(img, at) && ino < NInodes(img) && TreeFreed(img, img', at, at', ino, Top(img, ino), 0)
    ensures forall c | 0 <= c < |at| ::
      && (IsFree(at'[c]) <==> IsFree(at[c]) || (at[c].Node? && at[c].ino == ino))
      && (!IsFree(at'[c]) ==> at'[c] == at[c])
    ensures forall c | 0 <= c < |at'| && at'[c].Node? :: at'[c].ino != ino
  {
    forall c | 0 <= c < |at| && at[c].Node? && at[c].ino == ino ensures Below(at[c], ino, Top(img, ino), 0) {
      BelowRoot(img, at, -1, c);
    }
  }

  /** A freed file has no nodes left, so that its inode can be cleared. */
  lemma ClearInode(img: Image, at: Roles, ino: nat)
    requires Inv(img, at, ino) && ino < NInodes(img)
    requires forall c | 0 <= c < |at| && at[c].Node? :: at[c].ino != ino
    ensures Inv(WithInode(img, ino, Inode(0, 0)), at)
    ensures Files(WithInode(img, ino, Inode(0, 0))) == Files(img)[ino := []]
    ensures forall j | 0 <= j < NInodes(img) && j != ino :: InodeOf(WithInode(img, ino, Inode(0, 0)), j) == InodeOf(img, j)
    ensures InodeOf(WithInode(img, ino, Inode(0, 0)), ino) == Inode(0, 0)
  {
    var img' := WithInode(img, ino, Inode(0, 0));
    InodeInRange(img, ino);
    assert RoleOk(img, at, ino, InodeBlockno(ino));
    forall j | 0 <= j < NInodes(img) ensures InodeOf(img', j) == if j == ino then Inode(0, 0) else InodeOf(img, j) {
      InodeUpdated(img, ino, Inode(0, 0), j);
    }
    ListKept(img, img', at, at, ino);
    forall c | 0 <= c < |img| ensures RoleOk(img', at, -1, c) {
      assert RoleOk(img, at, ino, c);
    }
    forall j | 0 <= j < NInodes(img) ensures RootOk(img', at, j) {
      if j != ino { assert RootOk(img, at, j); }
    }
    forall j | 0 <= j < NInodes(img) ensures Files(img')[j] == Files(img)[ino := []][j] {
      if j != ino {
        FileFrame(img, img', at, ino, j);
      }
    }
  }

  /** Freeing the tree of a file and clearing its inode truncates the file and leaks nothing. */
  lemma Truncated(img: Image, img': Image, at: Roles, at': Roles, ino: nat)
    requires Inv(img, at) && NoLimbo(at) && RootsSet(img) && ino < NInodes(img)
    requires TreeFreed(img, img', at, at', ino, Top(img, ino), 0)
    ensures InodeBlockno(ino) < |img| == |img'| && img'[InodeBlockno(ino)] == img[InodeBlockno(ino)]
    ensures Formatted(img') && NInodes(img') == NInodes(img)
    ensures var img'' := WithInode(img', ino, Inode(0, 0));
            Inv(img'', at') && NoLimbo(at') && RootsSet(img'') && Files(img'') == Files(img)[ino := []]
  {
    InodeInRange(img, ino);
    assert RoleOk(img, at, -1, InodeBlockno(ino));
    FileFreed(img, img', at, at', ino);
    ClearInode(img', at', ino);
    var img'' := WithInode(img', ino, Inode(0, 0));
    forall j | 0 <= j < NInodes(img) ensures Files(img'')[j] == Files(img)[ino := []][j] {
      if j != ino {
        assert Contents(img', j) == Contents(img, j);
      }
    }
  }
}
