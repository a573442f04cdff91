/** The steps by which a treedisk file grows, and what each does to the files. */
module TreeSteps {
  import opened Blocks
  import opened TreeLayout
  import opened TreeInvariant

  /** The store with file `ino` extended to `n` blocks, the new ones null. */
  function Extended(v: Inodes, ino: nat, n: nat): (v': Inodes)
    requires ino < |v|
    ensures |v'| == |v|
    ensures forall j | 0 <= j < |v| && j != ino :: v'[j] == v[j]
    ensures |v'[ino]| == if n > |v[ino]| then n else |v[ino]|
    ensures forall k | 0 <= k < |v'[ino]| :: v'[ino][k] == if k < |v[ino]| then v[ino][k] else NullBlock()
  {
    var f: seq<Block> := v[ino] + seq(if n > |v[ino]| then n - |v[ino]| else 0, _ => NullBlock());
    v[ino := f]
  }

  lemma ExtendTwice(v: Inodes, ino: nat, n: nat, m: nat)
    requires ino < |v| && n <= m
    ensures Extended(Extended(v, ino, n), ino, m) == Extended(v, ino, m)
    ensures n <= |v[ino]| ==> Extended(v, ino, n) == v
  {
    Extensional(Extended(Extended(v, ino, n), ino, m), Extended(v, ino, m));
    if n <= |v[ino]| {
      Extensional(Extended(v, ino, n), v);
    }
  }

  /** The specification of a write: grow the file if need be, then replace one block. */
  function Written(v: Inodes, ino: nat, offset: nat, block: Block): Inodes
    requires ino < |v|
  {
    Put(Extended(v, ino, offset + 1), ino, offset, block)
  }

  lemma SameFilesView(img: Image, img': Image)
    requires Formatted(img) && Formatted(img') && SameFiles(img, img')
    ensures Files(img') == Files(img)
  {
    forall i | 0 <= i < NInodes(img) ensures Files(img')[i] == Files(img)[i] {
    }
  }

  // ---------------------------------------------------------------- linking a block into a hole

  function LinkImage(img: Image, p: nat, i: nat, b: nat): Image
    requires p < |img| && b < |img| < WORD_LIMIT && i < 256
  {
    img[p := img[p][i := b]][b := NullBlock()]
  }

  ghost predicate CanLink(img: Image, at: Roles, p: nat, i: nat, b: nat) {
    && Inv(img, at)
    && p < |img| && b < |img| && i < 256
    && at[p].Node? && at[p].level > 0 && img[p][i] == 0 && at[b].Limbo?
    && at[p].ino < NInodes(img)
    && Within(at[p].prefix * 256 + i, at[p].level - 1, InodeOf(img, at[p].ino).nblocks)
  }

  function LinkRole(at: Roles, p: nat, i: nat): Role
    requires p < |at| && at[p].Node? && at[p].level > 0
  {
    Node(at[p].ino, at[p].level - 1, at[p].prefix * 256 + i, p)
  }

  lemma {:induction false} LinkBlockAt(img: Image, at: Roles, p: nat, i: nat, b: nat, c: nat, l: nat, offset: nat)
    requires CanLink(img, at, p, i, b)
    requires c != 0 ==> c < |img| && at[c].Node? && at[c].ino == at[p].ino && at[c].level == l
    ensures BlockAt(LinkImage(img, p, i, b), c, l, offset) == BlockAt(img, c, l, offset)
    decreases l
  {
    if c == 0 || l == 0 {
    } else {
      var d := Digit(offset, l - 1);
      Child(img, at, -1, c, d);
      if c == p && d == i {
        assert l - 1 > 0 ==> LinkImage(img, p, i, b)[b][Digit(offset, l - 2)] == 0;
        assert BlockAt(LinkImage(img, p, i, b), b, l - 1, offset) == NullBlock();
      } else {
        LinkBlockAt(img, at, p, i, b, img[c][d], l - 1, offset);
      }
    }
  }

  lemma LinkRoleOk(img: Image, at: Roles, p: nat, i: nat, b: nat, c: nat)
    requires CanLink(img, at, p, i, b) && c < |img| && !IsFree(at[c])
    ensures RoleOk(LinkImage(img, p, i, b), at[b := LinkRole(at, p, i)], -1, c)
  {
    assert RoleOk(img, at, -1, c);
    if at[c].Node? || c == b {
      LinkUpOk(img, at, p, i, b, c);
      LinkDownOk(img, at, p, i, b, c);
    } else {
      assert RoleOk(img, at, -1, 0) && RoleOk(img, at, -1, p);
    }
  }

  lemma LinkUpOk(img: Image, at: Roles, p: nat, i: nat, b: nat, c: nat)
    requires CanLink(img, at, p, i, b) && c < |img| && (at[c].Node? || c == b)
    ensures Formatted(LinkImage(img, p, i, b))
    ensures UpOk(LinkImage(img, p, i, b), at[b := LinkRole(at, p, i)], c)
  {
    assert RoleOk(img, at, -1, 0) && RoleOk(img, at, -1, b);
    NodeUp(img, at, -1, p);
    InodesSame(img, LinkImage(img, p, i, b), at, -1);
    if at[c].Node? {
      NodeUp(img, at, -1, c);
    }
  }

  lemma LinkDownOk(img: Image, at: Roles, p: nat, i: nat, b: nat, c: nat)
    requires CanLink(img, at, p, i, b) && c < |img| && (at[c].Node? || c == b)
    ensures DownOk(LinkImage(img, p, i, b), at[b := LinkRole(at, p, i)], c)
  {
    var img', at' := LinkImage(img, p, i, b), at[b := LinkRole(at, p, i)];
    if at[c].Node? && at[c].level > 0 {
      forall d | 0 <= d < 256 && img'[c][d] != 0
        ensures img'[c][d] < |img| && at'[img'[c][d]] == Node(at[c].ino, at[c].level - 1, at[c].prefix * 256 + d, c)
      {
        Child(img, at, -1, c, d);
      }
    }
  }

  lemma LinkContents(img: Image, at: Roles, p: nat, i: nat, b: nat, j: nat)
    requires CanLink(img, at, p, i, b) && j < NInodes(img)
    requires Formatted(LinkImage(img, p, i, b)) && NInodes(LinkImage(img, p, i, b)) == NInodes(img)
    requires InodeOf(LinkImage(img, p, i, b), j) == InodeOf(img, j)
    ensures Contents(LinkImage(img, p, i, b), j) == Contents(img, j)
  {
    var img', inode := LinkImage(img, p, i, b), InodeOf(img, j);
    if j == at[p].ino {
      assert RootOk(img, at, j);
      forall k | 0 <= k < inode.nblocks ensures Contents(img', j)[k] == Contents(img, j)[k] {
        LinkBlockAt(img, at, p, i, b, inode.root, Levels(inode.nblocks), k);
      }
    } else {
      FileFrame(img, img', at, -1, j);
    }
  }

  /** Linking a null block into a hole keeps the invariant and changes no file. */
  lemma Link(img: Image, at: Roles, p: nat, i: nat, b: nat)
    requires CanLink(img, at, p, i, b)
    ensures Inv(LinkImage(img, p, i, b), at[b := LinkRole(at, p, i)])
    ensures Files(LinkImage(img, p, i, b)) == Files(img)
  {
    var img', at' := LinkImage(img, p, i, b), at[b := LinkRole(at, p, i)];
    assert RoleOk(img, at, -1, 0);
    InodesSame(img, img', at, -1);
    ListKept(img, img', at, at', -1);
    forall c | 0 <= c < |img| && !IsFree(at[c]) ensures RoleOk(img', at', -1, c) {
      LinkRoleOk(img, at, p, i, b, c);
    }
    forall j | 0 <= j < NInodes(img) ensures RootOk(img', at', j) && Contents(img', j) == Contents(img, j) {
      assert RootOk(img, at, j);
      LinkContents(img, at, p, i, b, j);
    }
    SameFilesView(img, img');
  }

  // ---------------------------------------------------------------- changing an inode

  /** Writing an inode block leaves every other file alone. */
  lemma InodeFrame(img: Image, img': Image, at: Roles, ino: nat, inode: Inode)
    requires Inv(img, at) && ino < NInodes(img)
    requires |img'| == |img| && img'[0] == img[0]
    requires forall b | 0 <= b < |img| && (at[b].Node? || at[b].InodeBlock?) :: img'[b] == WithInode(img, ino, inode)[b]
    ensures Formatted(img') && NInodes(img') == NInodes(img) && InodeOf(img', ino) == inode
    ensures forall j | 0 <= j < NInodes(img) && j != ino ::
      InodeOf(img', j) == InodeOf(img, j) && Contents(img', j) == Contents(img, j)
    ensures forall b | 0 <= b < |img| && at[b].Node? :: img'[b] == img[b]
  {
    InodeInRange(img, ino);
    assert RoleOk(img, at, -1, InodeBlockno(ino));
    forall j | 0 <= j < NInodes(img) ensures InodeOf(img', j) == if j == ino then inode else InodeOf(img, j) {
      InodeInRange(img, j);
      assert RoleOk(img, at, -1, InodeBlockno(j));
      InodeUpdated(img, ino, inode, j);
    }
    forall j | 0 <= j < NInodes(img) && j != ino ensures Contents(img', j) == Contents(img, j) {
      FileFrame(img, img', at, -1, j);
    }
  }

  /** Past the end of the file the tree holds nothing. */
  lemma {:induction false} BeyondIsNull(img: Image, at: Roles, b: nat, l: nat, offset: nat, ino: nat)
    requires Inv(img, at) && ino < NInodes(img) && InodeOf(img, ino).nblocks <= offset
    requires b != 0 ==> b < |img| && at[b].Node? && at[b].ino == ino && at[b].level == l
                        && at[b].prefix == Prefix(offset, l)
    ensures BlockAt(img, b, l, offset) == NullBlock()
    decreases l
  {
    if b == 0 {
    } else {
      NodeUp(img, at, -1, b);
      if l > 0 {
        Child(img, at, -1, b, Digit(offset, l - 1));
        BeyondIsNull(img, at, img[b][Digit(offset, l - 1)], l - 1, offset, ino);
      }
    }
  }

  function LongerImage(img: Image, ino: nat, n: Word): Image
    requires Formatted(img) && ino < NInodes(img)
  {
    WithInode(img, ino, InodeOf(img, ino).(nblocks := n))
  }

  ghost predicate CanLengthen(img: Image, at: Roles, ino: nat, n: Word) {
    && Inv(img, at) && ino < NInodes(img)
    && InodeOf(img, ino).nblocks <= n && Levels(n) == Levels(InodeOf(img, ino).nblocks)
  }

  lemma GrowSizeFrame(img: Image, at: Roles, ino: nat, n: Word)
    requires CanLengthen(img, at, ino, n)
    ensures LongerImage(img, ino, n)[0] == img[0]
    ensures forall c | 0 <= c < |img| && !at[c].InodeBlock? :: LongerImage(img, ino, n)[c] == img[c]
    ensures forall j | 0 <= j < NInodes(img) && j != ino ::
      InodeOf(LongerImage(img, ino, n), j) == InodeOf(img, j) && Contents(LongerImage(img, ino, n), j) == Contents(img, j)
    ensures InodeOf(LongerImage(img, ino, n), ino) == InodeOf(img, ino).(nblocks := n)
  {
    InodeInRange(img, ino);
    assert RoleOk(img, at, -1, InodeBlockno(ino));
    InodeFrame(img, LongerImage(img, ino, n), at, ino, InodeOf(img, ino).(nblocks := n));
  }

  /** A file whose inode gets a new size of as many levels grows by null blocks. */
  lemma GrowSize(img: Image, at: Roles, ino: nat, n: Word)
    requires CanLengthen(img, at, ino, n)
    ensures Inv(LongerImage(img, ino, n), at)
    ensures Files(LongerImage(img, ino, n)) == Extended(Files(img), ino, n)
  {
    var inode, img' := InodeOf(img, ino), LongerImage(img, ino, n);
    GrowSizeFrame(img, at, ino, n);
    ListKept(img, img', at, at, -1);
    forall c | 0 <= c < |img| && !IsFree(at[c]) ensures RoleOk(img', at, -1, c) {
      assert RoleOk(img, at, -1, c);
      if at[c].Node? && at[c].ino == ino {
        WithinMonotonic(at[c].prefix, at[c].level, inode.nblocks, at[c].prefix, n);
      }
    }
    forall j | 0 <= j < NInodes(img) ensures RootOk(img', at, j) {
      assert RootOk(img, at, j);
    }
    forall k | 0 <= k < n ensures Files(img')[ino][k] == Extended(Files(img), ino, n)[ino][k] {
      GrowSizeBlockAt(img, at, ino, n, k);
    }
    Extensional(Files(img'), Extended(Files(img), ino, n));
  }

  lemma GrowSizeBlockAt(img: Image, at: Roles, ino: nat, n: Word, k: nat)
    requires CanLengthen(img, at, ino, n) && k < n
    ensures BlockAt(LongerImage(img, ino, n), InodeOf(img, ino).root, Levels(n), k)
         == if k < InodeOf(img, ino).nblocks then Files(img)[ino][k] else NullBlock()
  {
    var inode := InodeOf(img, ino);
    GrowSizeFrame(img, at, ino, n);
    assert RootOk(img, at, ino);
    BlockAtFrame(img, LongerImage(img, ino, n), at, -1, inode.root, Levels(n), k, ino);
    if inode.nblocks <= k {
      PrefixZero(k, Levels(n));
      BeyondIsNull(img, at, inode.root, Levels(n), k, ino);
    }
  }

  function RootImage(img: Image, ino: nat, b: nat): Image
    requires Formatted(img) && ino < NInodes(img) && b < |img| && b != 0
  {
    WithInode(img[b := NullBlock()], ino, InodeOf(img, ino).(root := b))
  }

  ghost predicate CanLinkRoot(img: Image, at: Roles, ino: nat, b: nat) {
    && Inv(img, at) && ino < NInodes(img) && 0 < b < |img| && at[b].Limbo?
    && InodeOf(img, ino).root == 0 && InodeOf(img, ino).nblocks > 0
  }

  lemma LinkRootFrame(img: Image, at: Roles, ino: nat, b: nat)
    requires CanLinkRoot(img, at, ino, b)
    ensures Formatted(RootImage(img, ino, b)) && RootImage(img, ino, b)[0] == img[0]
    ensures RootImage(img, ino, b)[b] == NullBlock()
    ensures forall c | 0 <= c < |img| && at[c] != Limbo && at[c] != InodeBlock :: RootImage(img, ino, b)[c] == img[c]
    ensures forall j | 0 <= j < NInodes(img) && j != ino ::
      InodeOf(RootImage(img, ino, b), j) == InodeOf(img, j) && Contents(RootImage(img, ino, b), j) == Contents(img, j)
    ensures InodeOf(RootImage(img, ino, b), ino) == InodeOf(img, ino).(root := b)
  {
    InodeInRange(img, ino);
    assert RoleOk(img, at, -1, 0) && RoleOk(img, at, -1, b) && RoleOk(img, at, -1, InodeBlockno(ino));
    InodeFrame(img, RootImage(img, ino, b), at, ino, InodeOf(img, ino).(root := b));
  }

  lemma LinkRootRoleOk(img: Image, at: Roles, ino: nat, b: nat, c: nat)
    requires CanLinkRoot(img, at, ino, b) && c < |img| && !IsFree(at[c])
    ensures RoleOk(RootImage(img, ino, b), at[b := Node(ino, Top(img, ino), 0, 0)], -1, c)
  {
    hide Files;
    LinkRootFrame(img, at, ino, b);
    assert RoleOk(img, at, -1, b) && RoleOk(img, at, -1, c);
    WithinZero(Top(img, ino), InodeOf(img, ino).nblocks);
  }

  /** Giving a file its first root. */
  lemma LinkRoot(img: Image, at: Roles, ino: nat, b: nat)
    requires CanLinkRoot(img, at, ino, b)
    ensures Inv(RootImage(img, ino, b), at[b := Node(ino, Top(img, ino), 0, 0)])
    ensures Files(RootImage(img, ino, b)) == Files(img)
  {
    var img', at' := RootImage(img, ino, b), at[b := Node(ino, Top(img, ino), 0, 0)];
    LinkRootFrame(img, at, ino, b);
    ListKept(img, img', at, at', -1);
    forall c | 0 <= c < |img| && !IsFree(at[c]) ensures RoleOk(img', at', -1, c) {
      LinkRootRoleOk(img, at, ino, b, c);
    }
    forall j | 0 <= j < NInodes(img) ensures RootOk(img', at', j) {
      assert RootOk(img, at, j);
    }
    NullRoot(img', b, InodeOf(img, ino).nblocks);
    Extensional(Files(img'), Files(img));
  }

  /** A null block as root holds only null blocks. */
  lemma NullRoot(img: Image, b: nat, n: nat)
    requires b < |img| && img[b] == NullBlock()
    ensures forall k | 0 <= k < n :: BlockAt(img, b, Levels(n), k) == NullBlock()
  {
    forall k | 0 <= k < n ensures BlockAt(img, b, Levels(n), k) == NullBlock() {
      if Levels(n) > 0 {
        assert img[b][Digit(k, Levels(n) - 1)] == 0;
      }
    }
  }

  function TallerImage(img: Image, ino: nat, b: nat, n: Word): Image
    requires Formatted(img) && ino < NInodes(img) && b < |img| && b != 0
  {
    WithInode(img[b := NullBlock()[0 := InodeOf(img, ino).root]], ino, Inode(b, n))
  }

  function TallerRoles(img: Image, at: Roles, ino: nat, b: nat): Roles
    requires Formatted(img) && ino < NInodes(img) && b < |img| == |at| && InodeOf(img, ino).root < |at|
  {
    var inode := InodeOf(img, ino);
    var at' := at[b := Node(ino, Levels(inode.nblocks) + 1, 0, 0)];
    if inode.root == 0 then at' else at'[inode.root := Node(ino, Levels(inode.nblocks), 0, b)]
  }

  ghost predicate CanGrow(img: Image, at: Roles, ino: nat, b: nat, n: Word) {
    && Inv(img, at) && ino < NInodes(img) && 0 < b < |img| && at[b].Limbo?
    && Capacity(Top(img, ino)) < n <= Capacity(Top(img, ino) + 1)
  }

  lemma GrowFrame(img: Image, at: Roles, ino: nat, b: nat, n: Word)
    requires CanGrow(img, at, ino, b, n)
    ensures Formatted(TallerImage(img, ino, b, n)) && TallerImage(img, ino, b, n)[0] == img[0]
    ensures TallerImage(img, ino, b, n)[b] == NullBlock()[0 := InodeOf(img, ino).root]
    ensures forall c | 0 <= c < |img| && at[c] != Limbo && at[c] != InodeBlock :: TallerImage(img, ino, b, n)[c] == img[c]
    ensures forall j | 0 <= j < NInodes(img) && j != ino ::
      InodeOf(TallerImage(img, ino, b, n), j) == InodeOf(img, j) && Contents(TallerImage(img, ino, b, n), j) == Contents(img, j)
    ensures InodeOf(TallerImage(img, ino, b, n), ino) == Inode(b, n) && Levels(n) == Top(img, ino) + 1
    ensures InodeOf(img, ino).root < |at| && InodeOf(img, ino).root != b
    ensures InodeOf(img, ino).root != 0 ==> at[InodeOf(img, ino).root] == Node(ino, Top(img, ino), 0, 0)
    ensures !(1 <= b <= NInodeBlocks(img))
  {
    InodeInRange(img, ino);
    assert RootOk(img, at, ino);
    assert RoleOk(img, at, -1, 0) && RoleOk(img, at, -1, b) && RoleOk(img, at, -1, InodeBlockno(ino));
    InodeFrame(img, TallerImage(img, ino, b, n), at, ino, Inode(b, n));
    LevelsIs(n, Top(img, ino) + 1);
  }

  lemma GrowRoleOk(img: Image, at: Roles, ino: nat, b: nat, n: Word, c: nat)
    requires CanGrow(img, at, ino, b, n) && c < |img| && !IsFree(at[c]) && InodeOf(img, ino).root < |at|
    ensures RoleOk(TallerImage(img, ino, b, n), TallerRoles(img, at, ino, b), -1, c)
  {
    GrowFrame(img, at, ino, b, n);
    assert RoleOk(img, at, -1, c);
    if at[c].Node? {
      GrowUpOk(img, at, ino, b, n, c);
      GrowDownOk(img, at, ino, b, n, c);
    } else if c == b {
      WithinZero(Top(img, ino) + 1, n);
      assert UpOk(TallerImage(img, ino, b, n), TallerRoles(img, at, ino, b), b);
      assert DownOk(TallerImage(img, ino, b, n), TallerRoles(img, at, ino, b), b);
    }
  }

  lemma GrowUpOk(img: Image, at: Roles, ino: nat, b: nat, n: Word, c: nat)
    requires CanGrow(img, at, ino, b, n) && c < |img| && at[c].Node? && InodeOf(img, ino).root < |at|
    requires Formatted(TallerImage(img, ino, b, n))
    ensures UpOk(TallerImage(img, ino, b, n), TallerRoles(img, at, ino, b), c)
  {
    hide Capacity, Prefix, Formatted;
    GrowFrame(img, at, ino, b, n);
    NodeUp(img, at, -1, c);
    if at[c].ino == ino {
      WithinMonotonic(at[c].prefix, at[c].level, InodeOf(img, ino).nblocks, at[c].prefix, n);
    }
  }

  lemma GrowDownOk(img: Image, at: Roles, ino: nat, b: nat, n: Word, c: nat)
    requires CanGrow(img, at, ino, b, n) && c < |img| && at[c].Node? && InodeOf(img, ino).root < |at|
    requires Formatted(TallerImage(img, ino, b, n)) && TallerRoles(img, at, ino, b)[c].Node?
    ensures DownOk(TallerImage(img, ino, b, n), TallerRoles(img, at, ino, b), c)
  {
    hide Top, Files, FreeCount, Levels, Capacity, Within, Prefix, NoLimbo, Formatted, SetInode, GetInode;
    GrowFrame(img, at, ino, b, n);
    var img', at' := TallerImage(img, ino, b, n), TallerRoles(img, at, ino, b);
    NodeUp(img, at, -1, c);
    assert img'[c] == img[c];
    if at[c].level > 0 {
      forall i | 0 <= i < 256 && img[c][i] != 0
        ensures img[c][i] < |img| && at'[img[c][i]] == Node(at[c].ino, at[c].level - 1, at[c].prefix * 256 + i, c)
      {
        Child(img, at, -1, c, i);
        NodeUp(img, at, -1, img[c][i]);
      }
    }
  }

  /** Putting an indirect block above the root adds a level and keeps what the file holds. */
  lemma GrowLevel(img: Image, at: Roles, ino: nat, b: nat, n: Word)
    requires CanGrow(img, at, ino, b, n)
    ensures InodeOf(img, ino).root < |at|
    ensures Inv(TallerImage(img, ino, b, n), TallerRoles(img, at, ino, b))
    ensures Files(TallerImage(img, ino, b, n)) == Extended(Files(img), ino, n)
  {
    GrowFrame(img, at, ino, b, n);
    var img', at' := TallerImage(img, ino, b, n), TallerRoles(img, at, ino, b);
    ListKept(img, img', at, at', -1);
    forall c | 0 <= c < |img| && !IsFree(at[c]) ensures RoleOk(img', at', -1, c) {
      GrowRoleOk(img, at, ino, b, n, c);
    }
    forall j | 0 <= j < NInodes(img) ensures RootOk(img', at', j) {
      assert RootOk(img, at, j);
    }
    GrowFiles(img, at, ino, b, n);
  }

  lemma GrowFiles(img: Image, at: Roles, ino: nat, b: nat, n: Word)
    requires CanGrow(img, at, ino, b, n) && Formatted(TallerImage(img, ino, b, n))
    ensures Files(TallerImage(img, ino, b, n)) == Extended(Files(img), ino, n)
  {
    GrowFrame(img, at, ino, b, n);
    var f, f' := Extended(Files(img), ino, n), Files(TallerImage(img, ino, b, n));
    forall k | 0 <= k < n ensures f'[ino][k] == f[ino][k] {
      GrowBlockAt(img, at, ino, b, n, k);
    }
    Extensional(f', f);
  }

  lemma GrowBlockAt(img: Image, at: Roles, ino: nat, b: nat, n: Word, k: nat)
    requires CanGrow(img, at, ino, b, n) && k < n
    ensures BlockAt(TallerImage(img, ino, b, n), b, Top(img, ino) + 1, k)
         == if k < InodeOf(img, ino).nblocks then Files(img)[ino][k] else NullBlock()
  {
    var inode, l := InodeOf(img, ino), Top(img, ino);
    var img' := TallerImage(img, ino, b, n);
    GrowFrame(img, at, ino, b, n);
    assert RootOk(img, at, ino);
    PrefixLess(k, l, 1);
    PrefixZero(k, l + 1);
    if k < Capacity(l) {
      assert Digit(k, l) == 0;
      BlockAtFrame(img, img', at, -1, inode.root, l, k, ino);
      if inode.nblocks <= k {
        BeyondIsNull(img, at, inode.root, l, k, ino);
      }
    }
  }

  // ---------------------------------------------------------------- data

  lemma {:induction false} DataBlockAt(img: Image, at: Roles, b: nat, block: Block, c: nat, l: nat, offset: nat)
    requires Inv(img, at) && b < |img| && at[b].Node? && at[b].level == 0
    requires c != 0 ==> c < |img| && at[c].Node? && at[c].ino == at[b].ino && at[c].level == l
                        && at[c].prefix == Prefix(offset, l)
    requires offset != at[b].prefix
    ensures BlockAt(img[b := block], c, l, offset) == BlockAt(img, c, l, offset)
    decreases l
  {
    if c == 0 {
    } else {
      if l > 0 {
        Child(img, at, -1, c, Digit(offset, l - 1));
        DataBlockAt(img, at, b, block, img[c][Digit(offset, l - 1)], l - 1, offset);
      }
    }
  }

  /** Walking down from the root finds the node that covers an offset. */
  lemma {:induction false} WalkReaches(img: Image, at: Roles, b: nat, offset: nat)
    requires Inv(img, at) && 0 < b < |img| && at[b].Node? && at[b].prefix == Prefix(offset, at[b].level)
    ensures at[b].ino < NInodes(img) && at[b].level <= Top(img, at[b].ino)
    ensures BlockAt(img, InodeOf(img, at[b].ino).root, Top(img, at[b].ino), offset) == BlockAt(img, b, at[b].level, offset)
    decreases if at[b].ino < NInodes(img) then Top(img, at[b].ino) - at[b].level else 0
  {
    NodeUp(img, at, -1, b);
    if at[b].level >= Top(img, at[b].ino) {
    } else {
      WalkReaches(img, at, at[b].parent, offset);
    }
  }

  lemma DataInv(img: Image, at: Roles, b: nat, block: Block)
    requires Inv(img, at) && b < |img| && at[b].Node? && at[b].level == 0
    ensures Inv(img[b := block], at)
    ensures NInodes(img[b := block]) == NInodes(img)
    ensures forall j | 0 <= j < NInodes(img) :: InodeOf(img[b := block], j) == InodeOf(img, j)
  {
    assert RoleOk(img, at, -1, 0);
    var img' := img[b := block];
    InodesSame(img, img', at, -1);
    ListKept(img, img', at, at, -1);
    forall c | 0 <= c < |img| && !IsFree(at[c]) ensures RoleOk(img', at, -1, c) {
      assert RoleOk(img, at, -1, c);
    }
    forall j | 0 <= j < NInodes(img) ensures RootOk(img', at, j) {
      assert RootOk(img, at, j);
    }
  }

  /** Overwriting the data block of an offset changes that block of the file and nothing else. */
  lemma WriteData(img: Image, at: Roles, b: nat, block: Block)
    requires Inv(img, at) && b < |img| && at[b].Node? && at[b].level == 0
    ensures Inv(img[b := block], at)
    ensures at[b].ino < NInodes(img) && at[b].prefix < |Files(img)[at[b].ino]|
    ensures Files(img[b := block]) == Put(Files(img), at[b].ino, at[b].prefix, block)
  {
    DataInv(img, at, b, block);
    NodeUp(img, at, -1, b);
    var img', ino := img[b := block], at[b].ino;
    var inode := InodeOf(img, ino);
    assert RootOk(img, at, ino);
    forall j, k | 0 <= j < NInodes(img) && 0 <= k < |Files(img)[j]|
      ensures Files(img')[j][k] == if j == ino && k == at[b].prefix then block else Files(img)[j][k]
    {
      if j != ino {
        FileFrame(img, img', at, -1, j);
      } else if k == at[b].prefix {
        WalkReaches(img', at, b, k);
      } else {
        PrefixZero(k, Levels(inode.nblocks));
        DataBlockAt(img, at, b, block, inode.root, Levels(inode.nblocks), k);
      }
    }
    Extensional(Files(img'), Put(Files(img), ino, at[b].prefix, block));
  }

  // ---------------------------------------------------------------- reading

  /** Block `b`, unless it is a hole, is a node of level `l` of file `ino`. */
  ghost predicate OnPath(img: Image, at: Roles, ino: nat, b: nat, l: nat)
    requires |at| == |img|
  {
    b != 0 ==> b < |img| && at[b].Node? && at[b].ino == ino && at[b].level == l
  }

  lemma PathStart(img: Image, at: Roles, ino: nat, offset: nat)
    requires Inv(img, at) && ino < NInodes(img) && offset < InodeOf(img, ino).nblocks
    ensures OnPath(img, at, ino, InodeOf(img, ino).root, Top(img, ino))
    ensures Files(img)[ino][offset] == BlockAt(img, InodeOf(img, ino).root, Top(img, ino), offset)
  {
    assert RootOk(img, at, ino);
  }

  /** The entry that the shifted offset selects is the next node on the path. */
  lemma PathStep(img: Image, at: Roles, ino: nat, b: nat, l: nat, offset: Word)
    requires Inv(img, at) && 0 < b && OnPath(img, at, ino, b, l + 1)
    ensures LogShiftR(offset, l * 8) % 256 == Digit(offset, l)
    ensures OnPath(img, at, ino, img[b][Digit(offset, l)], l)
    ensures BlockAt(img, b, l + 1, offset) == BlockAt(img, img[b][Digit(offset, l)], l, offset)
  {
    ShiftIsPrefix(offset, l);
    Child(img, at, -1, b, Digit(offset, l));
  }
}
