/** The integrity checker of block/treedisk_chk.c, which works on any image at all. */
module TreeCheck {
  import opened Options
  import opened Blocks
  import opened TreeLayout
  import opened TreePlaces
  import opened TreeInvariant
  import opened TreeFree

  /** `binfo[b].status` */
  datatype Info = Unknown | SuperBlock | InodeBlocks | Indir | Data | FreeListBlock | FreeBlock

  /** Where the scan has found each block so far. */
  type Labels = seq<Option<Place>>

  /** A block has been marked exactly when the scan has found it, at a place that does reach it. */
  ghost predicate Marked(img: Image, binfo: seq<Info>, lab: Labels)
    requires Formatted(img)
  {
    && |binfo| == |lab| == |img|
    && forall b | 0 <= b < |img| ::
         && (binfo[b] != Unknown <==> lab[b].Some?)
         && (lab[b].Some? ==> Reached(img, lab[b].value, b))
  }

  /** The scan goes on: marks stay. */
  predicate Extends(lab: Labels, lab': Labels) {
    |lab| == |lab'| && forall b | 0 <= b < |lab| && lab[b].Some? :: lab'[b] == lab[b]
  }

  /** What the place reaches has been marked as being there. */
  ghost predicate Seen(img: Image, lab: Labels, p: Place)
    requires Formatted(img)
  {
    forall b: nat | Reached(img, p, b) :: b < |lab| && lab[b] == Some(p)
  }

  /** A tree place at or below node `q` of level `l`. */
  predicate Under(p: Place, ino: nat, l: nat, q: nat) {
    p.NodeAt? && p.ino == ino && AtOrBelow(p.level, p.prefix, l, q)
  }

  /** The child of `q` below which the place lies. */
  function Branch(p: Place, l: nat): (i: nat)
    requires p.NodeAt? && p.level < l
    ensures i < 256
  {
    Digit(p.prefix, l - 1 - p.level)
  }

  lemma UnderBranch(p: Place, ino: nat, l: nat, q: nat, i: nat)
    requires l > 0 && i < 256
    ensures p.NodeAt? && p.level < l ==>
      (Under(p, ino, l - 1, q * 256 + i) <==> Under(p, ino, l, q) && Branch(p, l) == i)
    ensures Under(p, ino, l - 1, q * 256 + i) ==> Under(p, ino, l, q)
    ensures Under(p, ino, l, q) && p.level == l ==> p == NodeAt(ino, l, q)
  {
  }

  // ---------------------------------------------------------------- why a scan may stop early

  /** Below a hole there is nothing. */
  lemma {:induction false} HoleBelow(img: Image, ino: nat, l: nat, q: nat, p: Place)
    requires Formatted(img) && ino < NInodes(img) && l <= Top(img, ino) && Under(p, ino, l, q)
    requires NodeBlock(img, ino, l, q) == 0
    ensures NodeBlock(img, ino, p.level, p.prefix) == 0
    decreases l - p.level
  {
    if p.level >= l {
    } else {
      PrefixUp(p.prefix, l - p.level);
      HoleBelow(img, ino, l, q, NodeAt(ino, p.level + 1, p.prefix / 256));
    }
  }

  lemma NothingUnderHole(img: Image, lab: Labels, ino: nat, l: nat, q: nat)
    requires Formatted(img) && ino < NInodes(img) && l <= Top(img, ino) && NodeBlock(img, ino, l, q) == 0
    ensures forall p | Under(p, ino, l, q) :: Seen(img, lab, p)
  {
    forall p | Under(p, ino, l, q) ensures Seen(img, lab, p) {
      HoleBelow(img, ino, l, q, p);
    }
  }

  /** A place within the file has its ancestors within the file. */
  lemma {:induction false} WithinUp(q: nat, l: nat, k: nat, n: nat)
    requires Within(q, l, n)
    ensures Within(Prefix(q, k), l + k, n)
    decreases k
  {
    if k == 0 {
    } else {
      WithinUp(q, l, k - 1, n);
      WithinMonotonic(Prefix(q, k - 1), l + k - 1, n, Prefix(q, k) * 256, n);
    }
  }

  lemma NothingUnderBeyond(img: Image, lab: Labels, ino: nat, l: nat, q: nat)
    requires Formatted(img) && ino < NInodes(img) && !Within(q, l, InodeOf(img, ino).nblocks)
    ensures forall p | Under(p, ino, l, q) :: Seen(img, lab, p)
  {
    forall p | Under(p, ino, l, q) ensures Seen(img, lab, p) {
      if Within(p.prefix, p.level, InodeOf(img, ino).nblocks) {
        WithinUp(p.prefix, p.level, l - p.level, InodeOf(img, ino).nblocks);
      }
    }
  }

  lemma {:induction false} WithinIs(q: nat, l: nat, n: nat)
    ensures Within(q, l, n) <==> q * Capacity(l) < n
    decreases l
  {
    if l == 0 {
    } else {
      WithinIs(q * 256, l - 1, n);
      assert q * 256 * Capacity(l - 1) == q * Capacity(l);
    }
  }

  /** The 32-bit offset of the next child, which only wraps around after the last one. */
  lemma NextOffset(q: nat, l: nat, i: nat, n: Word, offset: Word)
    requires l < 4 && i < 256 && offset == (q * 256 + i) * Capacity(l) && q * Capacity(l + 1) < n
    ensures i < 255 ==> (offset + Capacity(l)) % WORD_LIMIT == (q * 256 + i + 1) * Capacity(l)
    ensures i < 255 ==> offset + Capacity(l) < WORD_LIMIT
  {
    CapacityFour();
    assert (q * 256 + i + 1) * Capacity(l) == offset + Capacity(l);
    if i < 255 {
      if l == 0 {
        assert q * 256 + 255 < WORD_LIMIT;
      } else if l == 1 {
      } else if l == 2 {
      } else {
      }
    }
  }

  // ---------------------------------------------------------------- the scan of a tree

  /** New marks lie below node (`l`, `q`) of file `ino` only. */
  ghost predicate NewUnder(lab: Labels, lab': Labels, ino: nat, l: nat, q: nat) {
    && Extends(lab, lab')
    && forall b | 0 <= b < |lab| && lab[b].None? && lab'[b].Some? :: Under(lab'[b].value, ino, l, q)
  }

  ghost predicate AllSeen(img: Image, lab: Labels, ino: nat, l: nat, q: nat)
    requires Formatted(img)
  {
    forall p | Under(p, ino, l, q) :: Seen(img, lab, p)
  }

  ghost predicate NoneSeen(lab: Labels, ino: nat, l: nat, q: nat) {
    forall b | 0 <= b < |lab| && lab[b].Some? :: !Under(lab[b].value, ino, l, q)
  }

  /** What a call for the tree at (`l`, `q`) may rely on. */
  ghost predicate CallOk(img: Image, lab: Labels, nblocks: Word, ino: nat, l: nat, q: nat, node: nat, offset: nat) {
    && Formatted(img) && ino < NInodes(img) && l <= Top(img, ino) && nblocks == InodeOf(img, ino).nblocks
    && Within(q, l, nblocks) && offset == q * Capacity(l)
    && node == NodeBlock(img, ino, l, q) && NoneSeen(lab, ino, l, q)
  }

  /** Between the children: those before `i` have been seen, the others have not been touched. */
  ghost predicate ScanAt(img: Image, lab0: Labels, lab: Labels, ino: nat, l: nat, q: nat, i: nat)
    requires Formatted(img)
  {
    && l > 0 && NewUnder(lab0, lab, ino, l, q) && Seen(img, lab, NodeAt(ino, l, q))
    && (forall p | Under(p, ino, l, q) && p.level < l && Branch(p, l) < i :: Seen(img, lab, p))
    && (forall b | 0 <= b < |lab| && lab[b].Some? ::
          Under(lab[b].value, ino, l, q) ==> lab[b].value.level == l || Branch(lab[b].value, l) < i)
  }

  /** A block that is off the disk or marked already shows that the image is not sound. */
  lemma Clash(img: Image, binfo: seq<Info>, lab: Labels, p: Place, b: nat)
    requires Formatted(img) && Marked(img, binfo, lab) && Reached(img, p, b)
    requires b < |img| ==> binfo[b] != Unknown && lab[b] != Some(p)
    ensures !Sound(img)
  {
    if b < |img| {
      assert Reached(img, lab[b].value, b);
    }
  }

  /** Marking an unmarked block with the place that reaches it. */
  lemma Mark(img: Image, binfo: seq<Info>, lab: Labels, p: Place, b: nat, info: Info)
    requires Formatted(img) && Marked(img, binfo, lab) && Reached(img, p, b)
    requires b < |img| && binfo[b] == Unknown && info != Unknown
    requires forall b': nat | Reached(img, p, b') :: b' == b
    ensures Marked(img, binfo[b := info], lab[b := Some(p)])
    ensures Extends(lab, lab[b := Some(p)]) && Seen(img, lab[b := Some(p)], p)
  {
  }

  lemma ChildCall(img: Image, lab0: Labels, lab: Labels, nblocks: Word, ino: nat, l: nat, q: nat, node: nat, i: nat, offset: nat)
    requires l > 0 && i < 256 && CallOk(img, lab0, nblocks, ino, l, q, node, q * Capacity(l)) && 0 < node < |img|
    requires ScanAt(img, lab0, lab, ino, l, q, i)
    requires offset == (q * 256 + i) * Capacity(l - 1) < nblocks
    ensures CallOk(img, lab, nblocks, ino, l - 1, q * 256 + i, img[node][i], offset)
  {
    WithinIs(q * 256 + i, l - 1, nblocks);
    forall b | 0 <= b < |lab| && lab[b].Some? ensures !Under(lab[b].value, ino, l - 1, q * 256 + i) {
      UnderBranch(lab[b].value, ino, l, q, i);
    }
  }

  lemma ChildSeen(img: Image, lab0: Labels, lab: Labels, lab': Labels, ino: nat, l: nat, q: nat, i: nat)
    requires Formatted(img) && i < 256 && ScanAt(img, lab0, lab, ino, l, q, i)
    requires NewUnder(lab, lab', ino, l - 1, q * 256 + i) && AllSeen(img, lab', ino, l - 1, q * 256 + i)
    ensures ScanAt(img, lab0, lab', ino, l, q, i + 1)
  {
    forall p | Under(p, ino, l, q) && p.level < l && Branch(p, l) < i + 1 ensures Seen(img, lab', p) {
      UnderBranch(p, ino, l, q, i);
      if Branch(p, l) < i {
        assert Seen(img, lab, p);
      }
    }
    forall b | 0 <= b < |lab'| && lab'[b].Some? && Under(lab'[b].value, ino, l, q)
      ensures lab'[b].value.level == l || Branch(lab'[b].value, l) < i + 1
    {
      UnderBranch(lab'[b].value, ino, l, q, i);
    }
    forall b | 0 <= b < |lab0| && lab0[b].None? && lab'[b].Some? ensures Under(lab'[b].value, ino, l, q) {
      UnderBranch(lab'[b].value, ino, l, q, i);
    }
  }

  /** From the first child past the end of the file on, there is nothing more to see. */
  lemma RestSeen(img: Image, lab0: Labels, lab: Labels, ino: nat, l: nat, q: nat, i: nat)
    requires Formatted(img) && ino < NInodes(img) && i <= 256 && ScanAt(img, lab0, lab, ino, l, q, i)
    requires i < 256 ==> InodeOf(img, ino).nblocks <= (q * 256 + i) * Capacity(l - 1)
    ensures AllSeen(img, lab, ino, l, q)
  {
    forall p | Under(p, ino, l, q) ensures Seen(img, lab, p) {
      UnderBranch(p, ino, l, q, i % 256);
      if p.level < l && Branch(p, l) >= i {
        var j := Branch(p, l);
        UnderBranch(p, ino, l, q, j);
        var n := InodeOf(img, ino).nblocks;
        WithinIs(q * 256 + i, l - 1, n);
        if Within(q * 256 + j, l - 1, n) {
          WithinMonotonic(q * 256 + j, l - 1, n, q * 256 + i, n);
        } else {
          NothingUnderBeyond(img, lab, ino, l - 1, q * 256 + j);
        }
      }
    }
  }

  lemma TopIsSmall(img: Image, ino: nat)
    requires Formatted(img) && ino < NInodes(img)
    ensures Top(img, ino) <= 4
  {
    CapacityFour();
    var l := Top(img, ino);
    if l > 5 { CapacityGrows(4, l - 1); }
  }

  /** Scans the tree of one file from `node` down.  It succeeds exactly when it runs into no block that is
      off the disk or in use elsewhere. */
  method CheckInode(below: Store, nblocks: Word, node: Word, nlevels: nat, offset: Word, fsNblocks: Word, binfo: array<Info>,
                    ghost lab: Labels, ghost ino: nat, ghost q: nat)
    returns (ok: bool, ghost lab': Labels)
    requires |below.inodes| > 0 && |below.inodes[0]| == fsNblocks
    requires CallOk(below.inodes[0], lab, nblocks, ino, nlevels, q, node, offset)
    requires Marked(below.inodes[0], binfo[..], lab)
    modifies binfo
    ensures ok ==> Marked(below.inodes[0], binfo[..], lab') && NewUnder(lab, lab', ino, nlevels, q)
                   && AllSeen(below.inodes[0], lab', ino, nlevels, q)
    ensures !ok ==> !Sound(below.inodes[0])
    decreases nlevels
  {
    lab' := lab;
    ghost var img: Image := below.inodes[0];
    ghost var place := NodeAt(ino, nlevels, q);
    if node == 0 {
      NothingUnderHole(img, lab, ino, nlevels, q);
      return true, lab;
    }
    assert Under(place, ino, nlevels, q) && Reached(img, place, node);
    if node >= fsNblocks || binfo[node] != Unknown {
      Clash(img, binfo[..], lab, place, node);
      return false, lab;
    }
    Mark(img, binfo[..], lab, place, node, if nlevels == 0 then Data else Indir);
    lab' := lab[node := Some(place)];
    ghost var marks := binfo[..];
    if nlevels == 0 {
      binfo[node] := Data;
      assert binfo[..] == marks[node := Data];
      assert forall p | Under(p, ino, 0, q) :: p == place;
      return true, lab';
    }
    binfo[node] := Indir;
    assert binfo[..] == marks[node := Indir];
    ok, lab' := ScanChildren(below, nblocks, node, nlevels, offset, fsNblocks, binfo, lab, lab', ino, q);
  }

  /** Scans the children of an indirect block until the file ends. */
  method ScanChildren(below: Store, nblocks: Word, node: Word, nlevels: nat, start: Word, fsNblocks: Word, binfo: array<Info>,
                      ghost lab0: Labels, ghost lab: Labels, ghost ino: nat, ghost q: nat)
    returns (ok: bool, ghost lab': Labels)
    requires |below.inodes| > 0 && |below.inodes[0]| == fsNblocks && nlevels > 0 && 0 < node < fsNblocks
    requires CallOk(below.inodes[0], lab0, nblocks, ino, nlevels, q, node, start)
    requires Marked(below.inodes[0], binfo[..], lab) && ScanAt(below.inodes[0], lab0, lab, ino, nlevels, q, 0)
    modifies binfo
    ensures ok ==> Marked(below.inodes[0], binfo[..], lab') && NewUnder(lab0, lab', ino, nlevels, q)
                   && AllSeen(below.inodes[0], lab', ino, nlevels, q)
    ensures !ok ==> !Sound(below.inodes[0])
    decreases nlevels, 0
  {
    lab' := lab;
    ghost var img: Image := below.inodes[0];
    var r := below.Read(0, node);
    var ib: Block := r.value;
    var l := nlevels - 1;
    TopIsSmall(img, ino);
    CapacityFour();
    var size: Word := Capacity(l);
    var offset: Word := start;
    WithinIs(q, nlevels, nblocks);
    var i := 0;
    while i < 256
      invariant 0 <= i <= 256 && Marked(img, binfo[..], lab') && ScanAt(img, lab0, lab', ino, nlevels, q, i)
      invariant i < 256 ==> offset == (q * 256 + i) * Capacity(l) < nblocks
    {
      ChildCall(img, lab0, lab', nblocks, ino, nlevels, q, node, i, offset);
      ghost var lab1 := lab';
      ok, lab' := CheckInode(below, nblocks, ib[i], l, offset, fsNblocks, binfo, lab1, ino, q * 256 + i);
      if !ok {
        return;
      }
      ChildSeen(img, lab0, lab1, lab', ino, nlevels, q, i);
      NextOffset(q, l, i, nblocks, offset);
      offset := (offset + size) % WORD_LIMIT;
      i := i + 1;
      if offset >= nblocks {
        break;
      }
    }
    RestSeen(img, lab0, lab', ino, nlevels, q, i);
    ok := true;
  }

  // ---------------------------------------------------------------- the scan of the inodes

  /** All files below `k` have been scanned, and nothing else but the superblock and the inode blocks. */
  ghost predicate FilesSeen(img: Image, lab: Labels, k: nat)
    requires Formatted(img)
  {
    && Seen(img, lab, SuperAt) && (forall c :: Seen(img, lab, InodeAt(c)))
    && (forall ino: nat, l: nat, q: nat | ino < k :: Seen(img, lab, NodeAt(ino, l, q)))
    && (forall b | 0 <= b < |lab| && lab[b].Some? ::
          lab[b].value.SuperAt? || lab[b].value.InodeAt? || (lab[b].value.NodeAt? && lab[b].value.ino < k))
  }

  /** Every place of a file lies below its root, or holds nothing. */
  lemma FileSeen(img: Image, lab: Labels, ino: nat, l: nat, q: nat)
    requires Formatted(img) && ino < NInodes(img)
    requires InodeOf(img, ino).nblocks == 0 || AllSeen(img, lab, ino, Top(img, ino), 0)
    ensures Seen(img, lab, NodeAt(ino, l, q))
  {
    var n, top := InodeOf(img, ino).nblocks, Top(img, ino);
    WithinIs(q, l, n);
    if n != 0 && l <= top {
      var x := Prefix(q, top - l);
      assert Under(NodeAt(ino, l, q), ino, top, x);
      if x != 0 {
        NothingUnderHole(img, lab, ino, top, x);
      }
    }
  }

  lemma NextFile(img: Image, lab: Labels, lab': Labels, ino: nat)
    requires Formatted(img) && ino < NInodes(img) && FilesSeen(img, lab, ino)
    requires if InodeOf(img, ino).nblocks == 0 then lab' == lab
             else NewUnder(lab, lab', ino, Top(img, ino), 0) && AllSeen(img, lab', ino, Top(img, ino), 0)
    ensures FilesSeen(img, lab', ino + 1)
  {
    forall j: nat, l: nat, q: nat | j < ino + 1 ensures Seen(img, lab', NodeAt(j, l, q)) {
      if j == ino {
        FileSeen(img, lab', ino, l, q);
      } else {
        assert Seen(img, lab, NodeAt(j, l, q));
      }
    }
    assert Seen(img, lab, SuperAt);
    forall c ensures Seen(img, lab', InodeAt(c)) {
      assert Seen(img, lab, InodeAt(c));
    }
  }

  lemma FileCall(img: Image, lab: Labels, ino: nat)
    requires Formatted(img) && ino < NInodes(img) && FilesSeen(img, lab, ino) && InodeOf(img, ino).nblocks != 0
    ensures CallOk(img, lab, InodeOf(img, ino).nblocks, ino, Top(img, ino), 0, InodeOf(img, ino).root, 0)
  {
    WithinZero(Top(img, ino), InodeOf(img, ino).nblocks);
  }

  /** Scans all files. */
  method ScanInodes(below: Store, fsNblocks: Word, nInodeBlocks: Word, binfo: array<Info>, ghost lab: Labels)
    returns (ok: bool, ghost lab': Labels)
    requires |below.inodes| > 0 && |below.inodes[0]| == fsNblocks && Formatted(below.inodes[0])
    requires nInodeBlocks == NInodeBlocks(below.inodes[0])
    requires Marked(below.inodes[0], binfo[..], lab) && FilesSeen(below.inodes[0], lab, 0)
    modifies binfo
    ensures ok ==> Marked(below.inodes[0], binfo[..], lab') && FilesSeen(below.inodes[0], lab', NInodes(below.inodes[0]))
    ensures !ok ==> !Sound(below.inodes[0])
  {
    lab' := lab;
    ghost var img: Image := below.inodes[0];
    var b := 1;
    while b <= nInodeBlocks
      invariant 1 <= b <= nInodeBlocks + 1
      invariant Marked(img, binfo[..], lab') && FilesSeen(img, lab', (b - 1) * INODES_PER_BLOCK)
    {
      var r := below.Read(0, b);
      var tib: Block := r.value;
      var i := 0;
      while i < INODES_PER_BLOCK
        invariant 0 <= i <= INODES_PER_BLOCK
        invariant Marked(img, binfo[..], lab') && FilesSeen(img, lab', (b - 1) * INODES_PER_BLOCK + i)
      {
        ghost var ino := (b - 1) * INODES_PER_BLOCK + i;
        var ti := GetInode(tib, i);
        assert InodeOf(img, ino) == ti;
        ghost var lab1 := lab';
        if ti.nblocks != 0 {
          var nlevels := CountLevels(ti.nblocks - 1);
          FileCall(img, lab', ino);
          ok, lab' := CheckInode(below, ti.nblocks, ti.root, nlevels, 0, fsNblocks, binfo, lab', ino, 0);
          if !ok {
            return;
          }
        }
        NextFile(img, lab1, lab', ino);
        i := i + 1;
      }
      b := b + 1;
    }
    ok := true;
  }

  // ---------------------------------------------------------------- the scan of the free list

  function Unknowns(binfo: seq<Info>): set<int> {
    set b | 0 <= b < |binfo| && binfo[b] == Unknown
  }

  /** All files and the first `k` blocks of the free list with their slots have been scanned. */
  ghost predicate ListSeen(img: Image, lab: Labels, k: nat)
    requires Formatted(img)
  {
    && Seen(img, lab, SuperAt) && (forall c :: Seen(img, lab, InodeAt(c)))
    && (forall ino: nat, l: nat, q: nat :: Seen(img, lab, NodeAt(ino, l, q)))
    && (forall j: nat | j < k :: Seen(img, lab, ListAt(j)))
    && (forall j: nat, i: nat | j < k :: Seen(img, lab, SlotAt(j, i)))
  }

  ghost predicate ListUnseen(lab: Labels, k: nat) {
    forall b | 0 <= b < |lab| && lab[b].Some? ::
      && (lab[b].value.ListAt? ==> lab[b].value.k < k)
      && (lab[b].value.SlotAt? ==> lab[b].value.k < k)
  }

  /** List block `k` and its slots below `i` have been scanned too. */
  ghost predicate SlotsSeen(img: Image, lab: Labels, k: nat, i: nat)
    requires Formatted(img)
  {
    && ListSeen(img, lab, k) && Seen(img, lab, ListAt(k))
    && (forall j: nat | j < i :: Seen(img, lab, SlotAt(k, j)))
    && (forall b | 0 <= b < |lab| && lab[b].Some? ::
         && (lab[b].value.ListAt? ==> lab[b].value.k <= k)
         && (lab[b].value.SlotAt? ==> lab[b].value.k < k || (lab[b].value.k == k && lab[b].value.i < i)))
  }

  lemma FilesThenList(img: Image, lab: Labels)
    requires Formatted(img) && FilesSeen(img, lab, NInodes(img))
    ensures ListSeen(img, lab, 0) && ListUnseen(lab, 0)
  {
  }

  lemma SeenStays(img: Image, lab: Labels, lab': Labels, k: nat)
    requires Formatted(img) && Extends(lab, lab') && ListSeen(img, lab, k)
    ensures ListSeen(img, lab', k)
  {
    assert Seen(img, lab, SuperAt);
    forall c ensures Seen(img, lab', InodeAt(c)) { assert Seen(img, lab, InodeAt(c)); }
    forall ino: nat, l: nat, q: nat ensures Seen(img, lab', NodeAt(ino, l, q)) { assert Seen(img, lab, NodeAt(ino, l, q)); }
    forall j: nat | j < k ensures Seen(img, lab', ListAt(j)) { assert Seen(img, lab, ListAt(j)); }
    forall j: nat, i: nat | j < k ensures Seen(img, lab', SlotAt(j, i)) { assert Seen(img, lab, SlotAt(j, i)); }
  }

  /** Scans the slots of one block of the free list; slots that lead off the disk are passed over. */
  method ScanSlots(tfb: Block, fsNblocks: Word, binfo: array<Info>, ghost img: Image, ghost lab: Labels, ghost k: nat)
    returns (ok: bool, ghost lab': Labels)
    requires Formatted(img) && |img| == fsNblocks && Marked(img, binfo[..], lab)
    requires SlotsSeen(img, lab, k, 1) && 0 < ListBlockAt(img, k) < |img| && tfb == img[ListBlockAt(img, k)]
    modifies binfo
    ensures ok ==> Marked(img, binfo[..], lab') && SlotsSeen(img, lab', k, 256)
    ensures ok ==> Unknowns(binfo[..]) <= Unknowns(old(binfo[..]))
    ensures !ok ==> !Sound(img)
  {
    lab' := lab;
    var i := 1;
    while i < 256
      invariant 1 <= i <= 256 && Marked(img, binfo[..], lab') && SlotsSeen(img, lab', k, i)
      invariant Unknowns(binfo[..]) <= Unknowns(old(binfo[..]))
    {
      if tfb[i] != 0 && tfb[i] < fsNblocks {
        ghost var place := SlotAt(k, i);
        assert Reached(img, place, tfb[i]);
        if binfo[tfb[i]] != Unknown {
          Clash(img, binfo[..], lab', place, tfb[i]);
          return false, lab';
        }
        Mark(img, binfo[..], lab', place, tfb[i], FreeBlock);
        ghost var marks, lab1 := binfo[..], lab';
        binfo[tfb[i]] := FreeBlock;
        assert binfo[..] == marks[tfb[i] := FreeBlock];
        lab' := lab'[tfb[i] := Some(place)];
        NextSlotSeen(img, lab1, lab', k, i);
      } else {
        assert Seen(img, lab', SlotAt(k, i));
      }
      i := i + 1;
    }
    ok := true;
  }

  lemma NextSlotSeen(img: Image, lab: Labels, lab': Labels, k: nat, i: nat)
    requires Formatted(img) && SlotsSeen(img, lab, k, i) && Extends(lab, lab') && Seen(img, lab', SlotAt(k, i))
    requires forall b | 0 <= b < |lab| && lab'[b] != lab[b] :: lab'[b] == Some(SlotAt(k, i))
    ensures SlotsSeen(img, lab', k, i + 1)
  {
    SeenStays(img, lab, lab', k);
    assert Seen(img, lab, ListAt(k));
    forall j: nat | j < i + 1 ensures Seen(img, lab', SlotAt(k, j)) {
      if j < i { assert Seen(img, lab, SlotAt(k, j)); }
    }
  }

  lemma NextListSeen(img: Image, lab: Labels, k: nat)
    requires Formatted(img) && SlotsSeen(img, lab, k, 256)
    ensures ListSeen(img, lab, k + 1) && ListUnseen(lab, k + 1)
  {
    forall j: nat, i: nat | j < k + 1 ensures Seen(img, lab, SlotAt(j, i)) {
      if j == k && i >= 256 {
        assert forall b: nat :: !Reached(img, SlotAt(j, i), b);
      }
    }
  }

  lemma {:induction false} PastTheEnd(img: Image, k: nat, j: nat)
    requires |img| > 0 && ListBlockAt(img, k) == 0 && k <= j
    ensures ListBlockAt(img, j) == 0
  {
    if k >= j {
    } else {
      PastTheEnd(img, k, j - 1);
    }
  }

  /** When everything has been seen, no two places share a block. */
  lemma AllSeenIsSound(img: Image, binfo: seq<Info>, lab: Labels, k: nat)
    requires Formatted(img) && Marked(img, binfo, lab) && ListSeen(img, lab, k) && ListBlockAt(img, k) == 0
    ensures Sound(img)
    ensures forall b | 0 <= b < |img| :: Accounted(img, b) <==> binfo[b] != Unknown
  {
    forall p, b: nat | Reached(img, p, b) ensures b < |img| && lab[b] == Some(p) {
      match p {
        case SuperAt => assert Seen(img, lab, SuperAt);
        case InodeAt(c) => assert Seen(img, lab, InodeAt(c));
        case NodeAt(ino, l, q) => assert Seen(img, lab, NodeAt(ino, l, q));
        case ListAt(j) =>
          if k <= j { PastTheEnd(img, k, j); }
          assert Seen(img, lab, ListAt(j));
        case SlotAt(j, i) =>
          if k <= j { PastTheEnd(img, k, j); }
          assert Seen(img, lab, SlotAt(j, i));
      }
    }
    forall b | 0 <= b < |img| ensures Accounted(img, b) <==> binfo[b] != Unknown {
      if binfo[b] != Unknown {
        assert Reached(img, lab[b].value, b);
      }
    }
  }

  /** Scans the free list.  A list that runs into itself is found out, so that the scan always ends. */
  method ScanFreeList(below: Store, fsNblocks: Word, first: Word, binfo: array<Info>, ghost lab: Labels)
    returns (ok: bool)
    requires |below.inodes| > 0 && |below.inodes[0]| == fsNblocks && Formatted(below.inodes[0])
    requires first == FreeList(below.inodes[0]) && Marked(below.inodes[0], binfo[..], lab)
    requires FilesSeen(below.inodes[0], lab, NInodes(below.inodes[0]))
    modifies binfo
    ensures ok <==> Sound(below.inodes[0])
    ensures ok ==> forall b | 0 <= b < binfo.Length ::
      binfo.Length == fsNblocks && (Accounted(below.inodes[0], b) <==> binfo[b] != Unknown)
  {
    ghost var img: Image := below.inodes[0];
    ghost var lab', k := lab, 0;
    FilesThenList(img, lab);
    var fl: nat := first;
    while fl != 0
      invariant Marked(img, binfo[..], lab') && ListSeen(img, lab', k) && ListUnseen(lab', k)
      invariant fl == ListBlockAt(img, k)
      decreases Unknowns(binfo[..])
    {
      ghost var place := ListAt(k);
      assert Reached(img, place, fl);
      if fl >= fsNblocks || binfo[fl] != Unknown {
        Clash(img, binfo[..], lab', place, fl);
        return false;
      }
      Mark(img, binfo[..], lab', place, fl, FreeListBlock);
      ghost var marks, lab1 := binfo[..], lab';
      binfo[fl] := FreeListBlock;
      assert binfo[..] == marks[fl := FreeListBlock];
      assert fl in Unknowns(marks) && fl !in Unknowns(binfo[..]) && Unknowns(binfo[..]) <= Unknowns(marks);
      lab' := lab'[fl := Some(place)];
      SeenStays(img, lab1, lab', k);
      var r := below.Read(0, fl);
      var tfb: Block := r.value;
      assert Seen(img, lab', SlotAt(k, 0));
      ok, lab' := ScanSlots(tfb, fsNblocks, binfo, img, lab', k);
      if !ok {
        return;
      }
      NextListSeen(img, lab', k);
      fl := tfb[0];
      k := k + 1;
    }
    AllSeenIsSound(img, binfo[..], lab', k);
    ok := true;
  }

  // ---------------------------------------------------------------- the checker

  function StartLabels(n: nat, nib: nat): (lab: Labels)
    ensures |lab| == n
  {
    seq(n, c requires 0 <= c => if c == 0 then Some(SuperAt) else if c <= nib then Some(InodeAt(c)) else None)
  }

  /** The check of the header adds in 32 bits: it lets one count of inode blocks through that does not fit. */
  lemma HeaderCheck(nib: Word, n: Word)
    requires n > 0
    ensures (1 + nib) % WORD_LIMIT > n <==> 1 + nib > n && nib != WORD_LIMIT - 1
  {
  }

  /** Whether an image is worth scanning at all. */
  ghost predicate HeaderOk(img: Image) {
    Formatted(img) && FreeList(img) < |img|
  }

  /** Checks a file system.  The verdict is 1 exactly when no place leads off the disk and no block is reached
      from two places; `leak` tells whether some block is reached from none.  The scan ends on every image
      whose inode block count does not overflow the check of the header. */
  method Check(below: Store) returns (r: int, leak: bool)
    requires |below.inodes| > 0 && |below.inodes[0]| < WORD_LIMIT
    requires below.inodes[0] != [] ==> NInodeBlocks(below.inodes[0]) != WORD_LIMIT - 1
    ensures r == 1 || r == 0
    ensures r == 1 <==> HeaderOk(below.inodes[0]) && Sound(below.inodes[0])
    ensures r == 1 ==> (leak <==> exists b :: 0 <= b < |below.inodes[0]| && !Accounted(below.inodes[0], b))
  {
    hide Sound, Accounted;
    leak := false;
    var size := below.GetSize(0);
    var fsNblocks: Word := size;
    if fsNblocks == 0 {
      return 0, leak;
    }
    ghost var img: Image := below.inodes[0];
    var s := below.Read(0, 0);
    var superblock: Block := s.value;
    HeaderCheck(superblock[0], fsNblocks);
    if (1 + superblock[0]) % WORD_LIMIT > fsNblocks {
      return 0, leak;
    }
    if superblock[1] >= fsNblocks {
      return 0, leak;
    }
    var binfo := new Info[fsNblocks](_ => Unknown);
    binfo[0] := SuperBlock;
    var b := 1;
    while b <= superblock[0]
      invariant 1 <= b <= superblock[0] + 1
      invariant forall c | 0 <= c < fsNblocks ::
        binfo[c] == if c == 0 then SuperBlock else if c < b then InodeBlocks else Unknown
    {
      binfo[b] := InodeBlocks;
      b := b + 1;
    }
    ghost var lab := StartLabels(fsNblocks, superblock[0]);
    var ok;
    ok, lab := ScanInodes(below, fsNblocks, superblock[0], binfo, lab);
    if !ok {
      return 0, leak;
    }
    ok := ScanFreeList(below, fsNblocks, superblock[1], binfo, lab);
    if !ok {
      return 0, leak;
    }
    b := 0;
    while b < fsNblocks
      invariant 0 <= b <= fsNblocks
      invariant forall c | 0 <= c < b :: binfo[c] != Unknown
    {
      if binfo[b] == Unknown {
        leak := true;
        assert !Accounted(img, b);
        break;
      }
      b := b + 1;
    }
    r := 1;
  }

  /** The checker accepts every image that keeps the invariant of a tree disk, and finds no leak in one
      without limbo. */
  lemma AcceptsTreeDisks(img: Image, at: Roles)
    requires Inv(img, at)
    ensures HeaderOk(img) && Sound(img)
    ensures NoLimbo(at) ==> forall b | 0 <= b < |img| :: Accounted(img, b)
  {
    InvariantIsSound(img, at);
  }
}
