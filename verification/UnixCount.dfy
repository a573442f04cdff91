/** No data block of a unix disk is lost or counted twice: the free list and the files take up all of them. */
module UnixCount {
  import opened Blocks
  import opened UnixLayout
  import opened UnixLists
  import opened UnixFiles
  import opened UnixInvariant
  import opened UnixEffects

  function Elements(s: seq<nat>): set<nat> {
    set x | x in s
  }

  lemma {:induction false} DistinctCount(s: seq<nat>)
    requires Distinct(s)
    ensures |Elements(s)| == |s|
  {
    if s == [] {
    } else {
      var n := |s| - 1;
      DistinctCount(s[..n]);
      assert Elements(s) == Elements(s[..n]) + {s[n]};
      assert s[n] !in s[..n];
    }
  }

  function Range(n: nat): (r: seq<nat>)
    ensures |r| == n && forall i | 0 <= i < n :: r[i] == i
  {
    seq(n, i => i)
  }

  // ---------------------------------------------------------------- the blocks of one file

  /** All blocks of a file, and the place of each. */
  function BlocksOf(f: File): seq<nat> {
    f.data + f.single + f.double + f.seconds
  }

  function PlaceIn(f: File, g: nat, k: nat): Place {
    var s := |f.data|;
    if k < s then Data(g, k)
    else if k < s + |f.single| then Single(g)
    else if k < s + |f.single| + |f.double| then Double(g)
    else Second(g, k - s - |f.single| - |f.double|)
  }

  predicate Plain(f: File) {
    f.from == 0 && f.secFrom == 0 && |f.single| <= 1 && |f.double| <= 1
  }

  lemma PlacesOf(d: Disk, g: nat, k: nat)
    requires g < |d.files| && Plain(d.files[g]) && k < Used(d.files[g])
    ensures Has(d, PlaceIn(d.files[g], g, k)) && BlockAt(d, PlaceIn(d.files[g], g, k)) == BlocksOf(d.files[g])[k]
  {
  }

  function OwnedBy(d: Disk, g: nat): set<nat> {
    set b: nat | b < |d.at| && Of(d.at[b], g)
  }

  lemma InBlocksOf(d: Disk, g: nat, b: nat)
    requires Partition(d) && g < |d.files| && Plain(d.files[g]) && b < |d.at| && Of(d.at[b], g)
    ensures b in BlocksOf(d.files[g])
  {
    var f, p := d.files[g], d.at[b];
    assert Has(d, p) && BlockAt(d, p) == b;
    var s := |f.data|;
    var k := match p case Data(_, o) => o case Single(_) => s case Double(_) => s + |f.single|
                     case Second(_, j) => s + |f.single| + |f.double| + j case _ => 0;
    assert BlocksOf(f)[k] == b;
  }

  /** A file owns as many blocks as it uses. */
  lemma OwnedCount(d: Disk, g: nat)
    requires Partition(d) && g < |d.files| && Plain(d.files[g])
    ensures |OwnedBy(d, g)| == Used(d.files[g])
  {
    var f, s := d.files[g], BlocksOf(d.files[g]);
    forall k | 0 <= k < |s| ensures s[k] < |d.at| && d.at[s[k]] == PlaceIn(f, g, k) {
      PlacesOf(d, g, k);
    }
    forall k, k' | 0 <= k < k' < |s| ensures s[k] != s[k'] {
      assert PlaceIn(f, g, k) != PlaceIn(f, g, k');
    }
    DistinctCount(s);
    forall b | b in OwnedBy(d, g) ensures b in s {
      InBlocksOf(d, g, b);
    }
    assert OwnedBy(d, g) == Elements(s);
  }

  // ---------------------------------------------------------------- all blocks

  predicate BelowFile(p: Place, m: nat) {
    match p
    case Slot(_) => true
    case Data(g, _) => g < m
    case Single(g) => g < m
    case Double(g) => g < m
    case Second(g, _) => g < m
    case Limbo => false
  }

  /** The blocks of the free list and of the first `m` files. */
  function UpTo(d: Disk, m: nat): set<nat> {
    set b: nat | b < |d.at| && BelowFile(d.at[b], m)
  }

  function SumUsed(files: seq<File>): nat {
    if files == [] then 0 else SumUsed(files[..|files| - 1]) + Used(files[|files| - 1])
  }

  lemma StackCount(d: Disk)
    requires Partition(d)
    ensures |UpTo(d, 0)| == |d.stack|
  {
    StackDistinct(d);
    DistinctCount(d.stack);
    forall b | b in UpTo(d, 0) ensures b in d.stack {
      assert Has(d, d.at[b]) && BlockAt(d, d.at[b]) == b;
    }
    assert UpTo(d, 0) == Elements(d.stack);
  }

  lemma {:induction false} CountUpTo(d: Disk, m: nat)
    requires Partition(d) && m <= |d.files| && forall g | 0 <= g < |d.files| :: Plain(d.files[g])
    ensures |UpTo(d, m)| == |d.stack| + SumUsed(d.files[..m])
  {
    hide Partition;
    if m == 0 {
      StackCount(d);
    } else {
      CountUpTo(d, m - 1);
      OwnedCount(d, m - 1);
      assert UpTo(d, m) == UpTo(d, m - 1) + OwnedBy(d, m - 1);
      assert UpTo(d, m - 1) !! OwnedBy(d, m - 1);
      assert d.files[..m][..m - 1] == d.files[..m - 1];
    }
  }

  lemma CountAll(d: Disk)
    requires Partition(d) && (forall b | 0 <= b < |d.at| :: d.at[b] != Limbo) && forall g | 0 <= g < |d.files| :: Plain(d.files[g])
    ensures |d.at| == |d.stack| + SumUsed(d.files)
  {
    CountUpTo(d, |d.files|);
    DistinctCount(Range(|d.at|));
    forall b: nat | b < |d.at| ensures BelowFile(d.at[b], |d.files|) && b in Range(|d.at|) {
      assert Has(d, d.at[b]) && Range(|d.at|)[b] == b;
    }
    assert UpTo(d, |d.files|) == Elements(Range(|d.at|));
    assert d.files[..|d.files|] == d.files;
  }

  // ---------------------------------------------------------------- what the files take

  /** How many blocks files of these sizes take. */
  function SumTotal(v: Inodes): nat {
    if v == [] then 0 else SumTotal(v[..|v| - 1]) + Total(|v[|v| - 1]|)
  }

  lemma {:induction false} SameSums(files: seq<File>, v: Inodes)
    requires |files| == |v| && forall g | 0 <= g < |v| :: Used(files[g]) == Total(|v[g]|)
    ensures SumUsed(files) == SumTotal(v)
  {
    if v == [] {
    } else {
      SameSums(files[..|v| - 1], v[..|v| - 1]);
    }
  }

  /** Every data block is free or in one file: their numbers add up. */
  lemma Conservation(img: Image, d: Disk)
    requires Inv(img, d)
    ensures |d.stack| + SumTotal(FilesOf(img, d)) == NData(img)
  {
    InvNeeds(img, d);
    hide StackOk, FileOk, Partition;
    forall g | 0 <= g < |d.files| ensures Plain(d.files[g]) && Used(d.files[g]) == Total(|FilesOf(img, d)[g]|) {
      PlainFile(img, g, d.files[g]);
    }
    CountAll(d);
    SameSums(d.files, FilesOf(img, d));
  }

  lemma PlainFile(img: Image, g: nat, f: File)
    requires Formatted(img) && FileOk(img, g, f)
    ensures Plain(f) && Used(f) == Total(|f.data|)
  {
  }

  // ---------------------------------------------------------------- a write needs its blocks

  lemma {:induction false} WrittenSum(v: Inodes, v': Inodes, ino: nat)
    requires ino < |v| == |v'| && forall g | 0 <= g < |v| && g != ino :: |v'[g]| == |v[g]|
    ensures SumTotal(v') + Total(|v[ino]|) == SumTotal(v) + Total(|v'[ino]|)
    decreases |v|
  {
    var n := |v| - 1;
    if ino == n {
      SameTotals(v[..n], v'[..n]);
    } else {
      WrittenSum(v[..n], v'[..n], ino);
    }
  }

  lemma {:induction false} SameTotals(v: Inodes, v': Inodes)
    requires |v| == |v'| && forall g | 0 <= g < |v| :: |v'[g]| == |v[g]|
    ensures SumTotal(v) == SumTotal(v')
  {
    if v == [] {
    } else {
      SameTotals(v[..|v| - 1], v'[..|v| - 1]);
    }
  }

  /** Whatever is on the disk afterwards: with too few free blocks it is no unix disk on which the block is written
      and the other files have their sizes. */
  lemma NoRoom(img: Image, d: Disk, img': Image, d': Disk, ino: nat, offset: nat, block: Block)
    requires Inv(img, d) && |img'| == |img| && Inv(img', d')
    requires Written(FilesOf(img, d), FilesOf(img', d'), ino, offset, block)
    ensures Total(|FilesOf(img', d')[ino]|) <= |d.stack| + Total(|FilesOf(img, d)[ino]|)
  {
    Conservation(img, d);
    Conservation(img', d');
    InvNeeds(img, d);
    InvNeeds(img', d');
    hide Inv;
    WrittenSum(FilesOf(img, d), FilesOf(img', d'), ino);
    assert NInodes(img) == NInodes(img');
  }

  lemma UsedIs(img: Image, d: Disk, ino: nat)
    requires Inv(img, d) && ino < |d.files|
    ensures Used(d.files[ino]) == Total(|d.files[ino].data|)
  {
    InvNeeds(img, d);
    PlainFile(img, ino, d.files[ino]);
  }

  /** The same for a write that takes `Total(offset + 1) - Total(n)` blocks. */
  lemma NeverWritten(img: Image, d: Disk, img': Image, ino: nat, offset: nat, block: Block)
    requires Inv(img, d) && |img'| == |img| && ino < |d.files| && |d.files[ino].data| <= offset
    requires Total(offset + 1) > |d.stack| + Total(|d.files[ino].data|)
    ensures forall d': Disk :: Inv(img', d') ==> !Written(FilesOf(img, d), FilesOf(img', d'), ino, offset, block)
  {
    hide FileOk, Partition, SlotOk;
    forall d': Disk | Inv(img', d') ensures !Written(FilesOf(img, d), FilesOf(img', d'), ino, offset, block) {
      if Written(FilesOf(img, d), FilesOf(img', d'), ino, offset, block) {
        NoRoom(img, d, img', d', ino, offset, block);
      }
    }
  }

  /** A full disk has no room for a longer file. */
  lemma FullDisk(img: Image, d: Disk, ino: nat)
    requires Inv(img, d) && d.stack == [] && ino < |d.files|
    ensures FreeList(img) == NONE && Total(|d.files[ino].data| + 1) > Used(d.files[ino])
  {
    UsedIs(img, d, ino);
    hide FileOk, Partition;
  }
}
