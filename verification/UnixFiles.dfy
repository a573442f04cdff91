/** The files of a unix disk and who has which block. */
module UnixFiles {
  import opened UnixLists

  /** The blocks of a file, as its pointers say: data blocks, the single and the double indirect block if there is
      one, and the indirect blocks below that.  While the file is freed, those before `from` and `secFrom` are gone. */
  datatype File = File(data: seq<nat>, single: seq<nat>, double: seq<nat>, seconds: seq<nat>, from: nat, secFrom: nat)

  function NoFile(): File {
    File([], [], [], [], 0, 0)
  }

  /** What a data block is: a slot of the free list or a part of a file.  Limbo is for the block in hand. */
  datatype Place = Slot(i: nat) | Data(ino: nat, offset: nat) | Single(ino: nat) | Double(ino: nat) | Second(ino: nat, j: nat) | Limbo

  datatype Disk = Disk(stack: seq<nat>, files: seq<File>, at: seq<Place>)

  /** The place is there. */
  predicate Has(d: Disk, p: Place) {
    match p
    case Slot(i) => i < |d.stack|
    case Data(ino, offset) => ino < |d.files| && d.files[ino].from <= offset < |d.files[ino].data|
    case Single(ino) => ino < |d.files| && |d.files[ino].single| == 1
    case Double(ino) => ino < |d.files| && |d.files[ino].double| == 1
    case Second(ino, j) => ino < |d.files| && d.files[ino].secFrom <= j < |d.files[ino].seconds|
    case Limbo => false
  }

  function BlockAt(d: Disk, p: Place): nat
    requires Has(d, p)
  {
    match p
    case Slot(i) => d.stack[i]
    case Data(ino, offset) => d.files[ino].data[offset]
    case Single(ino) => d.files[ino].single[0]
    case Double(ino) => d.files[ino].double[0]
    case Second(ino, j) => d.files[ino].seconds[j]
  }

  /** Every block number is at one place, and no block is lost, but for those in limbo. */
  ghost predicate Partition(d: Disk) {
    && (forall p: Place | Has(d, p) :: BlockAt(d, p) < |d.at| && d.at[BlockAt(d, p)] == p)
    && (forall b | 0 <= b < |d.at| && d.at[b] != Limbo :: Has(d, d.at[b]) && BlockAt(d, d.at[b]) == b)
  }

  lemma StackDistinct(d: Disk)
    requires Partition(d)
    ensures Distinct(d.stack) && forall i | 0 <= i < |d.stack| :: d.stack[i] < |d.at| && d.at[d.stack[i]] == Slot(i)
  {
    forall i | 0 <= i < |d.stack| ensures d.stack[i] < |d.at| && d.at[d.stack[i]] == Slot(i) {
      assert Has(d, Slot(i)) && BlockAt(d, Slot(i)) == d.stack[i];
    }
  }

  // ---------------------------------------------------------------- taking a block for a file

  /** The file can get a block at this place next. */
  predicate Next(f: File, ino: nat, p: Place) {
    match p
    case Slot(_) => false
    case Data(g, offset) => g == ino && offset == |f.data| && f.from <= offset
    case Single(g) => g == ino && f.single == []
    case Double(g) => g == ino && f.double == []
    case Second(g, j) => g == ino && j == |f.seconds| && f.secFrom <= j
    case Limbo => false
  }

  function Grown(f: File, p: Place, b: nat): File {
    match p
    case Data(_, _) => f.(data := f.data + [b])
    case Single(_) => f.(single := [b])
    case Double(_) => f.(double := [b])
    case Second(_, _) => f.(seconds := f.seconds + [b])
    case _ => f
  }

  function Taken(d: Disk, ino: nat, p: Place): Disk
    requires d.stack != [] && ino < |d.files|
  {
    var b := Top(d.stack);
    Disk(Rest(d.stack), d.files[ino := Grown(d.files[ino], p, b)], if b < |d.at| then d.at[b := p] else d.at)
  }

  lemma TakenPlace(d: Disk, ino: nat, p: Place, q: Place)
    requires Partition(d) && d.stack != [] && ino < |d.files| && Next(d.files[ino], ino, p) && Has(Taken(d, ino, p), q)
    requires Has(d, Slot(|d.stack| - 1)) && BlockAt(d, Slot(|d.stack| - 1)) == Top(d.stack)
    ensures var d' := Taken(d, ino, p); BlockAt(d', q) < |d'.at| && d'.at[BlockAt(d', q)] == q
  {
    var d' := Taken(d, ino, p);
    if q != p {
      assert Has(d, q) && q != Slot(|d.stack| - 1) && BlockAt(d', q) == BlockAt(d, q);
    }
  }

  lemma TakenBlockAt(d: Disk, ino: nat, p: Place, b: nat)
    requires Partition(d) && d.stack != [] && ino < |d.files| && Next(d.files[ino], ino, p)
    requires Has(d, Slot(|d.stack| - 1)) && BlockAt(d, Slot(|d.stack| - 1)) == Top(d.stack)
    requires b < |d.at| && Taken(d, ino, p).at[b] != Limbo
    ensures var d' := Taken(d, ino, p); Has(d', d'.at[b]) && BlockAt(d', d'.at[b]) == b
  {
    if b != Top(d.stack) {
      assert Has(d, d.at[b]) && d.at[b] != Slot(|d.stack| - 1);
    }
  }

  lemma TakenKeeps(d: Disk, ino: nat, p: Place)
    requires Partition(d) && d.stack != [] && ino < |d.files| && Next(d.files[ino], ino, p)
    ensures Partition(Taken(d, ino, p)) && |Taken(d, ino, p).at| == |d.at|
  {
    var d', top := Taken(d, ino, p), Slot(|d.stack| - 1);
    assert Has(d, top) && BlockAt(d, top) == Top(d.stack);
    forall q: Place | Has(d', q) ensures BlockAt(d', q) < |d'.at| && d'.at[BlockAt(d', q)] == q {
      TakenPlace(d, ino, p, q);
    }
    forall b | 0 <= b < |d'.at| && d'.at[b] != Limbo ensures Has(d', d'.at[b]) && BlockAt(d', d'.at[b]) == b {
      TakenBlockAt(d, ino, p, b);
    }
  }

  // ---------------------------------------------------------------- giving a block of a file back

  /** The file can give up the block at this place next. */
  predicate Leads(f: File, ino: nat, p: Place) {
    match p
    case Data(g, offset) => g == ino && offset == f.from < |f.data|
    case Single(g) => g == ino && |f.single| == 1
    case Double(g) => g == ino && |f.double| == 1
    case Second(g, j) => g == ino && j == f.secFrom < |f.seconds|
    case _ => false
  }

  function Shrunk(f: File, p: Place): File {
    match p
    case Data(_, _) => f.(from := f.from + 1)
    case Single(_) => f.(single := [])
    case Double(_) => f.(double := [])
    case Second(_, _) => f.(secFrom := f.secFrom + 1)
    case _ => f
  }

  function Given(d: Disk, ino: nat, p: Place): Disk
    requires ino < |d.files| && Leads(d.files[ino], ino, p)
  {
    var b := BlockAt(d, p);
    Disk(d.stack + [b], d.files[ino := Shrunk(d.files[ino], p)], if b < |d.at| then d.at[b := Slot(|d.stack|)] else d.at)
  }

  lemma GivenKeeps(d: Disk, ino: nat, p: Place)
    requires Partition(d) && ino < |d.files| && Leads(d.files[ino], ino, p)
    ensures BlockAt(d, p) < |d.at| && d.at[BlockAt(d, p)] == p
    ensures Partition(Given(d, ino, p)) && |Given(d, ino, p).at| == |d.at|
  {
    var d' := Given(d, ino, p);
    var top := Slot(|d.stack|);
    assert Has(d, p);
    forall q: Place | Has(d', q) ensures BlockAt(d', q) < |d'.at| && d'.at[BlockAt(d', q)] == q {
      if q != top {
        assert Has(d, q) && q != p && BlockAt(d', q) == BlockAt(d, q);
      }
    }
    forall b | 0 <= b < |d'.at| && d'.at[b] != Limbo ensures Has(d', d'.at[b]) && BlockAt(d', d'.at[b]) == b {
      if b != BlockAt(d, p) {
        assert Has(d, d.at[b]) && d.at[b] != p;
      }
    }
  }
}
