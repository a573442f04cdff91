/** Virtual memory: the frames and page tables of grass/process.c, and the TLB of earth/tlb.c, which copies a page
    into the one address space when it is mapped and back into its frame when it is flushed.  Pages are numbered
    from the start of the address space. */
module Paging {
  import opened Options

  /** What a page holds. */
  type Page = seq<nat>

  datatype PageInfo = Uninit | Valid(frame: nat)

  /** An entry of the TLB, whose page can be read, or read and written. */
  datatype Entry = Unused | Mapped(virt: nat, frame: nat, writable: bool)

  datatype Process = Process(alive: bool, pages: seq<PageInfo>)

  /** `mem` is the address space that the current process sees; `slot` is the entry to use next. */
  datatype Memory = Memory(entries: seq<Entry>, slot: nat, mem: seq<Page>, frames: seq<Page>, procs: seq<Process>, free: seq<nat>,
                           current: nat)

  // ---------------------------------------------------------------- the invariant

  predicate Shaped(s: Memory) {
    && s.current < |s.procs| && s.slot < |s.entries|
    && forall p | 0 <= p < |s.procs| :: |s.procs[p].pages| == |s.mem|
  }

  /** The frame of a page of a live process. */
  predicate Holds(s: Memory, p: nat, v: nat, f: nat)
    requires Shaped(s)
  {
    p < |s.procs| && v < |s.mem| && s.procs[p].alive && s.procs[p].pages[v] == Valid(f)
  }

  /** An entry maps a page of the current process to its frame; a page that cannot be written is as in its frame. */
  predicate EntryOk(s: Memory, i: nat)
    requires Shaped(s) && i < |s.entries|
  {
    s.entries[i].Mapped? ==>
      && s.entries[i].frame < |s.frames|
      && Holds(s, s.current, s.entries[i].virt, s.entries[i].frame)
      && (!s.entries[i].writable ==> s.mem[s.entries[i].virt] == s.frames[s.entries[i].frame])
  }

  ghost predicate EntriesOk(s: Memory)
    requires Shaped(s)
  {
    && (forall i | 0 <= i < |s.entries| :: EntryOk(s, i))
    && (forall i, j | 0 <= i < j < |s.entries| && s.entries[i].Mapped? && s.entries[j].Mapped? ::
          s.entries[i].virt != s.entries[j].virt)
  }

  /** Every frame is free once, or is held by one page of one live process. */
  ghost predicate FramesOk(s: Memory)
    requires Shaped(s)
  {
    && (forall i, j | 0 <= i < j < |s.free| :: s.free[i] != s.free[j])
    && (forall i | 0 <= i < |s.free| :: s.free[i] < |s.frames|)
    && (forall p: nat, v: nat, f: nat | Holds(s, p, v, f) :: f < |s.frames| && f !in s.free)
    && (forall p: nat, v: nat, q: nat, w: nat, f: nat | Holds(s, p, v, f) && Holds(s, q, w, f) :: p == q && v == w)
    && (forall f | 0 <= f < |s.frames| :: f in s.free || exists p: nat, v: nat :: Holds(s, p, v, f))
  }

  ghost predicate Inv(s: Memory) {
    Shaped(s) && EntriesOk(s) && FramesOk(s)
  }

  // ---------------------------------------------------------------- the operations of the TLB

  /** The entry for a page, or -1. */
  function GetEntry(entries: seq<Entry>, v: nat): (i: int)
    ensures -1 <= i < |entries|
    ensures i >= 0 ==> entries[i].Mapped? && entries[i].virt == v
    ensures i < 0 ==> forall j | 0 <= j < |entries| && entries[j].Mapped? :: entries[j].virt != v
  {
    GetEntryFrom(entries, v, 0)
  }

  function GetEntryFrom(entries: seq<Entry>, v: nat, k: nat): (i: int)
    requires k <= |entries|
    ensures i == -1 || k <= i < |entries|
    ensures i >= 0 ==> entries[i].Mapped? && entries[i].virt == v
    ensures i < 0 ==> forall j | k <= j < |entries| && entries[j].Mapped? :: entries[j].virt != v
    decreases |entries| - k
  {
    if k == |entries| then -1
    else if entries[k].Mapped? && entries[k].virt == v then k
    else GetEntryFrom(entries, v, k + 1)
  }

  /** Writes a page that may have changed back to its frame. */
  function SyncEntry(s: Memory, i: nat): Memory
    requires Shaped(s) && i < |s.entries| && EntryOk(s, i)
  {
    if s.entries[i].Mapped? && s.entries[i].writable then
      s.(frames := s.frames[s.entries[i].frame := s.mem[s.entries[i].virt]])
    else s
  }

  function FlushEntry(s: Memory, i: nat): Memory
    requires Shaped(s) && i < |s.entries| && EntryOk(s, i)
  {
    SyncEntry(s, i).(entries := s.entries[i := Unused])
  }

  /** Maps a page of the current process in entry `i`, which is flushed first. */
  function Map(s: Memory, i: nat, v: nat, f: nat, writable: bool): Memory
    requires Shaped(s) && i < |s.entries| && EntryOk(s, i) && v < |s.mem| && f < |s.frames|
  {
    var s1 := FlushEntry(s, i);
    s1.(entries := s1.entries[i := Mapped(v, f, writable)], mem := s1.mem[v := s1.frames[f]])
  }

  // ---------------------------------------------------------------- what a process sees

  /** There is an entry through which the page can be written. */
  ghost predicate Dirty(entries: seq<Entry>, v: nat) {
    exists i :: 0 <= i < |entries| && entries[i].Mapped? && entries[i].virt == v && entries[i].writable
  }

  /** What page `v` of process `p` holds. */
  ghost function View(s: Memory, p: nat, v: nat): Option<Page>
    requires Shaped(s) && p < |s.procs| && v < |s.mem|
  {
    match s.procs[p].pages[v]
    case Uninit => None
    case Valid(f) =>
      if p == s.current && Dirty(s.entries, v) then Some(s.mem[v])
      else if f < |s.frames| then Some(s.frames[f]) else None
  }

  /** All live processes see what they saw. */
  ghost predicate SameView(s: Memory, s': Memory)
    requires Shaped(s) && Shaped(s')
  {
    && |s'.procs| == |s.procs| && |s'.mem| == |s.mem|
    && (forall p | 0 <= p < |s.procs| :: s'.procs[p].alive == s.procs[p].alive)
    && (forall p, v | 0 <= p < |s.procs| && s.procs[p].alive && 0 <= v < |s.mem| :: View(s', p, v) == View(s, p, v))
  }

  /** Writing a page back changes nothing that can be seen, and clears nothing. */
  lemma SyncKeeps(s: Memory, i: nat)
    requires Inv(s) && i < |s.entries|
    ensures EntryOk(s, i) && Inv(SyncEntry(s, i)) && SameView(s, SyncEntry(s, i))
  {
    assert EntryOk(s, i);
    var s' := SyncEntry(s, i);
    assert Shaped(s');
    assert forall p: nat, v: nat, f: nat :: Holds(s', p, v, f) <==> Holds(s, p, v, f);
    forall j | 0 <= j < |s'.entries| ensures EntryOk(s', j) {
      assert EntryOk(s, j);
    }
    forall p, v | 0 <= p < |s.procs| && s.procs[p].alive && 0 <= v < |s.mem| ensures View(s', p, v) == View(s, p, v) {
      SyncView(s, i, p, v);
    }
  }

  lemma SyncView(s: Memory, i: nat, p: nat, v: nat)
    requires Inv(s) && i < |s.entries| && EntryOk(s, i) && p < |s.procs| && s.procs[p].alive && v < |s.mem|
    ensures Shaped(SyncEntry(s, i)) && View(SyncEntry(s, i), p, v) == View(s, p, v)
  {
    var e := s.entries[i];
    if e.Mapped? && e.writable && s.procs[p].pages[v] == Valid(e.frame) {
      assert Holds(s, p, v, e.frame) && Holds(s, s.current, e.virt, e.frame);
      assert Dirty(s.entries, v);
    }
  }

  lemma SameHolders(s: Memory, s': Memory)
    requires Shaped(s) && FramesOk(s) && s'.procs == s.procs && |s'.mem| == |s.mem| && s'.current < |s.procs| && s'.slot < |s'.entries|
    requires s'.free == s.free && |s'.frames| == |s.frames|
    ensures Shaped(s') && FramesOk(s')
  {
    assert forall p: nat, v: nat, f: nat :: Holds(s', p, v, f) <==> Holds(s, p, v, f);
  }

  /** Taking an entry away after writing its page back changes nothing that can be seen. */
  lemma FlushKeeps(s: Memory, i: nat)
    requires Inv(s) && i < |s.entries|
    ensures EntryOk(s, i) && Inv(FlushEntry(s, i)) && SameView(s, FlushEntry(s, i))
  {
    SyncKeeps(s, i);
    var s1, s' := SyncEntry(s, i), FlushEntry(s, i);
    SameHolders(s1, s');
    forall j | 0 <= j < |s'.entries| ensures EntryOk(s', j) {
      assert EntryOk(s1, j);
    }
    forall p, v | 0 <= p < |s.procs| && s.procs[p].alive && 0 <= v < |s.mem| ensures View(s', p, v) == View(s, p, v) {
      FlushView(s, i, p, v);
    }
  }

  /** The page of the entry is seen in its frame; other entries are still there. */
  lemma FlushView(s: Memory, i: nat, p: nat, v: nat)
    requires Inv(s) && i < |s.entries| && EntryOk(s, i) && p < |s.procs| && s.procs[p].alive && v < |s.mem|
    ensures Shaped(FlushEntry(s, i)) && View(FlushEntry(s, i), p, v) == View(s, p, v)
  {
    SyncView(s, i, p, v);
    var s1, s' := SyncEntry(s, i), FlushEntry(s, i);
    if p == s.current {
      if Dirty(s.entries, v) {
        var j :| 0 <= j < |s.entries| && s.entries[j].Mapped? && s.entries[j].virt == v && s.entries[j].writable;
        if j == i {
          assert !Dirty(s'.entries, v);
        } else {
          assert s'.entries[j] == s.entries[j];
        }
      } else {
        assert !Dirty(s'.entries, v);
      }
    }
  }

  /** Mapping a page of the current process that is in no other entry. */
  lemma MapKeeps(s: Memory, i: nat, v: nat, f: nat, writable: bool)
    requires Inv(s) && i < |s.entries| && Holds(s, s.current, v, f)
    requires forall j | 0 <= j < |s.entries| && j != i && s.entries[j].Mapped? :: s.entries[j].virt != v
    ensures EntryOk(s, i) && f < |s.frames| && Inv(Map(s, i, v, f, writable)) && SameView(s, Map(s, i, v, f, writable))
  {
    FlushKeeps(s, i);
    var s1, s' := FlushEntry(s, i), Map(s, i, v, f, writable);
    assert forall j | 0 <= j < |s1.entries| && s1.entries[j].Mapped? :: s1.entries[j].virt != v;
    SameHolders(s1, s');
    forall j | 0 <= j < |s'.entries| ensures EntryOk(s', j) {
      assert EntryOk(s1, j);
    }
    forall p, w | 0 <= p < |s.procs| && s.procs[p].alive && 0 <= w < |s.mem| ensures View(s', p, w) == View(s, p, w) {
      assert View(s1, p, w) == View(s, p, w);
      MapView(s1, i, v, f, writable, p, w);
    }
  }

  lemma MapView(s1: Memory, i: nat, v: nat, f: nat, writable: bool, p: nat, w: nat)
    requires Inv(s1) && i < |s1.entries| && s1.entries[i] == Unused && Holds(s1, s1.current, v, f) && f < |s1.frames|
    requires forall j | 0 <= j < |s1.entries| && s1.entries[j].Mapped? :: s1.entries[j].virt != v
    requires p < |s1.procs| && s1.procs[p].alive && w < |s1.mem|
    ensures var s' := s1.(entries := s1.entries[i := Mapped(v, f, writable)], mem := s1.mem[v := s1.frames[f]]);
            Shaped(s') && View(s', p, w) == View(s1, p, w)
  {
    var s' := s1.(entries := s1.entries[i := Mapped(v, f, writable)], mem := s1.mem[v := s1.frames[f]]);
    assert !Dirty(s1.entries, v);
    if w != v {
      if Dirty(s1.entries, w) {
        var j :| 0 <= j < |s1.entries| && s1.entries[j].Mapped? && s1.entries[j].virt == w && s1.entries[j].writable;
        assert s'.entries[j] == s1.entries[j];
      } else {
        assert !Dirty(s'.entries, w);
      }
    }
  }

  // ---------------------------------------------------------------- runs over the entries

  /** The entries from `k` on are written back. */
  function SyncFrom(s: Memory, k: nat): Memory
    requires Inv(s) && k <= |s.entries|
    decreases |s.entries| - k
  {
    if k == |s.entries| then s
    else
      SyncKeeps(s, k);
      SyncFrom(SyncEntry(s, k), k + 1)
  }

  /** The entries from `k` on, all or those of one page, are flushed. */
  function FlushFrom(s: Memory, k: nat, only: Option<nat>): Memory
    requires Inv(s) && k <= |s.entries|
    decreases |s.entries| - k
  {
    if k == |s.entries| then s
    else
      FlushKeeps(s, k);
      FlushFrom(if Chosen(s.entries[k], only) then FlushEntry(s, k) else s, k + 1, only)
  }

  predicate Chosen(e: Entry, only: Option<nat>) {
    e.Mapped? && (only == None || only.value == e.virt)
  }

  lemma {:induction false} SyncFromKeeps(s: Memory, k: nat)
    requires Inv(s) && k <= |s.entries|
    ensures Inv(SyncFrom(s, k)) && SameView(s, SyncFrom(s, k)) && SameTables(s, SyncFrom(s, k))
    ensures SyncFrom(s, k).entries == s.entries
    decreases |s.entries| - k
  {
    if k == |s.entries| {
    } else {
      SyncKeeps(s, k);
      SyncFromKeeps(SyncEntry(s, k), k + 1);
    }
  }

  /** After all entries have been written back, every mapped page is as in its frame. */
  lemma {:induction false} AllSynced(s: Memory, k: nat)
    requires Inv(s) && k <= |s.entries|
    ensures var s' := SyncFrom(s, k);
            && s'.mem == s.mem && |s'.frames| == |s.frames| && s'.entries == s.entries
            && forall i | k <= i < |s.entries| && s.entries[i].Mapped? :: SyncedAt(s', i)
    decreases |s.entries| - k
  {
    if k == |s.entries| {
    } else {
      var s1 := SyncEntry(s, k);
      SyncKeeps(s, k);
      EachEntry(s, k);
      AllSynced(s1, k + 1);
      if s.entries[k].Mapped? {
        SyncStays(s1, k, k + 1);
      }
    }
  }

  predicate SyncedAt(s: Memory, i: nat)
    requires i < |s.entries|
  {
    s.entries[i].Mapped? ==>
      s.entries[i].frame < |s.frames| && s.entries[i].virt < |s.mem| && s.frames[s.entries[i].frame] == s.mem[s.entries[i].virt]
  }

  /** What is written back later is in other frames. */
  lemma {:induction false} SyncStays(s: Memory, i: nat, k: nat)
    requires Inv(s) && i < k <= |s.entries| && SyncedAt(s, i)
    ensures SyncFrom(s, k).entries == s.entries && SyncedAt(SyncFrom(s, k), i)
    decreases |s.entries| - k
  {
    if k == |s.entries| {
    } else {
      SyncKeeps(s, k);
      EachEntry(s, k);
      OtherFrame(s, i, k);
      SyncStays(SyncEntry(s, k), i, k + 1);
    }
  }

  lemma OtherFrame(s: Memory, i: nat, k: nat)
    requires Inv(s) && i < k < |s.entries|
    ensures s.entries[i].Mapped? && s.entries[k].Mapped? ==> s.entries[i].frame != s.entries[k].frame
  {
    assert EntryOk(s, i) && EntryOk(s, k);
  }

  /** Page tables, free frames and the current process are as before. */
  predicate SameTables(s: Memory, s': Memory) {
    s'.procs == s.procs && s'.free == s.free && s'.current == s.current && s'.slot == s.slot && |s'.frames| == |s.frames| && |s'.entries| == |s.entries|
  }

  lemma {:induction false} FlushFromKeeps(s: Memory, k: nat, only: Option<nat>)
    requires Inv(s) && k <= |s.entries|
    ensures var s' := FlushFrom(s, k, only);
            && Inv(s') && SameView(s, s') && SameTables(s, s')
            && (forall i | 0 <= i < |s.entries| ::
                 s'.entries[i] == if i >= k && Chosen(s.entries[i], only) then Unused else s.entries[i])
    decreases |s.entries| - k
  {
    if k == |s.entries| {
    } else {
      FlushKeeps(s, k);
      FlushFromKeeps(if Chosen(s.entries[k], only) then FlushEntry(s, k) else s, k + 1, only);
    }
  }

  // ---------------------------------------------------------------- page faults

  /** Page `v` of the current process has a frame, or there is one for it. */
  predicate CanHave(s: Memory, v: nat)
    requires Shaped(s)
  {
    v < |s.mem| && s.procs[s.current].alive && (s.procs[s.current].pages[v].Valid? || s.free != [])
  }

  function WithPage(p: Process, v: nat, info: PageInfo): Process
    requires v < |p.pages|
  {
    p.(pages := p.pages[v := info])
  }

  /** Page `v` gets the first free frame, which is filled. */
  function Assign(s: Memory, v: nat, init: Page): Memory
    requires Shaped(s) && v < |s.mem| && s.free != [] && s.free[0] < |s.frames|
  {
    s.(procs := s.procs[s.current := WithPage(s.procs[s.current], v, Valid(s.free[0]))],
       free := s.free[1..], frames := s.frames[s.free[0] := init])
  }

  lemma NotMapped(s: Memory, v: nat)
    requires Inv(s) && v < |s.mem| && s.procs[s.current].pages[v].Uninit?
    ensures GetEntry(s.entries, v) < 0
  {
    hide EntriesOk;
    var i := GetEntry(s.entries, v);
    if i >= 0 {
      HasPage(s, i);
    }
  }

  lemma HasPage(s: Memory, i: nat)
    requires Inv(s) && i < |s.entries| && s.entries[i].Mapped?
    ensures s.entries[i].virt < |s.mem| && s.procs[s.current].pages[s.entries[i].virt].Valid?
  {
    assert EntryOk(s, i);
  }

  lemma AssignHolds(s: Memory, v: nat, init: Page, p: nat, w: nat, f: nat)
    requires Inv(s) && CanHave(s, v) && s.procs[s.current].pages[v].Uninit?
    ensures s.free[0] < |s.frames| && Shaped(Assign(s, v, init))
    ensures Holds(Assign(s, v, init), p, w, f) <==> Holds(s, p, w, f) || (p == s.current && w == v && f == s.free[0])
  {
  }

  lemma AssignFrames(s: Memory, v: nat, init: Page)
    requires Inv(s) && CanHave(s, v) && s.procs[s.current].pages[v].Uninit?
    ensures s.free[0] < |s.frames| && Shaped(Assign(s, v, init)) && FramesOk(Assign(s, v, init))
  {
    var s' := Assign(s, v, init);
    assert Shaped(s');
    forall p: nat, w: nat, f: nat
      ensures Holds(s', p, w, f) <==> Holds(s, p, w, f) || (p == s.current && w == v && f == s.free[0])
    {
      AssignHolds(s, v, init, p, w, f);
    }
    hide Holds;
    assert s.free[0] in s.free;
    forall f | 0 <= f < |s'.frames| ensures f in s'.free || exists p: nat, w: nat :: Holds(s', p, w, f) {
      if f in s.free {
        var i :| 0 <= i < |s.free| && s.free[i] == f;
        if i > 0 {
          assert s'.free[i - 1] == f;
        } else {
          assert Holds(s', s.current, v, f);
        }
      } else {
        var p: nat, w: nat :| Holds(s, p, w, f);
        assert Holds(s', p, w, f);
      }
    }
  }

  /** A new frame is nobody else's. */
  lemma AssignKeeps(s: Memory, v: nat, init: Page)
    requires Inv(s) && CanHave(s, v) && s.procs[s.current].pages[v].Uninit?
    ensures s.free[0] < |s.frames| && Inv(Assign(s, v, init))
    ensures var s' := Assign(s, v, init); forall p, w | 0 <= p < |s.procs| && s.procs[p].alive && 0 <= w < |s.mem| ::
              View(s', p, w) == if p == s.current && w == v then Some(init) else View(s, p, w)
  {
    AssignFrames(s, v, init);
    var s' := Assign(s, v, init);
    NotMapped(s, v);
    forall i | 0 <= i < |s'.entries| ensures EntryOk(s', i) {
      assert EntryOk(s, i);
    }
    assert !Dirty(s.entries, v);
    forall p, w | 0 <= p < |s.procs| && s.procs[p].alive && 0 <= w < |s.mem|
      ensures View(s', p, w) == if p == s.current && w == v then Some(init) else View(s, p, w)
    {
      if s.procs[p].pages[w].Valid? {
        assert Holds(s, p, w, s.procs[p].pages[w].frame);
      }
    }
  }

  /** The page is mapped, in its entry if it has one. */
  function MapPage(s: Memory, v: nat, update: bool): Memory
    requires Inv(s) && v < |s.mem| && s.procs[s.current].alive && s.procs[s.current].pages[v].Valid?
  {
    var f := s.procs[s.current].pages[v].frame;
    assert Holds(s, s.current, v, f);
    var i := GetEntry(s.entries, v);
    if i >= 0 then EachEntry(s, i); Map(s, i, v, f, update)
    else EachEntry(s, s.slot); Map(s, s.slot, v, f, update).(slot := (s.slot + 1) % |s.entries|)
  }

  lemma EachEntry(s: Memory, i: nat)
    requires Inv(s) && i < |s.entries|
    ensures EntryOk(s, i)
  {
  }

  /** A page fault: the page gets a frame if it has none, and is mapped. */
  function Fault(s: Memory, v: nat, update: bool, init: Page): Memory
    requires Inv(s) && CanHave(s, v)
  {
    if s.procs[s.current].pages[v].Uninit? then
      AssignKeeps(s, v, init);
      MapPage(Assign(s, v, init), v, update)
    else MapPage(s, v, update)
  }

  lemma MapPageKeeps(s: Memory, v: nat, update: bool)
    requires Inv(s) && v < |s.mem| && s.procs[s.current].alive && s.procs[s.current].pages[v].Valid?
    ensures var s' := MapPage(s, v, update);
            && Inv(s') && SameView(s, s') && s'.procs == s.procs && s'.free == s.free && s'.current == s.current
            && var i := GetEntry(s'.entries, v); i >= 0 && s'.entries[i].writable == update
  {
    var f := s.procs[s.current].pages[v].frame;
    assert Holds(s, s.current, v, f);
    var i := GetEntry(s.entries, v);
    if i >= 0 {
      MapKeeps(s, i, v, f, update);
      TheEntry(Map(s, i, v, f, update), i, v);
    } else {
      MapKeeps(s, s.slot, v, f, update);
      var s1 := Map(s, s.slot, v, f, update);
      NextSlot(s1, (s.slot + 1) % |s.entries|);
      TheEntry(s1, s.slot, v);
    }
  }

  lemma TheEntry(s: Memory, i: nat, v: nat)
    requires Inv(s) && i < |s.entries| && s.entries[i].Mapped? && s.entries[i].virt == v
    ensures GetEntry(s.entries, v) == i
  {
  }

  /** A page is in one entry only. */
  lemma OneEntry(s: Memory, v: nat)
    requires Inv(s) && v < |s.mem| && s.procs[s.current].alive && s.procs[s.current].pages[v].Valid?
    ensures forall j | 0 <= j < |s.entries| && s.entries[j].Mapped? && s.entries[j].virt == v :: j == GetEntry(s.entries, v)
    ensures Holds(s, s.current, v, s.procs[s.current].pages[v].frame)
  {
  }

  lemma NextSlot(s: Memory, n: nat)
    requires Inv(s) && n < |s.entries|
    ensures Inv(s.(slot := n)) && SameView(s, s.(slot := n))
  {
    var s' := s.(slot := n);
    SameHolders(s, s');
    forall i | 0 <= i < |s'.entries| ensures EntryOk(s', i) {
      assert EntryOk(s, i);
    }
  }

  /** After a fault the page is mapped; only a page without a frame is seen to change. */
  lemma FaultKeeps(s: Memory, v: nat, update: bool, init: Page)
    requires Inv(s) && CanHave(s, v)
    ensures var s' := Fault(s, v, update, init);
            && Inv(s') && s'.current == s.current && |s'.mem| == |s.mem| && |s'.procs| == |s.procs|
            && (forall p | 0 <= p < |s.procs| :: s'.procs[p].alive == s.procs[p].alive)
            && (var i := GetEntry(s'.entries, v); i >= 0 && s'.entries[i].writable == update)
            && (forall p, w | 0 <= p < |s.procs| && s.procs[p].alive && 0 <= w < |s.mem| ::
                 View(s', p, w) == if p == s.current && w == v && View(s, p, w) == None then Some(init) else View(s, p, w))
  {
    if s.procs[s.current].pages[v].Uninit? {
      AssignKeeps(s, v, init);
      MapPageKeeps(Assign(s, v, init), v, update);
    } else {
      assert Holds(s, s.current, v, s.procs[s.current].pages[v].frame);
      MapPageKeeps(s, v, update);
    }
  }

  /** A page that is not mapped takes the entries in turn; one that is keeps its entry.  No other entry changes. */
  lemma EntriesInTurn(s: Memory, v: nat, update: bool, init: Page)
    requires Inv(s) && CanHave(s, v)
    ensures var s' := Fault(s, v, update, init); var i := GetEntry(s'.entries, v);
            && |s'.entries| == |s.entries| && i >= 0
            && (forall j | 0 <= j < |s.entries| && j != i :: s'.entries[j] == s.entries[j])
            && if GetEntry(s.entries, v) >= 0 then i == GetEntry(s.entries, v) && s'.slot == s.slot
               else i == s.slot && s'.slot == if s.slot + 1 == |s.entries| then 0 else s.slot + 1
  {
    FaultKeeps(s, v, update, init);
    if s.procs[s.current].pages[v].Uninit? {
      AssignKeeps(s, v, init);
      MapInTurn(Assign(s, v, init), v, update);
    } else {
      MapInTurn(s, v, update);
    }
  }

  lemma MapInTurn(s: Memory, v: nat, update: bool)
    requires Shaped(s) && Inv(s) && s.slot < |s.entries| && v < |s.mem| && s.procs[s.current].alive && s.procs[s.current].pages[v].Valid?
    ensures var s' := MapPage(s, v, update); var i := GetEntry(s'.entries, v);
            && |s'.entries| == |s.entries| && i >= 0
            && (forall j | 0 <= j < |s.entries| && j != i :: s'.entries[j] == s.entries[j])
            && if GetEntry(s.entries, v) >= 0 then i == GetEntry(s.entries, v) && s'.slot == s.slot
               else i == s.slot && s'.slot == if s.slot + 1 == |s.entries| then 0 else s.slot + 1
  {
    hide Inv, Shaped, SameView, GetEntry;
    NextOf(s.slot, |s.entries|);
    MapPageKeeps(s, v, update);
    var i := GetEntry(s.entries, v);
    var k := if i >= 0 then i else s.slot;
    EachEntry(s, k);
    TheEntry(MapPage(s, v, update), k, v);
  }

  lemma NextOf(i: nat, n: nat)
    requires i < n
    ensures (i + 1) % n == if i + 1 == n then 0 else i + 1
  {
  }

  // ---------------------------------------------------------------- loads and stores

  /** Through an entry the process reads what it should see. */
  lemma Loads(s: Memory, v: nat)
    requires Inv(s) && v < |s.mem| && GetEntry(s.entries, v) >= 0
    ensures View(s, s.current, v) == Some(s.mem[v])
  {
    var i := GetEntry(s.entries, v);
    assert EntryOk(s, i);
    if s.entries[i].writable {
      assert Dirty(s.entries, v);
    } else {
      assert !Dirty(s.entries, v);
    }
  }

  lemma Stores(s: Memory, v: nat, x: Page)
    requires Inv(s) && v < |s.mem| && GetEntry(s.entries, v) >= 0 && s.entries[GetEntry(s.entries, v)].writable
    ensures var s' := s.(mem := s.mem[v := x]);
            && Inv(s')
            && forall p, w | 0 <= p < |s.procs| && s.procs[p].alive && 0 <= w < |s.mem| ::
                 View(s', p, w) == if p == s.current && w == v then Some(x) else View(s, p, w)
  {
    var s' := s.(mem := s.mem[v := x]);
    var i := GetEntry(s.entries, v);
    SameHolders(s, s');
    assert EntryOk(s, i);
    forall j | 0 <= j < |s'.entries| ensures EntryOk(s', j) {
      assert EntryOk(s, j);
    }
    assert Dirty(s.entries, v);
  }

  // ---------------------------------------------------------------- switching, ending and starting processes

  /** After a switch the TLB is empty. */
  function Switch(s: Memory, next: nat): Memory
    requires Inv(s) && next < |s.procs|
  {
    FlushFrom(s, 0, None).(current := next)
  }

  lemma SwitchKeeps(s: Memory, next: nat)
    requires Inv(s) && next < |s.procs|
    ensures Inv(Switch(s, next)) && SameView(s, Switch(s, next))
    ensures var s' := Switch(s, next); forall i | 0 <= i < |s'.entries| :: s'.entries[i] == Unused
  {
    FlushFromKeeps(s, 0, None);
    Handover(FlushFrom(s, 0, None), next);
  }

  /** With an empty TLB another process can go on. */
  lemma Handover(s: Memory, next: nat)
    requires Inv(s) && next < |s.procs| && forall i | 0 <= i < |s.entries| :: s.entries[i] == Unused
    ensures Inv(s.(current := next)) && SameView(s, s.(current := next))
  {
    var s' := s.(current := next);
    SameHolders(s, s');
    assert forall v :: !Dirty(s.entries, v);
  }

  /** A page is unmapped, for whatever process is the current one, and its frame becomes free. */
  function FreePage(s: Memory, p: nat, v: nat): Memory
    requires Inv(s) && p < |s.procs| && v < |s.mem|
  {
    if s.procs[p].pages[v].Uninit? then s
    else
      var s1 := FlushFrom(s, 0, Some(v));
      FlushFromKeeps(s, 0, Some(v));
      s1.(procs := s1.procs[p := WithPage(s1.procs[p], v, Uninit)], free := s1.free + [s.procs[p].pages[v].frame])
  }

  /** A page of a live process loses its frame, `s1` being the state after it has been unmapped. */
  lemma Freed(s1: Memory, p: nat, v: nat)
    requires Inv(s1) && p < |s1.procs| && v < |s1.mem| && s1.procs[p].alive && s1.procs[p].pages[v].Valid?
    requires forall i | 0 <= i < |s1.entries| && s1.entries[i].Mapped? :: s1.entries[i].virt != v
    ensures var s' := s1.(procs := s1.procs[p := WithPage(s1.procs[p], v, Uninit)], free := s1.free + [s1.procs[p].pages[v].frame]);
            && Inv(s') && forall q, w | 0 <= q < |s1.procs| && 0 <= w < |s1.mem| ::
                 View(s', q, w) == if q == p && w == v then None else View(s1, q, w)
  {
    var f := s1.procs[p].pages[v].frame;
    var s' := s1.(procs := s1.procs[p := WithPage(s1.procs[p], v, Uninit)], free := s1.free + [f]);
    assert Shaped(s') && Holds(s1, p, v, f);
    assert forall q: nat, w: nat, g: nat :: Holds(s', q, w, g) <==> Holds(s1, q, w, g) && !(q == p && w == v);
    FreedFrames(s1, s', p, v, f);
    forall i | 0 <= i < |s'.entries| ensures EntryOk(s', i) {
      assert EntryOk(s1, i);
    }
  }

  lemma FreedFrames(s1: Memory, s': Memory, p: nat, v: nat, f: nat)
    requires Shaped(s1) && FramesOk(s1) && Shaped(s') && Holds(s1, p, v, f) && s'.free == s1.free + [f] && |s'.frames| == |s1.frames|
    requires forall q: nat, w: nat, g: nat :: Holds(s', q, w, g) <==> Holds(s1, q, w, g) && !(q == p && w == v)
    ensures FramesOk(s')
  {
    hide Holds;
    assert s'.free[|s1.free|] == f;
    forall g | 0 <= g < |s'.frames| ensures g in s'.free || exists q: nat, w: nat :: Holds(s', q, w, g) {
      if g in s1.free {
        var i :| 0 <= i < |s1.free| && s1.free[i] == g;
        assert s'.free[i] == g;
      } else {
        var q: nat, w: nat :| Holds(s1, q, w, g);
        assert q == p && w == v ==> g == f by { SameFrame(s1, p, v, f, g); }
      }
    }
  }

  lemma SameFrame(s: Memory, p: nat, v: nat, f: nat, g: nat)
    requires Shaped(s)
    ensures Holds(s, p, v, f) && Holds(s, p, v, g) ==> f == g
  {
  }

  lemma FreePageKeeps(s: Memory, p: nat, v: nat)
    requires Inv(s) && p < |s.procs| && v < |s.mem| && s.procs[p].alive
    ensures var s' := FreePage(s, p, v);
            && Inv(s') && s'.current == s.current && |s'.mem| == |s.mem| && |s'.procs| == |s.procs|
            && (forall q | 0 <= q < |s.procs| :: s'.procs[q] == if q == p then WithPage(s.procs[p], v, Uninit) else s.procs[q])
            && (forall q, w | 0 <= q < |s.procs| && s.procs[q].alive && q != p && 0 <= w < |s.mem| ::
                 View(s', q, w) == View(s, q, w))
  {
    if s.procs[p].pages[v].Valid? {
      FlushFromKeeps(s, 0, Some(v));
      Freed(FlushFrom(s, 0, Some(v)), p, v);
    } else {
      assert s.procs[p].pages[v := Uninit] == s.procs[p].pages;
    }
  }

  /** The frames of the pages from `v` on become free. */
  function FreePages(s: Memory, p: nat, v: nat): Memory
    requires Inv(s) && p < |s.procs| && s.procs[p].alive && v <= |s.mem|
    decreases |s.mem| - v
  {
    if v == |s.mem| then s
    else
      FreePageKeeps(s, p, v);
      FreePages(FreePage(s, p, v), p, v + 1)
  }

  lemma {:induction false} FreePagesKeeps(s: Memory, p: nat, v: nat)
    requires Inv(s) && p < |s.procs| && s.procs[p].alive && v <= |s.mem|
    ensures var s' := FreePages(s, p, v);
            && Inv(s') && s'.current == s.current && |s'.mem| == |s.mem| && |s'.procs| == |s.procs| && s'.procs[p].alive
            && (forall q | 0 <= q < |s.procs| && q != p :: s'.procs[q] == s.procs[q])
            && (forall w | 0 <= w < |s.mem| :: s'.procs[p].pages[w] == if w >= v then Uninit else s.procs[p].pages[w])
            && (forall q, w | 0 <= q < |s.procs| && s.procs[q].alive && q != p && 0 <= w < |s.mem| ::
                 View(s', q, w) == View(s, q, w))
    decreases |s.mem| - v
  {
    if v == |s.mem| {
    } else {
      FreePageKeeps(s, p, v);
      hide Inv, View;
      FreePagesKeeps(FreePage(s, p, v), p, v + 1);
    }
  }

  /** A process ends.  Its frames become free; no other process sees anything of it. */
  function Term(s: Memory, p: nat): Memory
    requires Inv(s) && p < |s.procs| && s.procs[p].alive
  {
    FreePagesKeeps(s, p, 0);
    var s1 := FreePages(s, p, 0);
    s1.(procs := s1.procs[p := s1.procs[p].(alive := false)])
  }

  lemma TermKeeps(s: Memory, p: nat)
    requires Inv(s) && p < |s.procs| && s.procs[p].alive
    ensures var s' := Term(s, p);
            && Inv(s') && s'.current == s.current && |s'.mem| == |s.mem| && |s'.procs| == |s.procs|
            && (forall q | 0 <= q < |s.procs| :: s'.procs[q].alive == (q != p && s.procs[q].alive))
            && (forall q, w | 0 <= q < |s.procs| && s.procs[q].alive && q != p && 0 <= w < |s.mem| ::
                 View(s', q, w) == View(s, q, w))
  {
    FreePagesKeeps(s, p, 0);
    var s1, s' := FreePages(s, p, 0), Term(s, p);
    assert Shaped(s');
    assert forall q: nat, w: nat, f: nat :: Holds(s', q, w, f) <==> Holds(s1, q, w, f);
    forall i | 0 <= i < |s'.entries| ensures EntryOk(s', i) {
      assert EntryOk(s1, i);
    }
  }

  /** A new process starts with no page, and becomes the current one.  The TLB is not flushed. */
  function Start(s: Memory, p: nat): Memory
    requires Shaped(s) && p < |s.procs|
  {
    s.(procs := s.procs[p := Process(true, seq(|s.mem|, _ => Uninit))], current := p)
  }

  /** That is right exactly when nothing is mapped. */
  lemma StartKeeps(s: Memory, p: nat)
    requires Inv(s) && p < |s.procs| && !s.procs[p].alive && p != s.current
    ensures Inv(Start(s, p)) <==> forall i | 0 <= i < |s.entries| :: s.entries[i] == Unused
    ensures Inv(Start(s, p)) ==> forall q, w | 0 <= q < |s.procs| && s.procs[q].alive && 0 <= w < |s.mem| ::
              View(Start(s, p), q, w) == View(s, q, w)
  {
    var s' := Start(s, p);
    assert Shaped(s');
    assert forall q: nat, w: nat, f: nat :: Holds(s', q, w, f) <==> Holds(s, q, w, f);
    if i :| 0 <= i < |s.entries| && s.entries[i] != Unused {
      assert !EntryOk(s', i);
    } else {
      assert forall v :: !Dirty(s.entries, v);
    }
  }

  /** Nothing is mapped when the current process has no page, so that a kernel process may start others. */
  lemma NoPages(s: Memory)
    requires Inv(s) && forall v | 0 <= v < |s.mem| :: s.procs[s.current].pages[v].Uninit?
    ensures forall i | 0 <= i < |s.entries| :: s.entries[i] == Unused
  {
    hide EntriesOk;
    forall i | 0 <= i < |s.entries| ensures s.entries[i] == Unused {
      if s.entries[i].Mapped? {
        HasPage(s, i);
      }
    }
  }

  // ---------------------------------------------------------------- runs

  /** What can happen.  An access that finds its page not mapped faults, and the page is mapped for writing; the
      kernel maps pages that it only reads for reading.  `init` is what a page holds at first. */
  datatype Event =
    | Access(v: nat, write: Option<Page>, init: Page)
    | CopyFrom(v: nat, init: Page)
    | SyncAll
    | SwitchTo(p: nat)
    | End(p: nat)
    | Begin(p: nat)

  /** The events that can happen: the system stops when it is out of frames, and a process is started only when
      nothing is mapped. */
  ghost predicate Enabled(s: Memory, e: Event)
    requires Inv(s)
  {
    match e
    case Access(v, _, _) => CanHave(s, v)
    case CopyFrom(v, _) => CanHave(s, v)
    case SyncAll => true
    case SwitchTo(p) => p < |s.procs| && p != s.current && s.procs[p].alive
    case End(p) => p < |s.procs| && s.procs[p].alive
    case Begin(p) =>
      p < |s.procs| && p != s.current && !s.procs[p].alive && forall i | 0 <= i < |s.entries| :: s.entries[i] == Unused
  }

  predicate CanWrite(s: Memory, v: nat) {
    var i := GetEntry(s.entries, v); i >= 0 && s.entries[i].writable
  }

  function Step(s: Memory, e: Event): Memory
    requires Inv(s) && Enabled(s, e)
  {
    match e
    case Access(v, write, init) =>
      var s1 := if (if write.Some? then CanWrite(s, v) else GetEntry(s.entries, v) >= 0) then s else Fault(s, v, true, init);
      if write.Some? then s1.(mem := s1.mem[v := write.value]) else s1
    case CopyFrom(v, init) => if GetEntry(s.entries, v) >= 0 then s else Fault(s, v, false, init)
    case SyncAll => SyncFrom(s, 0)
    case SwitchTo(p) => Switch(s, p)
    case End(p) => Term(s, p)
    case Begin(p) => Start(s, p)
  }

  /** Memory as it should be: every process has its own pages, and none of them is ever lost. */
  datatype Ideal = Ideal(pages: seq<seq<Option<Page>>>, current: nat)

  function Set(m: Ideal, p: nat, v: nat, x: Option<Page>): Ideal {
    if p < |m.pages| && v < |m.pages[p]| then m.(pages := m.pages[p := m.pages[p][v := x]]) else m
  }

  function Get(m: Ideal, p: nat, v: nat): Option<Page> {
    if p < |m.pages| && v < |m.pages[p]| then m.pages[p][v] else None
  }

  function Touched(m: Ideal, v: nat, init: Page): Ideal {
    if Get(m, m.current, v) == None then Set(m, m.current, v, Some(init)) else m
  }

  function IdealStep(m: Ideal, e: Event): Ideal {
    match e
    case Access(v, write, init) => if write.Some? then Set(m, m.current, v, write) else Touched(m, v, init)
    case CopyFrom(v, init) => Touched(m, v, init)
    case SyncAll => m
    case SwitchTo(p) => m.(current := p)
    case End(p) => m
    case Begin(p) => Ideal(if p < |m.pages| then m.pages[p := seq(|m.pages[p]|, _ => None)] else m.pages, p)
  }

  /** The live processes see the memory as it should be. */
  ghost predicate Shows(s: Memory, m: Ideal)
    requires Shaped(s)
  {
    && m.current == s.current && |m.pages| == |s.procs| && (forall p | 0 <= p < |s.procs| :: |m.pages[p]| == |s.mem|)
    && (forall p, v | 0 <= p < |s.procs| && s.procs[p].alive && 0 <= v < |s.mem| :: View(s, p, v) == Get(m, p, v))
  }

  lemma AccessKeeps(s: Memory, m: Ideal, v: nat, write: Option<Page>, init: Page)
    requires Inv(s) && CanHave(s, v) && Shows(s, m)
    ensures var e := Access(v, write, init);
            Inv(Step(s, e)) && Shows(Step(s, e), IdealStep(m, e)) && GetEntry(Step(s, e).entries, v) >= 0
  {
    hide Fault;
    var e := Access(v, write, init);
    var mapped := if write.Some? then CanWrite(s, v) else GetEntry(s.entries, v) >= 0;
    var s1 := if mapped then s else Fault(s, v, true, init);
    if !mapped {
      FaultKeeps(s, v, true, init);
    } else if write == None {
      Loads(s, v);
    }
    if write.Some? {
      Stores(s1, v, write.value);
    }
  }

  lemma StepKeeps(s: Memory, m: Ideal, e: Event)
    requires Inv(s) && Enabled(s, e) && Shows(s, m)
    ensures Inv(Step(s, e)) && Shows(Step(s, e), IdealStep(m, e))
  {
    match e
    case Access(v, write, init) => AccessKeeps(s, m, v, write, init);
    case CopyFrom(v, init) =>
      if GetEntry(s.entries, v) >= 0 {
        Loads(s, v);
      } else {
        FaultKeeps(s, v, false, init);
      }
    case SyncAll => SyncFromKeeps(s, 0);
    case SwitchTo(p) => SwitchKeeps(s, p);
    case End(p) => TermKeeps(s, p);
    case Begin(p) => StartKeeps(s, p);
  }

  /** A run from `s`: every event can happen when it does. */
  ghost predicate Runs(s: Memory, events: seq<Event>)
    requires Inv(s)
    decreases |events|
  {
    events == [] ||
    (Enabled(s, events[0]) && Inv(Step(s, events[0])) && Runs(Step(s, events[0]), events[1..]))
  }

  ghost function After(s: Memory, events: seq<Event>): (r: Memory)
    requires Inv(s) && Runs(s, events)
    ensures Inv(r)
    decreases |events|
  {
    if events == [] then s else After(Step(s, events[0]), events[1..])
  }

  function IdealAfter(m: Ideal, events: seq<Event>): Ideal
    decreases |events|
  {
    if events == [] then m else IdealAfter(IdealStep(m, events[0]), events[1..])
  }

  /** In every run, through faults, evictions, flushes and switches, every live process sees its own memory. */
  lemma {:induction false} EveryRunShows(s: Memory, m: Ideal, events: seq<Event>)
    requires Inv(s) && Shows(s, m) && Runs(s, events)
    ensures Inv(After(s, events)) && Shows(After(s, events), IdealAfter(m, events))
    decreases |events|
  {
    if events == [] {
    } else {
      StepKeeps(s, m, events[0]);
      EveryRunShows(Step(s, events[0]), IdealStep(m, events[0]), events[1..]);
    }
  }

  /** And the next thing it reads, if it is a page that it has, is what it last wrote there. */
  lemma ReadsItsOwn(s: Memory, m: Ideal, events: seq<Event>, v: nat, init: Page)
    requires Inv(s) && Shows(s, m) && Runs(s, events) && CanHave(After(s, events), v)
    ensures Inv(After(s, events))
    ensures var s' := Step(After(s, events), Access(v, None, init)); var m' := IdealAfter(m, events);
            Some(s'.mem[v]) == if Get(m', m'.current, v) == None then Some(init) else Get(m', m'.current, v)
  {
    EveryRunShows(s, m, events);
    var s1, m1 := After(s, events), IdealAfter(m, events);
    AccessKeeps(s1, m1, v, None, init);
    Loads(Step(s1, Access(v, None, init)), v);
  }

  /** The start: all frames are free, and no process has a page. */
  function Boot(nentries: nat, npages: nat, nframes: nat, nprocs: nat): Memory
    requires nentries > 0 && nprocs > 0
  {
    Memory(seq(nentries, _ => Unused), 0, seq(npages, _ => []), seq(nframes, _ => []),
           seq(nprocs, p => Process(p == 0, seq(npages, _ => Uninit))), seq(nframes, f => f), 0)
  }

  lemma Boots(nentries: nat, npages: nat, nframes: nat, nprocs: nat)
    requires nentries > 0 && nprocs > 0
    ensures var s := Boot(nentries, npages, nframes, nprocs);
            Inv(s) && Shows(s, Ideal(seq(nprocs, _ => seq(npages, _ => None)), 0))
  {
    var s := Boot(nentries, npages, nframes, nprocs);
    assert Shaped(s);
    forall f | 0 <= f < |s.frames| ensures f in s.free {
      assert s.free[f] == f;
    }
  }
}
