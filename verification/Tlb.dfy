/** The TLB of earth/tlb.c and the page faults of grass/process.c, in place on the arrays of entries, pages and
    frames. */
module Tlb {
  import opened Options
  import opened Paging

  class Mmu {
    const entries: array<Entry>
    const mem: array<Page>
    const frames: array<Page>
    var slot: nat
    var procs: seq<Process>
    var free: seq<nat>
    var current: nat

    ghost function State(): Memory
      reads this, entries, mem, frames
    {
      Memory(entries[..], slot, mem[..], frames[..], procs, free, current)
    }

    ghost predicate Valid()
      reads this, entries, mem, frames
    {
      mem != frames && Inv(State())
    }

    /** A machine whose frames are all free. */
    constructor (nentries: nat, npages: nat, nframes: nat, nprocs: nat)
      requires nentries > 0 && nprocs > 0
      ensures Valid() && State() == Boot(nentries, npages, nframes, nprocs)
    {
      entries := new Entry[nentries](_ => Unused);
      mem := new Page[npages](_ => []);
      frames := new Page[nframes](_ => []);
      slot, current := 0, 0;
      procs := seq(nprocs, p => Process(p == 0, seq(npages, _ => Uninit)));
      free := seq(nframes, f => f);
      new;
      Boots(nentries, npages, nframes, nprocs);
      assert State() == Boot(nentries, npages, nframes, nprocs);
    }

    /** Finds the entry of a page. */
    method TlbGetEntry(virt: nat) returns (index: int)
      ensures index == GetEntry(entries[..], virt)
    {
      var i := 0;
      while i < entries.Length
        invariant i <= entries.Length && GetEntry(entries[..], virt) == GetEntryFrom(entries[..], virt, i)
      {
        if entries[i].Mapped? && entries[i].virt == virt {
          return i;
        }
        i := i + 1;
      }
      return -1;
    }

    /** Writes the page of an entry back if it may have changed. */
    method TlbSyncEntry(i: nat)
      requires Valid() && i < entries.Length
      modifies frames
      ensures Valid() && EntryOk(old(State()), i) && State() == SyncEntry(old(State()), i)
    {
      SyncKeeps(State(), i);
      hide EntriesOk, FramesOk;
      if entries[i].Mapped? && entries[i].writable {
        frames[entries[i].frame] := mem[entries[i].virt];
      }
      assert State() == SyncEntry(old(State()), i);
    }

    method TlbFlushEntry(i: nat)
      requires Valid() && i < entries.Length
      modifies entries, frames
      ensures Valid() && EntryOk(old(State()), i) && State() == FlushEntry(old(State()), i)
    {
      FlushKeeps(State(), i);
      hide EntriesOk, FramesOk;
      if entries[i] == Unused {
        assert State() == FlushEntry(old(State()), i);
        return;
      }
      TlbSyncEntry(i);
      entries[i] := Unused;
      assert State() == FlushEntry(old(State()), i);
    }

    /** Flushes the entries of a page, or all of them. */
    method FlushChosen(only: Option<nat>)
      requires Valid()
      modifies entries, frames
      ensures Valid() && State() == FlushFrom(old(State()), 0, only)
    {
      hide EntriesOk, FramesOk;
      var i: nat := 0;
      while i < entries.Length
        invariant Valid() && i <= entries.Length
        invariant FlushFrom(State(), i, only) == FlushFrom(old(State()), 0, only)
      {
        FlushKeeps(State(), i);
        if Chosen(entries[i], only) {
          TlbFlushEntry(i);
        }
        i := i + 1;
      }
    }

    method TlbUnmap(virt: nat)
      requires Valid()
      modifies entries, frames
      ensures Valid() && State() == FlushFrom(old(State()), 0, Some(virt))
    {
      FlushChosen(Some(virt));
    }

    method TlbFlush()
      requires Valid()
      modifies entries, frames
      ensures Valid() && State() == FlushFrom(old(State()), 0, None)
    {
      FlushChosen(None);
    }

    method TlbSync()
      requires Valid()
      modifies frames
      ensures Valid() && State() == SyncFrom(old(State()), 0)
    {
      hide EntriesOk, FramesOk;
      var i: nat := 0;
      while i < entries.Length
        invariant Valid() && i <= entries.Length
        invariant SyncFrom(State(), i) == SyncFrom(old(State()), 0)
      {
        SyncKeeps(State(), i);
        TlbSyncEntry(i);
        i := i + 1;
      }
    }

    /** Maps a page of the current process that no other entry maps. */
    method TlbMap(i: nat, virt: nat, frame: nat, writable: bool)
      requires Valid() && i < entries.Length && Holds(State(), current, virt, frame)
      requires forall j | 0 <= j < entries.Length && j != i && entries[j].Mapped? :: entries[j].virt != virt
      modifies entries, mem, frames
      ensures Valid() && EntryOk(old(State()), i) && frame < frames.Length && State() == Map(old(State()), i, virt, frame, writable)
    {
      MapKeeps(State(), i, virt, frame, writable);
      hide EntriesOk, FramesOk;
      TlbFlushEntry(i);
      entries[i] := Mapped(virt, frame, writable);
      mem[virt] := frames[frame];
      assert State() == Map(old(State()), i, virt, frame, writable);
    }

    /** The page gets the first free frame, which is filled. */
    method FrameAlloc(page: nat, init: Page)
      requires Valid() && CanHave(State(), page) && procs[current].pages[page].Uninit?
      modifies this`procs, this`free, frames
      ensures Valid() && State() == Assign(old(State()), page, init)
    {
      AssignKeeps(State(), page, init);
      hide EntriesOk, FramesOk;
      var frame := free[0];
      free := free[1..];
      procs := procs[current := WithPage(procs[current], page, PageInfo.Valid(frame))];
      frames[frame] := init;
      assert State() == Assign(old(State()), page, init);
    }

    /** A page fault of the current process. */
    method ProcPagefault(page: nat, update: bool, init: Page)
      requires Valid() && procs[current].alive && (page < mem.Length ==> CanHave(State(), page))
      modifies this`procs, this`free, this`slot, entries, mem, frames
      ensures Valid()
      ensures State() == if page < mem.Length then Fault(old(State()), page, update, init) else Term(old(State()), current)
    {
      hide EntriesOk, FramesOk, Map, Term;
      if page >= mem.Length {
        ProcTerm(current);
        return;
      }
      FaultKeeps(State(), page, update, init);
      var index := TlbGetEntry(page);
      if procs[current].pages[page].Uninit? {
        NotMapped(State(), page);
        assert index < 0;
        FrameAlloc(page, init);
      }
      MapResident(index, page, update);
    }

    /** Maps a page that has a frame, in its entry or the next one. */
    method MapResident(found: int, page: nat, update: bool)
      requires Valid() && page < mem.Length && procs[current].alive && procs[current].pages[page].Valid?
      requires found == GetEntry(entries[..], page)
      modifies this`slot, entries, mem, frames
      ensures Valid() && State() == MapPage(old(State()), page, update)
    {
      hide EntriesOk, FramesOk;
      ghost var s := State();
      MapPageKeeps(s, page, update);
      OneEntry(s, page);
      var index := found;
      if index < 0 {
        index := slot;
        NextSlot(s, (slot + 1) % entries.Length);
        slot := (slot + 1) % entries.Length;
        assert State() == s.(slot := (s.slot + 1) % |s.entries|);
      }
      TlbMap(index, page, procs[current].pages[page].frame, update);
    }

    /** What a process reads and writes through an entry. */
    method Load(page: nat) returns (x: Page)
      requires Valid() && page < mem.Length && GetEntry(entries[..], page) >= 0
      ensures View(State(), current, page) == Some(x)
    {
      Loads(State(), page);
      x := mem[page];
    }

    method Store(page: nat, x: Page)
      requires Valid() && page < mem.Length && CanWrite(State(), page)
      modifies mem
      ensures Valid() && State() == old(State()).(mem := old(mem[..])[page := x])
    {
      Stores(State(), page, x);
      mem[page] := x;
      assert mem[..] == old(mem[..])[page := x];
    }

    /** After a context switch: the pages of the process before are written back, and nothing is mapped. */
    method ProcAfterSwitch(next: nat)
      requires Valid() && next < |procs|
      modifies this`current, entries, frames
      ensures Valid() && State() == Switch(old(State()), next)
    {
      SwitchKeeps(State(), next);
      hide EntriesOk, FramesOk;
      TlbFlush();
      current := next;
    }

    /** Gives back the frames of a process that ends. */
    method ProcTerm(p: nat)
      requires Valid() && p < |procs| && procs[p].alive
      modifies this`procs, this`free, entries, frames
      ensures Valid() && State() == Term(old(State()), p)
    {
      TermKeeps(State(), p);
      FreePagesKeeps(State(), p, 0);
      hide EntriesOk, FramesOk;
      var i: nat := 0;
      while i < mem.Length
        invariant Valid() && i <= mem.Length && p < |procs| && procs[p].alive
        invariant FreePages(State(), p, i) == FreePages(old(State()), p, 0)
      {
        FreePageKeeps(State(), p, i);
        ReleasePage(p, i);
        i := i + 1;
      }
      procs := procs[p := procs[p].(alive := false)];
    }

    method ReleasePage(p: nat, i: nat)
      requires Valid() && p < |procs| && procs[p].alive && i < mem.Length
      modifies this`procs, this`free, entries, frames
      ensures Valid() && State() == FreePage(old(State()), p, i)
    {
      FreePageKeeps(State(), p, i);
      FlushFromKeeps(State(), 0, Some(i));
      hide EntriesOk, FramesOk;
      if procs[p].pages[i].Valid? {
        var frame := procs[p].pages[i].frame;
        TlbUnmap(i);
        free := free + [frame];
        procs := procs[p := WithPage(procs[p], i, Uninit)];
      }
      assert State() == FreePage(old(State()), p, i);
    }
  }
}
