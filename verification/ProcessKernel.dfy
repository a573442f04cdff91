/** The kernel's global state and the routines that change it, as in grass/process.c and grass/procsys.c.  The
    assertions in the bodies are the ones in the source. */
module ProcessKernel {
  import opened Options
  import opened Processes
  import opened ProcessInvariant
  import opened ProcessAlarms
  import opened ProcessRuns

  class Machine {
    const procs: array<Proc>
    var freeSlots: seq<nat>
    var mlfq: seq<seq<nat>>
    var current: nat
    var nprocs: int
    var nrunnable: int
    var pidGen: nat
    var shuttingDown: bool
    var curfew: nat
    var phase: Phase

    ghost function State(): Kernel
      reads this, procs
    {
      Kernel(procs[..], freeSlots, mlfq, current, nprocs, nrunnable, pidGen, shuttingDown, curfew, phase)
    }

    /** Sets up the process table and the first process. */
    constructor ()
      ensures State() == Boot(MAX_PROCS) && fresh(procs)
    {
      procs := new Proc[MAX_PROCS](i requires 0 <= i < MAX_PROCS => if i == 0 then NewProc(1, 0, 1) else FreeProc(i));
      freeSlots := Slots(1, MAX_PROCS);
      mlfq := [[], [], []];
      current := 0;
      nprocs := 1;
      nrunnable := 1;
      pidGen := 2;
      shuttingDown := false;
      curfew := 0;
      phase := Running;
      new;
      assert procs[..] == FreeTable(MAX_PROCS)[0 := NewProc(1, 0, 1)];
    }

    method Set(i: nat, p: Proc)
      requires i < procs.Length
      modifies procs
      ensures State() == Put(old(State()), i, p)
    {
      procs[i] := p;
      assert procs[..] == old(procs[..])[i := p];
    }

    method ProcFind(pid: nat) returns (r: Option<nat>)
      ensures r == Find(procs[..], pid)
    {
      var i := 0;
      while i < procs.Length
        invariant 0 <= i <= procs.Length && Find(procs[..], pid) == FindFrom(procs[..], pid, i)
      {
        if procs[i].state != Free && procs[i].pid == pid {
          return Some(i);
        }
        i := i + 1;
      }
      r := None;
    }

    method ProcToRunQueue(i: nat)
      requires Shaped(State()) && i < procs.Length && procs[i].state == Runnable
      modifies this`mlfq
      ensures State() == ToRunQueue(old(State()), i)
    {
      var l := procs[i].level;
      mlfq := mlfq[l := mlfq[l] + [i]];
    }

    /** Sends a message. */
    method ProcSend(srcPid: nat, srcUid: nat, dstPid: nat, t: MsgType, contents: seq<int>, ghost loose: int, ghost dying: int)
      returns (ok: bool)
      requires Inv(State(), loose, dying)
      modifies this`mlfq, this`nrunnable, procs
      ensures State() == Send(old(State()), srcPid, srcUid, dstPid, t, contents)
      ensures ok <==> SendTarget(old(State()), srcPid, dstPid, t).Some?
    {
      hide QueuesOk, FreeOk, CountsOk, PidsOk, CallsOk, Aged, MailKept;
      var dst := ProcFind(dstPid);
      if dst == None || procs[dst.value].state == Zombie {
        return false;
      }
      var i := dst.value;
      if t == Reply && (procs[i].state != Waiting || !procs[i].reply.waiting || procs[i].server != srcPid) {
        return false;
      }
      assert BoxesOk(procs[i]);
      ProcDeliver(i, t, Message(srcPid, srcUid, contents));
      ok := true;
    }

    /** Puts a message in a mailbox, and wakes up the process if it waits for one there. */
    method ProcDeliver(i: nat, t: MsgType, m: Message)
      requires Shaped(State()) && i < procs.Length && Live(procs[i]) && BoxesOk(procs[i])
      modifies this`mlfq, this`nrunnable, procs
      ensures State() == SendTo(old(State()), i, t, m)
    {
      hide Aged, MailKept, Delivered;
      var p := Delivered(procs[i], t, m);
      if !procs[i].Box(t).waiting {
        Set(i, p);
        return;
      }
      assert procs[i].state == Waiting;
      p := Awake(p);
      if i != current && p.level > 0 {
        p := p.(level := p.level - 1);
      }
      Set(i, p);
      nrunnable := nrunnable + 1;
      if i != current {
        ProcToRunQueue(i);
      }
    }

    method ProcWakeup(i: nat)
      requires Shaped(State()) && i < procs.Length && procs[i].state == Waiting
      modifies this`mlfq, this`nrunnable, procs
      ensures State() == Wakeup(old(State()), i)
    {
      Set(i, Quiet(Awake(procs[i])));
      nrunnable := nrunnable + 1;
      if i != current {
        ProcToRunQueue(i);
      }
    }

    method ProcRelease(i: nat)
      requires Shaped(State()) && i < procs.Length && procs[i].state == Zombie
      modifies this`nprocs, this`freeSlots, procs
      ensures State() == Release(old(State()), i)
    {
      var p := procs[i];
      Set(i, p.(state := Free, request := p.request.(messages := []), reply := p.reply.(messages := []),
                event := p.event.(messages := [])));
      nprocs := nprocs - 1;
      freeSlots := freeSlots + [i];
    }

    /** The end of a live process. */
    method ProcTerm(i: nat, status: int)
      requires Inv(State()) && i < procs.Length && Live(procs[i])
      modifies this`mlfq, this`nrunnable, this`phase, procs
      ensures State() == Term(old(State()), i, status)
    {
      ghost var k := State();
      UsedSlot(k, i);
      hide QueuesOk, FreeOk, CountsOk, PidsOk, CallsOk, BoxesOk, Aged, MailKept;
      assert nprocs > 0;
      var p := procs[i];
      ProcDie(i);
      Died(k, i);
      ghost var loose: int := if p.state == Waiting && i != current then i else -1;
      Sent(State(), p.pid, p.uid, p.owner, Event, [MEV_PROCDIED, p.pid, status], loose, p.pid);
      var _ := ProcSend(p.pid, p.uid, p.owner, Event, [MEV_PROCDIED, p.pid, status], loose, p.pid);
      FailAll(p.pid);
    }

    method ProcDie(i: nat)
      requires Shaped(State()) && i < procs.Length
      modifies this`nrunnable, this`phase, procs
      ensures State() == Die(old(State()), i)
    {
      if procs[i].state == Runnable {
        nrunnable := nrunnable - 1;
      }
      Set(i, procs[i].(state := Zombie));
      if i == current && phase == Running {
        phase := Scheduling;
      }
    }

    method FailAll(pid: nat)
      requires Shaped(State())
      modifies this`mlfq, this`nrunnable, procs
      ensures State() == FailCalls(old(State()), pid, 0)
    {
      hide Aged, MailKept;
      var i := 0;
      while i < procs.Length
        invariant 0 <= i <= procs.Length && Shaped(State())
        invariant FailCalls(old(State()), pid, 0) == FailCalls(State(), pid, i)
      {
        if WaitsFor(procs[i], pid) {
          ProcWakeup(i);
        }
        i := i + 1;
      }
    }

    /** What killing a process takes depends on its state. */
    method ProcZap(killerUid: Option<nat>, i: nat, status: int)
      requires Inv(State()) && i < procs.Length && procs[i].state != Free
      modifies this`mlfq, this`nrunnable, this`phase, this`nprocs, this`freeSlots, procs
      ensures State() == Zap(old(State()), killerUid, i, status)
    {
      if killerUid.Some? && killerUid.value != 0 && killerUid.value != procs[i].uid {
        return;
      }
      UsedSlot(State(), i);
      assert nprocs > 0;
      match procs[i].state {
        case Runnable => ProcTerm(i, status);
        case Waiting =>
          Terminated(State(), i, status);
          ProcTerm(i, status);
          if i != current {
            ProcRelease(i);
          }
        case Zombie =>
        case Free =>
      }
    }

    method KillAllInterruptable(killerUid: nat, status: int)
      requires Shaped(State()) && Inv(State())
      modifies this`mlfq, this`nrunnable, this`phase, this`nprocs, this`freeSlots, procs
      ensures State() == KillAll(old(State()), killerUid, status, 0)
    {
      hide Inv, Zap, Aged, MailKept;
      var i := 0;
      while i < procs.Length
        invariant 0 <= i <= procs.Length && Shaped(State()) && Inv(State())
        invariant KillAll(old(State()), killerUid, status, 0) == KillAll(State(), killerUid, status, i)
      {
        if procs[i].state != Free && procs[i].interruptable {
          Zapped(State(), Some(killerUid), i, status);
          ProcZap(Some(killerUid), i, status);
        }
        i := i + 1;
      }
    }

    method ProcKill(killer: nat, pid: nat, status: int)
      requires Shaped(State()) && Inv(State())
      modifies this`mlfq, this`nrunnable, this`phase, this`nprocs, this`freeSlots, procs
      ensures State() == Kill(old(State()), killer, pid, status)
    {
      hide Inv;
      var k := ProcFind(killer);
      if k == None {
        return;
      }
      if pid == 0 {
        KillAllInterruptable(procs[k.value].uid, status);
        if procs[current].state == Zombie && phase == Running {
          phase := Scheduling;
        }
        return;
      }
      var p := ProcFind(pid);
      if p != None {
        ProcZap(Some(procs[k.value].uid), p.value, status);
        if procs[p.value].state == Zombie && phase == Running {
          phase := Scheduling;
        }
      }
    }

    /** Starts to wait for a message of the current process. */
    method ProcRecv(resume: Resume, now: nat, maxTime: nat)
      requires Inv(State()) && phase == Running && procs[current].resume == Ready && resume != Ready
      modifies this`nrunnable, this`phase, procs
      ensures State() == Recv(old(State()), resume, now, maxTime)
    {
      var t := Awaited(resume).value;
      var p := procs[current];
      assert BoxesOk(p);
      assert p.state == Runnable;
      assert !p.Box(t).waiting;
      if p.Box(t).messages == [] {
        var p1 := Asleep(p, t, resume);
        if maxTime != 0 {
          p1 := p1.(exptime := now + maxTime, alarmSet := true);
        }
        Set(current, p1);
        nrunnable := nrunnable - 1;
        phase := Scheduling;
      } else {
        assert t != Reply;
        Set(current, p.(resume := resume));
      }
    }

    /** The rest of a receive, once the process runs again, with room for `size` of the contents.  A reply comes from the server of
        the call. */
    method ProcRecvEnd(size: nat) returns (m: Option<Message>, contents: seq<int>)
      requires Inv(State()) && phase == Running && procs[current].resume != Ready
      modifies procs
      ensures (State(), m) == Finish(old(State()))
      ensures m.Some? ==> contents <= m.value.contents && |contents| == if |m.value.contents| < size then |m.value.contents| else size
      ensures m == None ==> contents == []
    {
      var p := procs[current];
      assert BoxesOk(p);
      var t := Awaited(p.resume).value;
      assert !p.Box(t).waiting;
      assert p.state == Runnable;
      var box := p.Box(t);
      if box.messages == [] {
        Set(current, p.(resume := Ready));
        return None, [];
      }
      assert p.resume.Call? ==> box.messages[0].src == p.resume.server;
      Set(current, p.WithBox(t, box.(messages := box.messages[1..])).(resume := Ready));
      m := Some(box.messages[0]);
      contents := m.value.contents[..if |m.value.contents| < size then |m.value.contents| else size];
    }

    /** The remote procedure call, up to the point where the caller waits. */
    method SysRpc(server: nat, contents: seq<int>, now: nat) returns (ok: bool)
      requires Inv(State()) && phase == Running && procs[current].resume == Ready && Live(procs[current])
      modifies this`mlfq, this`nrunnable, this`phase, procs
      ensures State() == Rpc(old(State()), server, contents, now)
      ensures ok <==> phase == Scheduling
    {
      hide QueuesOk, FreeOk, CountsOk, PidsOk, CallsOk, Aged, MailKept;
      var p := procs[current];
      if server == p.pid {
        return false;
      }
      if SendTarget(State(), p.pid, server, Request).Some? {
        RequestSent(State(), server, contents);
      }
      ok := ProcSend(p.pid, p.uid, server, Request, contents, -1, -1);
      if !ok {
        return;
      }
      assert BoxesOk(p);
      ghost var k := State();
      SameState(k, current, p.(server := server), -1, -1);
      Set(current, procs[current].(server := server));
      ProcRecv(Call(server), now, 0);
    }

    method SysExit(status: int)
      requires Inv(State()) && phase == Running
      modifies this`mlfq, this`nrunnable, this`phase, procs
      ensures State() == Term(old(State()), current, status)
    {
      ProcTerm(current, status);
    }

    /** Starts a new process, which runs at once.  Process ids are words that must not run out. */
    method ProcCreate(owner: nat, uid: nat) returns (pid: nat)
      requires Inv(State()) && phase == Running && pidGen + 1 < Processes.WORD_LIMIT
      modifies this`freeSlots, this`mlfq, this`nprocs, this`nrunnable, this`pidGen, this`current, procs
      ensures State() == Create(old(State()), owner, uid)
      ensures pid == if current == old(current) then 0 else procs[current].pid
    {
      hide QueuesOk, FreeOk, CountsOk, PidsOk, CallsOk, Aged, MailKept;
      if shuttingDown {
        return 0;
      }
      var parent := ProcFind(owner);
      if parent == None {
        return 0;
      }
      var uid1 := if procs[parent.value].uid != 0 then procs[parent.value].uid else uid;
      if freeSlots == [] {
        return 0;
      }
      FreeSlot(State());
      var i := ProcAlloc(owner, uid1);
      pid := procs[i].pid;
      assert procs[current].state == Runnable;
      ProcToRunQueue(current);
      current := i;
    }

    /** Takes a free slot for a new process. */
    method ProcAlloc(owner: nat, uid: nat) returns (i: nat)
      requires Shaped(State()) && freeSlots != []
      modifies this`freeSlots, this`nprocs, this`nrunnable, this`pidGen, procs
      ensures State() == Alloc(old(State()), owner, uid) && i == old(freeSlots)[0]
    {
      i := freeSlots[0];
      freeSlots := freeSlots[1..];
      Set(i, NewProc(pidGen, uid, owner));
      pidGen := pidGen + 1;
      nprocs := nprocs + 1;
      nrunnable := nrunnable + 1;
    }

    // -------------------------------------------------------------- the scheduler

    /** Wakes whoever's alarm has rung, and finds the next alarm; when the system shuts down, kills everybody. */
    method ScanProcesses(now: nat) returns (next: nat)
      requires Shaped(State()) && Inv(State())
      modifies this`mlfq, this`nrunnable, this`phase, this`nprocs, this`freeSlots, procs
      ensures State() == ScanAll(old(State()), now, 0) && next == NextScan(old(State()), now, 0, now + 1000)
    {
      hide Inv, Aged, MailKept, SameRunner, FailCalls, Term, Send, Zap, Scan, Sooner, Wakeup, Shaped;
      next := now + 1000;
      var i := 0;
      while i < procs.Length
        invariant 0 <= i <= procs.Length && Shaped(State()) && Inv(State())
        invariant ScanAll(old(State()), now, 0) == ScanAll(State(), now, i)
        invariant NextScan(old(State()), now, 0, now + 1000) == NextScan(State(), now, i, next)
      {
        Scanned(State(), now, i);
        next := ScanOne(now, i, next);
        i := i + 1;
      }
    }

    method ScanOne(now: nat, i: nat, next0: nat) returns (next: nat)
      requires Inv(State()) && i < procs.Length
      modifies this`mlfq, this`nrunnable, this`phase, this`nprocs, this`freeSlots, procs
      ensures State() == Scan(old(State()), now, i) && next == Sooner(old(State()), i, next0)
    {
      next := next0;
      if shuttingDown && procs[i].state != Free {
        ProcZap(None, i, STAT_SHUTDOWN);
      } else if procs[i].state == Waiting && procs[i].alarmSet {
        var exptime := procs[i].exptime;
        if exptime <= now {
          ProcWakeup(i);
        }
        if exptime < next {
          next := exptime;
        }
      }
    }

    /** Takes processes off the queues until one is runnable. */
    method PickNext() returns (next: Option<nat>)
      requires Shaped(State()) && Inv(State())
      modifies this`mlfq, this`nprocs, this`freeSlots, procs
      ensures (State(), next) == Pick(old(State()), 0)
    {
      hide Inv, Aged, MailKept;
      next := None;
      var curLv := 0;
      while curLv < MLFQ_LEVELS
        invariant 0 <= curLv <= MLFQ_LEVELS && Shaped(State()) && Inv(State())
        invariant Pick(old(State()), 0) == Pick(State(), curLv)
        decreases MLFQ_LEVELS - curLv, if curLv < MLFQ_LEVELS then |mlfq[curLv]| else 0
      {
        if mlfq[curLv] == [] {
          curLv := curLv + 1;
        } else {
          var i := mlfq[curLv][0];
          TakenOff(State(), curLv);
          mlfq := mlfq[curLv := mlfq[curLv][1..]];
          if procs[i].state == Runnable {
            return Some(i);
          }
          assert procs[i].state == Zombie;
          Released(State(), i, -1);
          ProcRelease(i);
        }
      }
    }

    /** The switch to another process. */
    method ProcSwitch(next: nat)
      requires Inv(State(), next) && next < procs.Length && next != current && procs[next].state == Runnable
      modifies this`mlfq, this`nprocs, this`freeSlots, this`current, this`phase, procs
      ensures State() == SwitchTo(old(State()), next)
    {
      hide QueuesOk, FreeOk, CountsOk, CallsOk, BoxesOk, Aged, MailKept;
      assert procs[next].pid != procs[current].pid;
      Set(next, procs[next].(ticksLeft := Quantum(procs[next].level)));
      if procs[current].state == Runnable {
        ProcToRunQueue(current);
      }
      if procs[current].state == Zombie {
        ProcRelease(current);
      }
      current := next;
      phase := Running;
    }

    /** One round of the scheduler loop.  When there is nobody to run it returns how long to sleep: to the next alarm, and at most
        a second. */
    method ProcYieldRound(now: nat) returns (rest: nat)
      requires Shaped(State()) && Inv(State()) && phase == Scheduling
      modifies this`mlfq, this`nrunnable, this`phase, this`nprocs, this`freeSlots, this`current, procs
      ensures State() == Round(old(State()), now)
      ensures phase == Scheduling ==> NextAlarm(State().procs, now, now + rest)
    {
      hide Inv, SameRunner, Aged, MailKept, ScanAll, NextScan, Pick, SwitchTo, NextAlarm;
      rest := 0;
      if curfew != 0 && now > curfew {
        phase := Halted;
        return;
      }
      AllScanned(State(), now, 0);
      SleepsToTheAlarm(State(), now);
      ScanGoesOn(State(), now, 0);
      var alarm := ScanProcesses(now);
      Picked(State(), 0);
      var next := PickNext();
      if next != None {
        ProcSwitch(next.value);
        return;
      }
      SomeoneLeft(State());
      assert nprocs > 0;
      if procs[current].state == Runnable {
        phase := Running;
        return;
      }
      if nprocs == 1 && shuttingDown {
        phase := Halted;
        return;
      }
      rest := alarm - now;
    }

    method ClockTick()
      requires Inv(State()) && phase == Running
      modifies this`phase, procs
      ensures State() == Tick(old(State()))
    {
      var p := procs[current].(ticksLeft := procs[current].ticksLeft - 1);
      if p.ticksLeft == 0 {
        if p.level < MLFQ_LEVELS - 1 {
          p := p.(level := p.level + 1);
        }
        phase := Scheduling;
      }
      Set(current, p);
    }

    /** One step of a run: what happens is what the step function says, and the invariant is kept. */
    method Happens(h: Happening)
      requires Shaped(State()) && Inv(State()) && pidGen + 1 < Processes.WORD_LIMIT
      modifies this, procs
      ensures State() == Step(old(State()), h) && Inv(State())
    {
      hide Inv, Aged;
      StepKeeps(State(), h);
      hide Inv, Aged, MailKept;
      if phase == Halted {
        return;
      }
      match h
      case Shutdown(now) =>
        shuttingDown := true;
        curfew := now + 3000;
      case Deliver(src, uid, dst, t, contents) => var _ := ProcSend(src, uid, dst, t, contents, -1, -1);
      case Killing(killer, pid, status) => ProcKill(killer, pid, status);
      case Dispatching(now) => if phase == Scheduling { var _ := ProcYieldRound(now); }
      case Resuming =>
        var size: nat := *;
        if phase == Running && procs[current].resume != Ready { var _, _ := ProcRecvEnd(size); }
      case _ => if phase == Running && procs[current].resume == Ready && Live(procs[current]) { CurrentDoes(h); }
    }

    /** What the current process does of its own accord. */
    method CurrentDoes(h: Happening)
      requires Shaped(State()) && Inv(State()) && AtLarge(State()) && pidGen + 1 < Processes.WORD_LIMIT
      requires !h.Shutdown? && !h.Deliver? && !h.Killing? && !h.Dispatching? && !h.Resuming?
      modifies this, procs
      ensures State() == Step(old(State()), h)
    {
      hide Inv, Aged, MailKept;
      match h
      case Receiving(t, now, maxTime) => if t != Reply { ProcRecv(Receive(t), now, maxTime); }
      case Calling(server, contents, now) => var _ := SysRpc(server, contents, now);
      case Exiting(status) => SysExit(status);
      case Spawning(owner, uid) => var _ := ProcCreate(owner, uid);
      case Ticking => ClockTick();
      case Yielding => phase := Scheduling;
      case Marking(b) => Set(current, procs[current].(interruptable := b));
    }
  }

  lemma SomeoneLeft(k: Kernel)
    requires Inv(k)
    ensures k.nprocs > 0
  {
    CountPositive(k.procs, k.current);
  }

  lemma FreeSlot(k: Kernel)
    requires Inv(k) && k.freeSlots != []
    ensures k.procs[k.freeSlots[0]].state == Free
  {
  }

  lemma UsedSlot(k: Kernel, i: nat)
    requires Inv(k) && i < |k.procs| && k.procs[i].state != Free
    ensures k.nprocs > 0
  {
    CountPositive(k.procs, i);
  }
}
