/** Runs of the process machine: whatever processes do and whatever the devices deliver, in any order. */
module ProcessRuns {
  import opened Processes
  import opened ProcessInvariant

  // ---------------------------------------------------------------- the start

  function FreeProc(pid: nat): Proc {
    NewProc(pid, 0, 0).(state := Free)
  }

  function FreeTable(n: nat): (procs: seq<Proc>)
    ensures |procs| == n && forall i | 0 <= i < n :: procs[i] == FreeProc(i)
  {
    if n == 0 then [] else FreeTable(n - 1) + [FreeProc(n - 1)]
  }

  /** The slots from `i` to the last one. */
  function Slots(i: nat, n: nat): (s: seq<nat>)
    requires i <= n
    ensures |s| == n - i && forall j | 0 <= j < |s| :: s[j] == i + j
    decreases n - i
  {
    if i == n then [] else [i] + Slots(i + 1, n)
  }

  /** The kernel after it has set up a table of `n` slots and its first process, which runs in slot 0. */
  function Boot(n: nat): (k: Kernel)
    requires n > 0
    ensures Shaped(k) && k.phase == Running
  {
    Kernel(FreeTable(n)[0 := NewProc(1, 0, 1)], Slots(1, n), [[], [], []], 0, 1, 1, 2, false, 0, Running)
  }

  lemma {:induction false} NobodyInTable(n: nat)
    ensures CountUsed(FreeTable(n)) == 0 && CountRunnable(FreeTable(n)) == 0
  {
    if n == 0 {
    } else {
      NobodyInTable(n - 1);
      assert FreeTable(n)[..n - 1] == FreeTable(n - 1);
    }
  }

  lemma BootedTable(n: nat, i: nat)
    requires i < n
    ensures Boot(n).procs[i] == if i == 0 then NewProc(1, 0, 1) else FreeProc(i)
  {
  }

  lemma BootedQueues(n: nat)
    requires n > 0
    ensures QueuesOk(Boot(n), -1)
  {
    forall i | 0 < i < n ensures Boot(n).procs[i].state == Free {
      BootedTable(n, i);
    }
  }

  lemma BootedFree(n: nat)
    requires n > 0
    ensures FreeOk(Boot(n))
  {
    var k := Boot(n);
    forall i | 0 < i < n ensures k.procs[i].state == Free && Has(k.freeSlots, i) {
      BootedTable(n, i);
      assert k.freeSlots[i - 1] == i;
    }
  }

  lemma BootedPids(n: nat)
    requires n > 0
    ensures PidsOk(Boot(n)) && CallsOk(Boot(n), -1)
    ensures forall i | 0 <= i < n && Live(Boot(n).procs[i]) :: BoxesOk(Boot(n).procs[i])
  {
    forall i | 0 < i < n ensures Boot(n).procs[i].state == Free {
      BootedTable(n, i);
    }
  }

  lemma BootedCounts(n: nat)
    requires n > 0
    ensures CountsOk(Boot(n))
  {
    NobodyInTable(n);
    CountUpdate(FreeTable(n), 0, NewProc(1, 0, 1));
  }

  lemma Booted(n: nat)
    requires n > 0
    ensures Inv(Boot(n))
  {
    BootedQueues(n);
    BootedFree(n);
    BootedPids(n);
    BootedCounts(n);
    hide QueuesOk, FreeOk, CountsOk, PidsOk, CallsOk;
  }

  // ---------------------------------------------------------------- steps

  /** What can happen next: messages from processes and interrupt handlers, the system calls of the current
      process, kills, clock ticks, rounds of the scheduler. */
  datatype Happening =
    | Deliver(src: nat, uid: nat, dst: nat, mtype: MsgType, contents: seq<int>)
    | Receiving(mtype: MsgType, now: nat, maxTime: nat)
    | Calling(server: nat, contents: seq<int>, now: nat)
    | Resuming
    | Exiting(status: int)
    | Spawning(owner: nat, uid: nat)
    | Killing(killer: nat, pid: nat, status: int)
    | Ticking
    | Yielding
    | Marking(interruptable: bool)
    | Shutdown(now: nat)
    | Dispatching(now: nat)

  /** The current process runs its own code. */
  predicate AtLarge(k: Kernel)
    requires Shaped(k)
  {
    k.phase == Running && Live(k.procs[k.current]) && k.procs[k.current].resume == Ready
  }

  function Step(k: Kernel, h: Happening): (r: Kernel)
    requires Shaped(k)
    ensures Shaped(r) && Aged(k, r) && (h != Resuming ==> MailKept(k, r))
  {
    if k.phase == Halted then k
    else match h
      case Deliver(src, uid, dst, t, contents) => Send(k, src, uid, dst, t, contents)
      case Receiving(t, now, maxTime) => if AtLarge(k) && t != Reply then Recv(k, Receive(t), now, maxTime) else k
      case Calling(server, contents, now) => if AtLarge(k) then Rpc(k, server, contents, now) else k
      case Resuming => if k.phase == Running then Finish(k).0 else k
      case Exiting(status) => if AtLarge(k) then Term(k, k.current, status) else k
      case Spawning(owner, uid) => if AtLarge(k) then Create(k, owner, uid) else k
      case Killing(killer, pid, status) => Kill(k, killer, pid, status)
      case Ticking => if AtLarge(k) then Tick(k) else k
      case Yielding => if AtLarge(k) then Yield(k) else k
      case Marking(b) => if AtLarge(k) then Put(k, k.current, k.procs[k.current].(interruptable := b)) else k
      case Shutdown(now) => k.(shuttingDown := true, curfew := now + 3000)
      case Dispatching(now) => if k.phase == Scheduling then Round(k, now) else k
  }

  lemma Marked(k: Kernel, b: bool)
    requires Inv(k)
    ensures Inv(Put(k, k.current, k.procs[k.current].(interruptable := b)))
  {
    assert Live(k.procs[k.current]) ==> BoxesOk(k.procs[k.current]);
    SameState(k, k.current, k.procs[k.current].(interruptable := b), -1, -1);
  }

  lemma ShutDown(k: Kernel, now: nat)
    requires Inv(k)
    ensures Inv(k.(shuttingDown := true, curfew := now + 3000))
  {
    CallsSame(k, k.(shuttingDown := true, curfew := now + 3000));
  }

  lemma CurrentRuns(k: Kernel)
    requires Inv(k) && k.phase == Running
    ensures Live(k.procs[k.current])
  {
  }

  lemma StepKeeps(k: Kernel, h: Happening)
    requires Shaped(k) && Inv(k)
    ensures Inv(Step(k, h))
  {
    hide Inv;
    if k.phase != Halted {
      match h
      case Deliver(src, uid, dst, t, contents) => Sent(k, src, uid, dst, t, contents, -1, -1);
      case Receiving(t, now, maxTime) => if AtLarge(k) && t != Reply { Received(k, Receive(t), now, maxTime); }
      case Calling(server, contents, now) => if AtLarge(k) { Called(k, server, contents, now); }
      case Resuming => if k.phase == Running { Finished(k); }
      case Exiting(status) => if AtLarge(k) { CurrentRuns(k); Terminated(k, k.current, status); }
      case Spawning(owner, uid) => if AtLarge(k) { Started(k, owner, uid); }
      case Killing(killer, pid, status) => Killed(k, killer, pid, status);
      case Ticking => if AtLarge(k) { Ticked(k); }
      case Yielding => if AtLarge(k) { Yielded(k); }
      case Marking(b) => if AtLarge(k) { Marked(k, b); }
      case Shutdown(now) => ShutDown(k, now);
      case Dispatching(now) => if k.phase == Scheduling { Rounded(k, now); }
    }
  }

  function Run(k: Kernel, hs: seq<Happening>): (r: Kernel)
    requires Shaped(k)
    ensures Shaped(r) && Aged(k, r)
  {
    if hs == [] then k else Step(Run(k, hs[..|hs| - 1]), hs[|hs| - 1])
  }

  /** The invariant holds in every run of the kernel. */
  lemma {:induction false} RunKeeps(n: nat, hs: seq<Happening>)
    requires n > 0
    ensures Inv(Run(Boot(n), hs))
  {
    hide Inv;
    if hs == [] {
      Booted(n);
    } else {
      RunKeeps(n, hs[..|hs| - 1]);
      StepKeeps(Run(Boot(n), hs[..|hs| - 1]), hs[|hs| - 1]);
    }
  }

  /** A process id that is dead at some point of a run is dead for the rest of it. */
  lemma DeadStaysDead(k: Kernel, hs: seq<Happening>, pid: nat)
    requires Shaped(k) && pid < k.pidGen && !LivePid(k, pid)
    ensures !LivePid(Run(k, hs), pid)
  {
    assert Aged(k, Run(k, hs));
  }

  /** Whoever waits for a reply, at any point of any run, waits for a live process other than itself. */
  lemma NobodyWaitsForTheDead(n: nat, hs: seq<Happening>, i: nat)
    requires n > 0 && i < n
    ensures var k := Run(Boot(n), hs);
            k.procs[i].state == Waiting && k.procs[i].reply.waiting ==>
              k.procs[i].reply.messages == [] && LivePid(k, k.procs[i].server) && k.procs[i].server != k.procs[i].pid
  {
    RunKeeps(n, hs);
    var k := Run(Boot(n), hs);
    assert Live(k.procs[i]) ==> BoxesOk(k.procs[i]);
  }

  /** A process that starts a call, at any point of any run, has no reply waiting for it. */
  lemma NoReplyBeforeTheCall(n: nat, hs: seq<Happening>)
    requires n > 0
    ensures var k := Run(Boot(n), hs); AtLarge(k) ==> k.procs[k.current].reply.messages == []
  {
    RunKeeps(n, hs);
    hide Inv;
    var k := Run(Boot(n), hs);
    if AtLarge(k) {
      NoReplyYet(k);
    }
  }

  /** A dispatch from `k` to `k'`: the scheduler, once it has woken up who is due, has switched to the first in
      line that can run, the oldest runnable process of the highest level that has one.  With none in line the
      current process goes on if it can. */
  ghost predicate RanTheFirst(k: Kernel, now: nat, k': Kernel)
    requires Shaped(k)
  {
    var k0 := ScanAll(k, now, 0);
    var (k1, next) := Pick(k0, 0);
    && FirstInLine(k0.procs, Lineup(k0, 0), next, Lineup(k1, 0))
    && (next.Some? ==> k'.phase == Running && k'.current == next.value)
    && (next.None? && k0.procs[k0.current].state == Runnable ==> k'.phase == Running && k'.current == k0.current)
  }

  /** The scheduler does nothing to a process that can run when it passes over the dead. */
  lemma {:induction false} PickLeavesRunnable(k: Kernel, l: nat, c: nat)
    requires Shaped(k) && c < |k.procs| && k.procs[c].state == Runnable
    ensures Pick(k, l).0.procs[c] == k.procs[c]
    decreases MLFQ_LEVELS - l, if l < MLFQ_LEVELS then |k.mlfq[l]| else 0
  {
    if l >= MLFQ_LEVELS {
    } else if k.mlfq[l] == [] {
      PickLeavesRunnable(k, l + 1, c);
    } else if k.procs[k.mlfq[l][0]].state != Runnable {
      PickLeavesRunnable(Release(Popped(k, l), k.mlfq[l][0]), l, c);
    }
  }

  lemma RoundRunsTheFirst(k: Kernel, now: nat)
    requires Shaped(k) && Inv(k) && (k.curfew == 0 || now <= k.curfew)
    ensures RanTheFirst(k, now, Round(k, now))
  {
    hide Inv, FirstInLine, Lineup, SwitchTo, FailCalls;
    AllScanned(k, now, 0);
    var k0 := ScanAll(k, now, 0);
    PickIsFirst(k0, 0);
    if k0.procs[k0.current].state == Runnable {
      PickLeavesRunnable(k0, 0, k0.current);
    }
  }

  lemma RoundOfRun(k: Kernel, hs: seq<Happening>, now: nat)
    requires Shaped(k) && Run(k, hs).phase == Scheduling
    ensures Run(k, hs + [Dispatching(now)]) == Round(Run(k, hs), now)
  {
    hide Round;
    assert (hs + [Dispatching(now)])[..|hs|] == hs;
  }

  /** In any run of the kernel, a round of the scheduler runs the first in line. */
  lemma DispatchesTheFirst(n: nat, hs: seq<Happening>, now: nat)
    requires n > 0 && Run(Boot(n), hs).phase == Scheduling
    requires Run(Boot(n), hs).curfew == 0 || now <= Run(Boot(n), hs).curfew
    ensures RanTheFirst(Run(Boot(n), hs), now, Run(Boot(n), hs + [Dispatching(now)]))
  {
    hide Inv, RanTheFirst, Round, Boot, Run, Step;
    RunKeeps(n, hs);
    RoundOfRun(Boot(n), hs, now);
    RoundRunsTheFirst(Run(Boot(n), hs), now);
  }
}
