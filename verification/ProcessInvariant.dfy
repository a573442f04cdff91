/** Every kernel routine keeps the invariant of the process machine. */
module ProcessInvariant {
  import opened Options
  import opened Processes

  function One(b: bool): nat { if b then 1 else 0 }

  lemma {:induction false} CountUpdate(procs: seq<Proc>, i: nat, p: Proc)
    requires i < |procs|
    ensures CountUsed(procs[i := p]) == CountUsed(procs) - One(procs[i].state != Free) + One(p.state != Free)
    ensures CountRunnable(procs[i := p]) == CountRunnable(procs) - One(procs[i].state == Runnable) + One(p.state == Runnable)
  {
    var n := |procs| - 1;
    assert procs[i := p][..n] == if i == n then procs[..n] else procs[..n][i := p];
    if i >= n {
    } else {
      CountUpdate(procs[..n], i, p);
    }
  }

  lemma {:induction false} CountPositive(procs: seq<Proc>, i: nat)
    requires i < |procs| && procs[i].state != Free
    ensures CountUsed(procs) > 0 && (procs[i].state == Runnable ==> CountRunnable(procs) > 0)
  {
    if i >= |procs| - 1 {
    } else {
      CountPositive(procs[..|procs| - 1], i);
    }
  }

  lemma HasMore(s: seq<nat>, x: nat, i: nat)
    requires Has(s, i) || x == i
    ensures Has(s + [x], i)
  {
    if x == i {
      assert (s + [x])[|s|] == i;
    } else {
      var j :| 0 <= j < |s| && s[j] == i;
      assert (s + [x])[j] == i;
    }
  }

  // ---------------------------------------------------------------- the parts of the invariant, one change at a time

  /** Nothing but slot `i` of the process table changes. */
  ghost predicate Edited(k: Kernel, k': Kernel, i: nat) {
    && i < |k.procs| == |k'.procs| && Shaped(k) && Shaped(k') && k'.procs == k.procs[i := k'.procs[i]]
    && k'.current == k.current && k'.pidGen == k.pidGen
  }

  lemma QueuesKept(k: Kernel, k': Kernel, i: nat, loose: int, loose': int)
    requires Edited(k, k', i) && k'.mlfq == k.mlfq && QueuesOk(k, loose)
    requires k'.procs[i].level == k.procs[i].level || i == k.current
    requires k.procs[i].state == Runnable || k.procs[i].state == Zombie ==>
      loose' == loose && (i == k.current || k'.procs[i].state == Runnable || k'.procs[i].state == Zombie)
    requires k.procs[i].state == Free || k.procs[i].state == Waiting ==>
      i == k.current || i == loose' || k'.procs[i].state == Free || k'.procs[i].state == Waiting
    requires loose' == loose || (loose == -1 && loose' == i)
    ensures QueuesOk(k', loose')
  {
  }

  lemma QueuesGrown(k: Kernel, k': Kernel, i: nat, loose: int)
    requires Edited(k, k', i) && QueuesOk(k, loose) && i != k.current && i != loose
    requires k.procs[i].state == Waiting && k'.procs[i].state == Runnable
    requires var l := k'.procs[i].level; k'.mlfq == k.mlfq[l := k.mlfq[l] + [i]]
    ensures QueuesOk(k', loose)
  {
    var l := k'.procs[i].level;
    forall c | 0 <= c < |k'.procs| && c != k.current && c != loose && (k'.procs[c].state == Runnable || k'.procs[c].state == Zombie)
      ensures Has(k'.mlfq[k'.procs[c].level], c)
    {
      if k'.procs[c].level == l {
        HasMore(k.mlfq[l], i, c);
      }
    }
  }

  lemma FreeKept(k: Kernel, k': Kernel, i: nat)
    requires Edited(k, k', i) && k'.freeSlots == k.freeSlots && FreeOk(k)
    requires k.procs[i].state == Free <==> k'.procs[i].state == Free
    ensures FreeOk(k')
  {
  }

  lemma PidsKept(k: Kernel, k': Kernel, i: nat)
    requires Edited(k, k', i) && PidsOk(k)
    requires k'.procs[i].pid == k.procs[i].pid && (k'.procs[i].state != Free ==> k.procs[i].state != Free)
    ensures PidsOk(k')
  {
  }

  lemma CountsKept(k: Kernel, k': Kernel, i: nat)
    requires Edited(k, k', i) && CountsOk(k)
    requires k'.nprocs == k.nprocs - One(k.procs[i].state != Free) + One(k'.procs[i].state != Free)
    requires k'.nrunnable == k.nrunnable - One(k.procs[i].state == Runnable) + One(k'.procs[i].state == Runnable)
    ensures CountsOk(k')
  {
    CountUpdate(k.procs, i, k'.procs[i]);
  }

  /** Live processes stay, so calls to them do. */
  lemma CallsKept(k: Kernel, k': Kernel, i: nat, dying: int)
    requires Edited(k, k', i) && CallsOk(k, dying)
    requires Live(k.procs[i]) && k.procs[i].pid != dying ==> Live(k'.procs[i]) && k'.procs[i].pid == k.procs[i].pid
    requires k'.procs[i].state == Waiting && k'.procs[i].reply.waiting ==>
      || (k.procs[i].state == Waiting && k.procs[i].reply.waiting && k'.procs[i].server == k.procs[i].server)
      || LivePid(k, k'.procs[i].server)
    ensures CallsOk(k', dying)
  {
    forall c | 0 <= c < |k.procs| && k'.procs[c].state == Waiting && k'.procs[c].reply.waiting
      ensures k'.procs[c].server == dying || LivePid(k', k'.procs[c].server)
    {
      var s := k'.procs[c].server;
      assert s == dying || LivePid(k, s);
      if s != dying {
        var j :| 0 <= j < |k.procs| && Live(k.procs[j]) && k.procs[j].pid == s;
        assert Live(k'.procs[j]) && k'.procs[j].pid == s;
      }
    }
  }

  // ---------------------------------------------------------------- one process changes

  /** A change that leaves state and pid of a process alone, and its level if it may be on a queue. */
  lemma SameState(k: Kernel, i: nat, p: Proc, loose: int, dying: int)
    requires Inv(k, loose, dying) && i < |k.procs|
    requires p.state == k.procs[i].state && p.pid == k.procs[i].pid
    requires p.level == k.procs[i].level || (i == k.current && p.level < MLFQ_LEVELS)
    requires Live(p) ==> BoxesOk(p)
    requires p.state == Waiting && p.reply.waiting ==> k.procs[i].reply.waiting && p.server == k.procs[i].server
    ensures Inv(Put(k, i, p), loose, dying)
  {
    hide QueuesOk, FreeOk, CountsOk, PidsOk, CallsOk;
    var k' := Put(k, i, p);
    QueuesKept(k, k', i, loose, loose);
    FreeKept(k, k', i);
    PidsKept(k, k', i);
    CountsKept(k, k', i);
    CallsKept(k, k', i, dying);
  }

  /** A waiting process becomes runnable. */
  lemma Woken(k: Kernel, i: nat, p: Proc, loose: int, dying: int)
    requires Inv(k, loose, dying) && i < |k.procs| && i != loose
    requires k.procs[i].state == Waiting && p.state == Runnable && p.pid == k.procs[i].pid && BoxesOk(p)
    requires p.level < MLFQ_LEVELS && (i == k.current ==> p.level == k.procs[i].level)
    ensures var k1 := Put(k, i, p).(nrunnable := k.nrunnable + 1);
            Shaped(k1) && Inv(if i == k.current then k1 else ToRunQueue(k1, i), loose, dying)
  {
    hide QueuesOk, FreeOk, CountsOk, PidsOk, CallsOk;
    var k1 := Put(k, i, p).(nrunnable := k.nrunnable + 1);
    var k' := if i == k.current then k1 else ToRunQueue(k1, i);
    if i == k.current {
      QueuesKept(k, k', i, loose, loose);
    } else {
      QueuesGrown(k, k', i, loose);
    }
    FreeKept(k, k', i);
    PidsKept(k, k', i);
    CountsKept(k, k', i);
    CallsKept(k, k', i, dying);
  }

  /** A running process starts to wait; a call goes to a live server. */
  lemma Slept(k: Kernel, p: Proc)
    requires Inv(k) && k.phase == Running
    requires p.state == Waiting && p.level == k.procs[k.current].level && p.pid == k.procs[k.current].pid && BoxesOk(p)
    requires p.reply.waiting ==> LivePid(k, p.server)
    ensures Inv(Put(k, k.current, p).(nrunnable := k.nrunnable - 1, phase := Scheduling))
  {
    hide QueuesOk, FreeOk, CountsOk, PidsOk, CallsOk;
    var i := k.current;
    var k' := Put(k, i, p).(nrunnable := k.nrunnable - 1, phase := Scheduling);
    QueuesKept(k, k', i, -1, -1);
    FreeKept(k, k', i);
    PidsKept(k, k', i);
    CountsKept(k, k', i);
    CallsKept(k, k', i, -1);
  }

  lemma Died(k: Kernel, i: nat)
    requires Inv(k) && i < |k.procs| && Live(k.procs[i])
    ensures Inv(Die(k, i), if k.procs[i].state == Waiting && i != k.current then i else -1, k.procs[i].pid)
  {
    hide Aged, MailKept;
    var loose: int := if k.procs[i].state == Waiting && i != k.current then i else -1;
    var k' := Die(k, i);
    QueuesKept(k, k', i, -1, loose);
    FreeKept(k, k', i);
    PidsKept(k, k', i);
    CountsKept(k, k', i);
    assert CallsOk(k, k.procs[i].pid);
    CallsKept(k, k', i, k.procs[i].pid);
  }

  /** A dead process on no queue gives its slot back. */
  lemma Released(k: Kernel, i: nat, dying: int)
    requires Inv(k, i, dying) && i < |k.procs| && i != k.current && k.procs[i].state == Zombie
    ensures Inv(Release(k, i), -1, dying)
  {
    hide Aged, MailKept, CountsOk;
    var k' := Release(k, i);
    forall c | 0 <= c < |k'.procs| && k'.procs[c].state == Free ensures Has(k'.freeSlots, c) {
      HasMore(k.freeSlots, i, c);
    }
    PidsKept(k, k', i);
    CountsKept(k, k', i);
    CallsKept(k, k', i, dying);
  }

  // ---------------------------------------------------------------- messages

  lemma SentTo(k: Kernel, i: nat, t: MsgType, m: Message, loose: int, dying: int)
    requires Inv(k, loose, dying) && i < |k.procs| && Live(k.procs[i]) && i != loose
    requires t == Reply ==> WaitsFor(k.procs[i], m.src)
    ensures Inv(SendTo(k, i, t, m), loose, dying)
  {
    hide QueuesOk, FreeOk, CountsOk, PidsOk, CallsOk;
    var p := k.procs[i];
    assert BoxesOk(p);
    var p1 := p.WithBox(t, Mbox(false, p.Box(t).messages + [m]));
    if !p.Box(t).waiting {
      SameState(k, i, p1, loose, dying);
    } else {
      Woken(k, i, Awake(p1).(level := if i != k.current && p.level > 0 then p.level - 1 else p.level), loose, dying);
    }
  }

  lemma Sent(k: Kernel, src: nat, uid: nat, dst: nat, t: MsgType, contents: seq<int>, loose: int, dying: int)
    requires Inv(k, loose, dying) && (0 <= loose < |k.procs| ==> k.procs[loose].state == Zombie)
    ensures var k' := Send(k, src, uid, dst, t, contents);
            && Inv(k', loose, dying)
            && forall c | 0 <= c < |k.procs| && k.procs[c].state == Zombie :: k'.procs[c] == k.procs[c]
  {
    hide QueuesOk, FreeOk, CountsOk, PidsOk, BoxesOk, CallsOk;
    var to := SendTarget(k, src, dst, t);
    if to.Some? {
      SentTo(k, to.value, t, Message(src, uid, contents), loose, dying);
    }
  }

  lemma WokenUp(k: Kernel, i: nat, loose: int, dying: int)
    requires Inv(k, loose, dying) && i < |k.procs| && i != loose && k.procs[i].state == Waiting
    ensures Inv(Wakeup(k, i), loose, dying)
  {
    hide QueuesOk, FreeOk, CountsOk, PidsOk, CallsOk;
    assert BoxesOk(k.procs[i]);
    Woken(k, i, Quiet(Awake(k.procs[i])), loose, dying);
  }

  /** Exactly the clients that wait for the dead server wake up, without a reply. */
  lemma {:induction false} CallsFailed(k: Kernel, pid: nat, i: nat)
    requires Shaped(k)
    ensures var k' := FailCalls(k, pid, i);
            forall c | 0 <= c < |k.procs| ::
              k'.procs[c] == if c >= i && WaitsFor(k.procs[c], pid) then Quiet(Awake(k.procs[c])) else k.procs[c]
    decreases |k.procs| - i
  {
    hide Aged, MailKept;
    if i >= |k.procs| {
    } else {
      CallsFailed(FailCall(k, pid, i), pid, i + 1);
    }
  }

  lemma OthersFailed(k: Kernel, pid: nat, c: nat)
    requires Shaped(k) && c < |k.procs| && k.procs[c].state == Zombie
    ensures FailCalls(k, pid, 0).procs[c] == k.procs[c]
  {
    CallsFailed(k, pid, 0);
  }

  lemma NoClients(k: Kernel, pid: nat, loose: int)
    requires Inv(k, loose, pid) && forall c | 0 <= c < |k.procs| :: !WaitsFor(k.procs[c], pid)
    ensures Inv(k, loose, -1)
  {
  }

  ghost predicate Failing(k: Kernel, pid: nat, i: nat, loose: int) {
    && Inv(k, loose, pid) && (0 <= loose < |k.procs| ==> k.procs[loose].state == Zombie)
    && forall c | 0 <= c < i && c < |k.procs| :: !WaitsFor(k.procs[c], pid)
  }

  lemma CallFailed(k: Kernel, pid: nat, i: nat, loose: int)
    requires Failing(k, pid, i, loose) && i < |k.procs|
    ensures Failing(FailCall(k, pid, i), pid, i + 1, loose)
  {
    hide QueuesOk, FreeOk, CountsOk, PidsOk, CallsOk;
    if WaitsFor(k.procs[i], pid) {
      WokenUp(k, i, loose, pid);
    }
  }

  lemma {:induction false} CallsFailedKeeps(k: Kernel, pid: nat, i: nat, loose: int)
    requires Shaped(k) && Failing(k, pid, i, loose)
    ensures Inv(FailCalls(k, pid, i), loose, -1)
    decreases |k.procs| - i
  {
    hide Inv;
    if i >= |k.procs| {
      NoClients(k, pid, loose);
    } else {
      CallFailed(k, pid, i, loose);
      CallsFailedKeeps(FailCall(k, pid, i), pid, i + 1, loose);
    }
  }

  // ---------------------------------------------------------------- death

  lemma Terminated(k: Kernel, i: nat, status: int)
    requires Shaped(k) && Inv(k) && i < |k.procs| && Live(k.procs[i])
    ensures var k' := Term(k, i, status);
            && Inv(k', if k.procs[i].state == Waiting && i != k.current then i else -1)
            && k'.procs[i] == k.procs[i].(state := Zombie)
  {
    hide Aged, MailKept, Inv, Quiet, Awake;
    var p := k.procs[i];
    Died(k, i);
    var loose: int := if p.state == Waiting && i != k.current then i else -1;
    var k1 := Die(k, i);
    Sent(k1, p.pid, p.uid, p.owner, Event, [MEV_PROCDIED, p.pid, status], loose, p.pid);
    var k2 := Send(k1, p.pid, p.uid, p.owner, Event, [MEV_PROCDIED, p.pid, status]);
    OthersFailed(k2, p.pid, i);
    CallsFailedKeeps(k2, p.pid, 0, loose);
  }

  lemma Zapped(k: Kernel, killerUid: Option<nat>, i: nat, status: int)
    requires Inv(k) && i < |k.procs|
    ensures Inv(Zap(k, killerUid, i, status))
  {
    hide QueuesOk, FreeOk, CountsOk, PidsOk, CallsOk;
    if Live(k.procs[i]) {
      Terminated(k, i, status);
      if k.procs[i].state == Waiting && i != k.current {
        Released(Term(k, i, status), i, -1);
      }
    }
  }

  // ---------------------------------------------------------------- the scheduler

  lemma Scanned(k: Kernel, now: nat, i: nat)
    requires Inv(k) && i < |k.procs|
    ensures Inv(Scan(k, now, i))
  {
    hide Inv;
    if k.shuttingDown && k.procs[i].state != Free {
      Zapped(k, None, i, STAT_SHUTDOWN);
    } else if k.procs[i].state == Waiting && k.procs[i].alarmSet && k.procs[i].exptime <= now {
      WokenUp(k, i, -1, -1);
    }
  }

  lemma {:induction false} AllScanned(k: Kernel, now: nat, i: nat)
    requires Shaped(k) && Inv(k)
    ensures Inv(ScanAll(k, now, i))
    decreases |k.procs| - i
  {
    hide Inv;
    if i >= |k.procs| {
    } else {
      Scanned(k, now, i);
      AllScanned(Scan(k, now, i), now, i + 1);
    }
  }

  lemma QueuesPopped(k: Kernel, l: nat)
    requires Shaped(k) && QueuesOk(k, -1) && l < MLFQ_LEVELS && k.mlfq[l] != []
    ensures var i := k.mlfq[l][0];
            QueuesOk(Popped(k, l), i) && i != k.current && (k.procs[i].state == Runnable || k.procs[i].state == Zombie)
  {
    var k' := Popped(k, l);
    var i := k.mlfq[l][0];
    forall c | 0 <= c < |k.procs| && c != k.current && c != i && (k.procs[c].state == Runnable || k.procs[c].state == Zombie)
      ensures Has(k'.mlfq[k.procs[c].level], c)
    {
      var q := k.mlfq[k.procs[c].level];
      var j :| 0 <= j < |q| && q[j] == c;
      if k.procs[c].level == l {
        assert k'.mlfq[l][j - 1] == c;
      }
    }
  }

  /** A process taken off the head of its queue is loose. */
  lemma TakenOff(k: Kernel, l: nat)
    requires Inv(k) && l < MLFQ_LEVELS && k.mlfq[l] != []
    ensures var i := k.mlfq[l][0];
            && Inv(Popped(k, l), i) && i != k.current
            && (k.procs[i].state == Runnable || k.procs[i].state == Zombie)
  {
    QueuesPopped(k, l);
    assert RestOk(k);
    RestSame(k, Popped(k, l));
    hide QueuesOk, FreeOk, CountsOk, PidsOk, CallsOk, BoxesOk;
  }

  lemma {:induction false} Picked(k: Kernel, l: nat)
    requires Shaped(k) && Inv(k)
    ensures var (k', next) := Pick(k, l);
            if next.Some? then
              Inv(k', next.value) && next.value != k.current && k'.procs[next.value].state == Runnable
            else Inv(k')
    ensures Pick(k, l).0.phase == k.phase && Pick(k, l).0.procs[k.current] == k.procs[k.current]
    decreases MLFQ_LEVELS - l, if l < MLFQ_LEVELS then |k.mlfq[l]| else 0
  {
    hide Inv;
    if l >= MLFQ_LEVELS {
    } else {
      if k.mlfq[l] == [] {
        Picked(k, l + 1);
      } else {
        var i := k.mlfq[l][0];
        TakenOff(k, l);
        if k.procs[i].state != Runnable {
          Released(Popped(k, l), i, -1);
          Picked(Release(Popped(k, l), i), l);
        }
      }
    }
  }

  /** The queues from level `l` on, one after the other. */
  function Lineup(k: Kernel, l: nat): seq<nat>
    requires Shaped(k)
    decreases MLFQ_LEVELS - l
  {
    if l >= MLFQ_LEVELS then [] else k.mlfq[l] + Lineup(k, l + 1)
  }

  lemma {:induction false} PickLeavesAbove(k: Kernel, l: nat, m: nat)
    requires Shaped(k) && m < l && m < MLFQ_LEVELS
    ensures Pick(k, l).0.mlfq[m] == k.mlfq[m]
    decreases MLFQ_LEVELS - l, if l < MLFQ_LEVELS then |k.mlfq[l]| else 0
  {
    if l >= MLFQ_LEVELS {
    } else {
      if k.mlfq[l] == [] {
        PickLeavesAbove(k, l + 1, m);
      } else if k.procs[k.mlfq[l][0]].state != Runnable {
        PickLeavesAbove(Release(Popped(k, l), k.mlfq[l][0]), l, m);
      }
    }
  }

  lemma {:induction false} LineupSame(k: Kernel, k': Kernel, l: nat)
    requires Shaped(k) && Shaped(k') && forall m | l <= m < MLFQ_LEVELS :: k'.mlfq[m] == k.mlfq[m]
    ensures Lineup(k', l) == Lineup(k, l)
    decreases MLFQ_LEVELS - l
  {
    if l >= MLFQ_LEVELS {
    } else {
      LineupSame(k, k', l + 1);
    }
  }

  /** `next` is the first in line that can run, and only zombies were before it; `rest` comes after it. */
  ghost predicate FirstInLine(procs: seq<Proc>, line: seq<nat>, next: Option<nat>, rest: seq<nat>) {
    && (forall m | 0 <= m < |line| :: line[m] < |procs|)
    && |rest| < |line| + One(next == None) && rest == line[|line| - |rest|..]
    && var j := |line| - |rest| - One(next.Some?);
    && (forall m | 0 <= m < j :: procs[line[m]].state == Zombie)
    && (if next.Some? then line[j] == next.value && procs[line[j]].state == Runnable else rest == [])
  }

  lemma ZombieInFront(procs: seq<Proc>, i: nat, free: Proc, line: seq<nat>, next: Option<nat>, rest: seq<nat>)
    requires i < |procs| && procs[i].state == Zombie && free.state == Free
    requires FirstInLine(procs[i := free], line, next, rest)
    ensures FirstInLine(procs, [i] + line, next, rest)
  {
    var j := |line| - |rest| - One(next.Some?);
    forall m | 0 <= m < j + 1 ensures procs[([i] + line)[m]].state == Zombie {
      if m > 0 {
        assert procs[i := free][line[m - 1]].state == Zombie;
      }
    }
  }

  lemma RunnableInFront(procs: seq<Proc>, i: nat, line: seq<nat>)
    requires i < |procs| && procs[i].state == Runnable
    requires forall m | 0 <= m < |line| :: line[m] < |procs|
    ensures FirstInLine(procs, [i] + line, Some(i), line)
  {
  }

  lemma LineupInRange(k: Kernel, l: nat)
    requires Shaped(k)
    ensures forall m | 0 <= m < |Lineup(k, l)| :: Lineup(k, l)[m] < |k.procs|
    decreases MLFQ_LEVELS - l
  {
    if l < MLFQ_LEVELS {
      LineupInRange(k, l + 1);
    }
  }

  lemma SplitFront(s: seq<nat>, t: seq<nat>)
    requires s != []
    ensures s + t == [s[0]] + (s[1..] + t)
  {
  }

  lemma FrontOfLine(k: Kernel, l: nat)
    requires Shaped(k) && l < MLFQ_LEVELS && k.mlfq[l] != []
    ensures Lineup(k, l) == [k.mlfq[l][0]] + Lineup(Popped(k, l), l)
  {
    LineupSame(k, Popped(k, l), l + 1);
    SplitFront(k.mlfq[l], Lineup(k, l + 1));
  }

  lemma ZombieReleased(k: Kernel, l: nat)
    requires Inv(k) && l < MLFQ_LEVELS && k.mlfq[l] != [] && k.procs[k.mlfq[l][0]].state != Runnable
    ensures var i := k.mlfq[l][0]; var k' := Release(Popped(k, l), i);
            && Inv(k') && k.procs[i].state == Zombie
            && Lineup(k', l) == Lineup(Popped(k, l), l)
            && k'.procs == k.procs[i := k'.procs[i]] && k'.procs[i].state == Free
  {
    TakenOff(k, l);
    Released(Popped(k, l), k.mlfq[l][0], -1);
    LineupSame(Popped(k, l), Release(Popped(k, l), k.mlfq[l][0]), l);
  }

  /** The scheduler picks the first process in the line that can run, which is the oldest one of the highest
      level that has any; it finds none only when there are only zombies. */
  lemma {:induction false} PickIsFirst(k: Kernel, l: nat)
    requires Shaped(k) && Inv(k)
    ensures FirstInLine(k.procs, Lineup(k, l), Pick(k, l).1, Lineup(Pick(k, l).0, l))
    decreases MLFQ_LEVELS - l, if l < MLFQ_LEVELS then |k.mlfq[l]| else 0
  {
    hide Aged, MailKept;
    if l >= MLFQ_LEVELS {
      assert FirstInLine(k.procs, [], None, []);
    } else {
      hide Inv, FirstInLine;
      if k.mlfq[l] == [] {
        PickIsFirst(k, l + 1);
        PickLeavesAbove(k, l + 1, l);
        assert Lineup(k, l) == Lineup(k, l + 1) && Lineup(Pick(k, l).0, l) == Lineup(Pick(k, l).0, l + 1);
      } else {
        var i := k.mlfq[l][0];
        FrontOfLine(k, l);
        if k.procs[i].state == Runnable {
          LineupInRange(Popped(k, l), l);
          RunnableInFront(k.procs, i, Lineup(Popped(k, l), l));
        } else {
          ZombieReleased(k, l);
          var k2 := Release(Popped(k, l), i);
          PickIsFirst(k2, l);
          ZombieInFront(k.procs, i, k2.procs[i], Lineup(k2, l), Pick(k, l).1, Lineup(Pick(k, l).0, l));
        }
      }
    }
  }

  /** The loose process becomes the current one; the old one goes where its state says. */
  lemma QueuesSwitched(k: Kernel, k': Kernel, next: nat)
    requires Shaped(k) && Shaped(k') && QueuesOk(k, next) && next < |k.procs| && next != k.current
    requires |k'.procs| == |k.procs| && k'.current == next
    requires forall i | 0 <= i < |k.procs| && i != k.current :: k'.procs[i] == k.procs[i]
    requires k'.procs[k.current].level == k.procs[k.current].level
    requires var was := k'.procs[k.current].state; var l := k.procs[k.current].level;
             && was != Zombie
             && k'.mlfq == if was == Runnable then k.mlfq[l := k.mlfq[l] + [k.current]] else k.mlfq
    ensures QueuesOk(k', -1)
  {
    var l := k.procs[k.current].level;
    forall c | 0 <= c < |k'.procs| && c != next && (k'.procs[c].state == Runnable || k'.procs[c].state == Zombie)
      ensures Has(k'.mlfq[k'.procs[c].level], c)
    {
      if k'.procs[k.current].state == Runnable && k'.procs[c].level == l {
        HasMore(k.mlfq[l], k.current, c);
      }
    }
  }

  lemma Switched(k: Kernel, next: nat)
    requires Inv(k, next) && next < |k.procs| && next != k.current && k.procs[next].state == Runnable
    ensures Inv(SwitchTo(k, next))
  {
    hide QueuesOk, FreeOk, CountsOk, PidsOk, CallsOk;
    var k1 := Put(k, next, k.procs[next].(ticksLeft := Quantum(k.procs[next].level)));
    assert BoxesOk(k.procs[next]);
    SameState(k, next, k1.procs[next], next, -1);
    SwitchedOver(k1, next);
  }

  lemma SwitchedOver(k: Kernel, next: nat)
    requires Inv(k, next) && next < |k.procs| && next != k.current && k.procs[next].state == Runnable
    ensures Inv(Retired(k).(current := next, phase := Running))
  {
    hide QueuesOk, FreeOk, CountsOk, PidsOk, CallsOk, BoxesOk;
    var was := k.procs[k.current].state;
    var k2 := Retired(k);
    var k' := k2.(current := next, phase := Running);
    QueuesSwitched(k, k', next);
    if was == Zombie {
      SlotReleased(k, k.current);
      RestSame(k2, k');
    } else {
      RestSame(k, k');
    }
    assert forall i | 0 <= i < |k'.procs| && Live(k'.procs[i]) :: k'.procs[i] == k.procs[i];
  }

  /** The parts of the invariant that do not look at the run queues. */
  ghost predicate RestOk(k: Kernel)
    requires Shaped(k)
  {
    FreeOk(k) && CountsOk(k) && PidsOk(k) && CallsOk(k, -1)
  }

  lemma SlotReleased(k: Kernel, i: nat)
    requires Shaped(k) && RestOk(k) && i < |k.procs| && k.procs[i].state == Zombie
    ensures RestOk(Release(k, i))
  {
    var k' := Release(k, i);
    forall c | 0 <= c < |k'.procs| && k'.procs[c].state == Free ensures Has(k'.freeSlots, c) {
      HasMore(k.freeSlots, i, c);
    }
    PidsKept(k, k', i);
    CountsKept(k, k', i);
    CallsKept(k, k', i, -1);
  }

  lemma RestSame(k: Kernel, k': Kernel)
    requires Shaped(k) && Shaped(k') && RestOk(k)
    requires k'.procs == k.procs && k'.freeSlots == k.freeSlots && k'.pidGen == k.pidGen
    requires k'.nprocs == k.nprocs && k'.nrunnable == k.nrunnable
    ensures RestOk(k')
  {
    CallsSame(k, k');
  }

  lemma CallsSame(k: Kernel, k': Kernel)
    requires CallsOk(k, -1) && k'.procs == k.procs
    ensures CallsOk(k', -1)
  {
    forall i | 0 <= i < |k.procs| && k.procs[i].state == Waiting && k.procs[i].reply.waiting
      ensures LivePid(k', k.procs[i].server)
    {
      var s := k.procs[i].server;
      var j :| 0 <= j < |k.procs| && Live(k.procs[j]) && k.procs[j].pid == s;
      assert Live(k'.procs[j]);
    }
  }

  lemma PhaseChanged(k: Kernel, phase: Phase)
    requires Inv(k) && (phase == Running ==> k.procs[k.current].state == Runnable)
    ensures Inv(k.(phase := phase))
  {
    CallsSame(k, k.(phase := phase));
  }

  lemma Rounded(k: Kernel, now: nat)
    requires Shaped(k) && Inv(k) && k.phase == Scheduling
    ensures Inv(Round(k, now))
  {
    hide Inv;
    if k.curfew != 0 && now > k.curfew {
      PhaseChanged(k, Halted);
    } else {
      AllScanned(k, now, 0);
      var k0 := ScanAll(k, now, 0);
      Picked(k0, 0);
      var (k1, next) := Pick(k0, 0);
      if next.Some? {
        Switched(k1, next.value);
      } else if k1.procs[k1.current].state == Runnable {
        PhaseChanged(k1, Running);
      } else {
        PhaseChanged(k1, Halted);
      }
    }
  }

  // ---------------------------------------------------------------- the current process

  /** A process that is not in a call never finds a reply when it starts to wait for one. */
  lemma NoReplyYet(k: Kernel)
    requires Inv(k) && k.phase == Running && k.procs[k.current].resume == Ready
    ensures k.procs[k.current].reply.messages == []
  {
    assert BoxesOk(k.procs[k.current]);
  }

  lemma Received(k: Kernel, resume: Resume, now: nat, maxTime: nat)
    requires Inv(k) && k.phase == Running && k.procs[k.current].resume == Ready
    requires resume.Receive? ==> resume.mtype != Reply
    requires resume.Call? ==> k.procs[k.current].pid != k.procs[k.current].server == resume.server && LivePid(k, resume.server)
    requires resume != Ready
    ensures Inv(Recv(k, resume, now, maxTime))
  {
    hide QueuesOk, FreeOk, CountsOk, PidsOk, CallsOk;
    var p := k.procs[k.current];
    assert BoxesOk(p);
    var t := Awaited(resume).value;
    if p.Box(t).messages != [] {
      SameState(k, k.current, p.(resume := resume), -1, -1);
    } else {
      var p1 := Asleep(p, t, resume);
      Slept(k, if maxTime != 0 then p1.(exptime := now + maxTime, alarmSet := true) else p1);
    }
  }

  /** What a process gets at the end of a call comes from the server it called. */
  lemma Finished(k: Kernel)
    requires Inv(k) && k.phase == Running
    ensures var (k', m) := Finish(k); var p := k.procs[k.current];
            && Inv(k') && k'.procs[k.current].resume == Ready
            && (p.resume.Call? && m.Some? ==> m.value.src == p.resume.server)
  {
    hide QueuesOk, FreeOk, CountsOk, PidsOk, CallsOk;
    var p := k.procs[k.current];
    assert BoxesOk(p);
    if p.resume != Ready {
      var t := Awaited(p.resume).value;
      var box := p.Box(t);
      if box.messages == [] {
        SameState(k, k.current, p.(resume := Ready), -1, -1);
      } else {
        SameState(k, k.current, p.WithBox(t, box.(messages := box.messages[1..])).(resume := Ready), -1, -1);
      }
    }
  }

  /** A request that is accepted goes to another live process and leaves the caller as it is. */
  lemma RequestSent(k: Kernel, server: nat, contents: seq<int>)
    requires Inv(k) && k.phase == Running
    requires var p := k.procs[k.current]; server != p.pid && SendTarget(k, p.pid, server, Request).Some?
    ensures var p := k.procs[k.current]; var k1 := Send(k, p.pid, p.uid, server, Request, contents);
            Inv(k1) && k1.procs[k.current] == p && k1.phase == Running && LivePid(k1, server)
  {
    var p := k.procs[k.current];
    Sent(k, p.pid, p.uid, server, Request, contents, -1, -1);
    var i := Find(k.procs, server).value;
    var k1 := Send(k, p.pid, p.uid, server, Request, contents);
    assert Live(k1.procs[i]) && k1.procs[i].pid == server;
  }

  lemma Called(k: Kernel, server: nat, contents: seq<int>, now: nat)
    requires Inv(k) && k.phase == Running && k.procs[k.current].resume == Ready
    ensures Inv(Rpc(k, server, contents, now))
  {
    hide QueuesOk, FreeOk, CountsOk, PidsOk, CallsOk, Send;
    var p := k.procs[k.current];
    if server != p.pid && SendTarget(k, p.pid, server, Request).Some? {
      RequestSent(k, server, contents);
      var k1 := Send(k, p.pid, p.uid, server, Request, contents);
      assert BoxesOk(p);
      SameState(k1, k.current, p.(server := server), -1, -1);
      var k2 := Put(k1, k.current, p.(server := server));
      var j :| 0 <= j < |k1.procs| && Live(k1.procs[j]) && k1.procs[j].pid == server;
      assert Live(k2.procs[j]) && k2.procs[j].pid == server;
      Received(k2, Call(server), now, 0);
    }
  }

  lemma Started(k: Kernel, owner: nat, uid: nat)
    requires Inv(k) && k.phase == Running
    ensures Inv(Create(k, owner, uid))
  {
    hide QueuesOk, FreeOk, CountsOk, PidsOk, CallsOk;
    var parent := Find(k.procs, owner);
    if !k.shuttingDown && parent != None && k.freeSlots != [] {
      var i := k.freeSlots[0];
      var p := Create(k, owner, uid).procs[i];
      StartedAt(k, p);
    }
  }

  /** Slot `i` comes off the free list for a process that becomes the current one at once. */
  ghost predicate Launched(k: Kernel, k': Kernel, i: nat) {
    && Shaped(k) && Shaped(k') && k.freeSlots != [] && i == k.freeSlots[0] && k'.freeSlots == k.freeSlots[1..]
    && |k'.procs| == |k.procs| && k'.procs == k.procs[i := k'.procs[i]] && k'.procs[i].state == Runnable
    && k.procs[i].state == Free && k.procs[k.current].state == Runnable && k'.current == i
    && k'.pidGen == k.pidGen + 1 && k'.procs[i].pid == k.pidGen
    && var l := k.procs[k.current].level; k'.mlfq == k.mlfq[l := k.mlfq[l] + [k.current]]
  }

  lemma QueuesLaunched(k: Kernel, k': Kernel, i: nat)
    requires Launched(k, k', i) && QueuesOk(k, -1)
    ensures QueuesOk(k', -1)
  {
    hide Aged, MailKept;
    assert forall j | 0 <= j < |k.mlfq[k.procs[k.current].level]| :: k.mlfq[k.procs[k.current].level][j] != k.current;
    var l := k.procs[k.current].level;
    forall c | 0 <= c < |k'.procs| && c != i && (k'.procs[c].state == Runnable || k'.procs[c].state == Zombie)
      ensures Has(k'.mlfq[k'.procs[c].level], c)
    {
      if k'.procs[c].level == l {
        HasMore(k.mlfq[l], k.current, c);
      }
    }
  }

  lemma FreeLaunched(k: Kernel, k': Kernel, i: nat)
    requires Launched(k, k', i) && FreeOk(k)
    ensures FreeOk(k')
  {
    forall c | 0 <= c < |k'.procs| && k'.procs[c].state == Free ensures Has(k'.freeSlots, c) {
      var j :| 0 <= j < |k.freeSlots| && k.freeSlots[j] == c;
      assert k'.freeSlots[j - 1] == c;
    }
  }

  lemma PidsLaunched(k: Kernel, k': Kernel, i: nat)
    requires Launched(k, k', i) && PidsOk(k) && k.pidGen > 0
    ensures PidsOk(k')
  {
  }

  lemma CallsLaunched(k: Kernel, k': Kernel, i: nat)
    requires Launched(k, k', i) && CallsOk(k, -1)
    ensures CallsOk(k', -1)
  {
    CallsKept(k, k.(procs := k'.procs), i, -1);
    CallsSame(k.(procs := k'.procs), k');
  }

  lemma CountsLaunched(k: Kernel, k': Kernel, i: nat)
    requires Launched(k, k', i) && CountsOk(k) && k'.nprocs == k.nprocs + 1 && k'.nrunnable == k.nrunnable + 1
    ensures CountsOk(k')
  {
    CountUpdate(k.procs, i, k'.procs[i]);
  }

  lemma StartedAt(k: Kernel, p: Proc)
    requires Inv(k) && k.phase == Running && k.freeSlots != []
    requires p.state == Runnable && p.level < MLFQ_LEVELS && p.pid == k.pidGen && BoxesOk(p)
    ensures var i := k.freeSlots[0];
            var k1 := Put(k, i, p).(freeSlots := k.freeSlots[1..], pidGen := k.pidGen + 1,
                                    nprocs := k.nprocs + 1, nrunnable := k.nrunnable + 1);
            Shaped(k1) && Inv(ToRunQueue(k1, k.current).(current := i))
  {
    var i := k.freeSlots[0];
    assert k.procs[i].state == Free && PidsOk(k) && k.pidGen > 0;
    hide QueuesOk, FreeOk, PidsOk, CallsOk, CountsOk, BoxesOk;
    var k1 := Put(k, i, p).(freeSlots := k.freeSlots[1..], pidGen := k.pidGen + 1,
                            nprocs := k.nprocs + 1, nrunnable := k.nrunnable + 1);
    var k' := ToRunQueue(k1, k.current).(current := i);
    QueuesLaunched(k, k', i);
    FreeLaunched(k, k', i);
    PidsLaunched(k, k', i);
    CallsLaunched(k, k', i);
    CountsLaunched(k, k', i);
  }

  lemma {:induction false} AllKilled(k: Kernel, killerUid: nat, status: int, i: nat)
    requires Shaped(k) && Inv(k)
    ensures Inv(KillAll(k, killerUid, status, i))
    decreases |k.procs| - i
  {
    hide Inv;
    if i >= |k.procs| {
    } else {
      Zapped(k, Some(killerUid), i, status);
      AllKilled(if k.procs[i].state != Free && k.procs[i].interruptable then Zap(k, Some(killerUid), i, status) else k,
                killerUid, status, i + 1);
    }
  }

  lemma Yielded(k: Kernel)
    requires Inv(k)
    ensures Inv(Yield(k))
  {
    PhaseChanged(k, Scheduling);
  }

  lemma Killed(k: Kernel, killer: nat, pid: nat, status: int)
    requires Shaped(k) && Inv(k)
    ensures Inv(Kill(k, killer, pid, status))
  {
    hide Inv;
    if Find(k.procs, killer).Some? {
      var uid := k.procs[Find(k.procs, killer).value].uid;
      if pid == 0 {
        AllKilled(k, uid, status, 0);
        Yielded(KillAll(k, uid, status, 0));
      } else if Find(k.procs, pid).Some? {
        Zapped(k, Some(uid), Find(k.procs, pid).value, status);
        Yielded(Zap(k, Some(uid), Find(k.procs, pid).value, status));
      }
    }
  }

  lemma Ticked(k: Kernel)
    requires Inv(k) && k.phase == Running
    ensures Inv(Tick(k))
  {
    hide QueuesOk, FreeOk, CountsOk, PidsOk, CallsOk;
    var p := k.procs[k.current];
    assert BoxesOk(p);
    var level := if p.level < MLFQ_LEVELS - 1 then p.level + 1 else p.level;
    var p' := if p.ticksLeft != 1 then p.(ticksLeft := p.ticksLeft - 1) else p.(ticksLeft := 0, level := level);
    SameState(k, k.current, p', -1, -1);
    Yielded(Put(k, k.current, p'));
  }
}
