/** Alarms: who is woken up by a round of the scheduler, and when a receive with a time limit ends. */
module ProcessAlarms {
  import opened Options
  import opened Processes
  import opened ProcessInvariant
  import opened ProcessEffects
  import opened ProcessDeaths

  // ---------------------------------------------------------------- one round

  predicate Due(p: Proc, now: nat) {
    p.state == Waiting && p.alarmSet && p.exptime <= now
  }

  /** The process can run, waits for nothing and has no alarm, and is otherwise as it was. */
  predicate Rung(p: Proc, q: Proc) {
    && q.state == Runnable && !q.alarmSet && !q.request.waiting && !q.reply.waiting && !q.event.waiting && HasAll(p, q)
    && q.pid == p.pid && q.uid == p.uid && q.owner == p.owner && q.level == p.level && q.ticksLeft == p.ticksLeft
    && q.server == p.server && q.resume == p.resume && q.interruptable == p.interruptable
  }

  /** The slots from `i` on that are due and belong on the queue of level `l`. */
  function DueAt(k: Kernel, now: nat, l: nat, i: nat): seq<nat>
    decreases |k.procs| - i
  {
    if i >= |k.procs| then []
    else (if Due(k.procs[i], now) && i != k.current && k.procs[i].level == l then [i] else []) + DueAt(k, now, l, i + 1)
  }

  lemma OneRings(k: Kernel, now: nat, i: nat)
    requires Shaped(k) && !k.shuttingDown && i < |k.procs|
    ensures var k' := Scan(k, now, i);
            && |k'.mlfq| == MLFQ_LEVELS && k'.procs == k.procs[i := k'.procs[i]] && k'.current == k.current && !k'.shuttingDown
            && (if Due(k.procs[i], now) then Rung(k.procs[i], k'.procs[i]) else k'.procs[i] == k.procs[i])
            && forall l | 0 <= l < MLFQ_LEVELS ::
                 k'.mlfq[l] == if Due(k.procs[i], now) && i != k.current && k.procs[i].level == l then k.mlfq[l] + [i] else k.mlfq[l]
  {
    hide Aged, MailKept;
  }

  lemma {:induction false} DueLater(k: Kernel, k': Kernel, now: nat, l: nat, i: nat)
    requires |k'.procs| == |k.procs| && k'.current == k.current && forall c | i <= c < |k.procs| :: k'.procs[c] == k.procs[c]
    ensures DueAt(k', now, l, i) == DueAt(k, now, l, i)
    decreases |k.procs| - i
  {
    if i < |k.procs| {
      DueLater(k, k', now, l, i + 1);
    }
  }

  lemma {:induction false} ScanRings(k: Kernel, now: nat, i: nat)
    requires Shaped(k) && !k.shuttingDown
    ensures var k' := ScanAll(k, now, i);
            && |k'.procs| == |k.procs| && k'.current == k.current
            && forall c | 0 <= c < |k.procs| ::
                 if c >= i && Due(k.procs[c], now) then Rung(k.procs[c], k'.procs[c]) else k'.procs[c] == k.procs[c]
    decreases |k.procs| - i
  {
    hide Shaped, SameRunner, Scan, Due, Rung;
    if i < |k.procs| {
      OneRings(k, now, i);
      ScanRings(Scan(k, now, i), now, i + 1);
    }
  }

  lemma {:induction false} ScanQueues(k: Kernel, now: nat, l: nat, i: nat)
    requires Shaped(k) && !k.shuttingDown && l < MLFQ_LEVELS == |k.mlfq|
    ensures |ScanAll(k, now, i).mlfq| == MLFQ_LEVELS && ScanAll(k, now, i).mlfq[l] == k.mlfq[l] + DueAt(k, now, l, i)
    decreases |k.procs| - i
  {
    hide Shaped, SameRunner, Scan, Due, Rung;
    if i < |k.procs| {
      OneRings(k, now, i);
      var k1 := Scan(k, now, i);
      ScanQueues(k1, now, l, i + 1);
      DueLater(k, k1, now, l, i + 1);
    }
  }

  /** A round without shutdown wakes up exactly those that are due, and queues them in the order of the process table. */
  lemma DueRing(k: Kernel, now: nat)
    requires Shaped(k) && !k.shuttingDown
    ensures var k' := ScanAll(k, now, 0);
            && |k'.procs| == |k.procs|
            && (forall c | 0 <= c < |k.procs| ::
                 if Due(k.procs[c], now) then Rung(k.procs[c], k'.procs[c]) else k'.procs[c] == k.procs[c])
            && forall l | 0 <= l < MLFQ_LEVELS :: k'.mlfq[l] == k.mlfq[l] + DueAt(k, now, l, 0)
  {
    hide SameRunner, ScanAll, DueAt, Due, Rung;
    ScanRings(k, now, 0);
    ScanQueues(k, now, 0, 0);
    ScanQueues(k, now, 1, 0);
    ScanQueues(k, now, 2, 0);
  }

  // ---------------------------------------------------------------- the end

  lemma {:induction false} NobodyUsed(procs: seq<Proc>)
    ensures CountUsed(procs) == 0 <==> forall c | 0 <= c < |procs| :: procs[c].state == Free
  {
    if procs != [] {
      NobodyUsed(procs[..|procs| - 1]);
    }
  }

  lemma OneUsed(procs: seq<Proc>, i: nat)
    requires i < |procs| && procs[i].state != Free
    ensures CountUsed(procs) == 1 <==> forall c | 0 <= c < |procs| && c != i :: procs[c].state == Free
  {
    var p := procs[i].(state := Free);
    CountUpdate(procs, i, p);
    NobodyUsed(procs[i := p]);
    assert forall c | 0 <= c < |procs| && c != i :: procs[i := p][c] == procs[c];
  }

  lemma {:induction false} PickGoesOn(k: Kernel, l: nat)
    requires Shaped(k)
    ensures Pick(k, l).0.shuttingDown == k.shuttingDown
    decreases MLFQ_LEVELS - l, if l < MLFQ_LEVELS then |k.mlfq[l]| else 0
  {
    hide Aged, MailKept;
    if l < MLFQ_LEVELS {
      if k.mlfq[l] == [] {
        PickGoesOn(k, l + 1);
      } else if k.procs[k.mlfq[l][0]].state != Runnable {
        PickGoesOn(Release(Popped(k, l), k.mlfq[l][0]), l);
      }
    }
  }

  lemma {:induction false} ScanGoesOn(k: Kernel, now: nat, i: nat)
    requires Shaped(k) && k.phase != Running
    ensures ScanAll(k, now, i).shuttingDown == k.shuttingDown && ScanAll(k, now, i).phase == k.phase
    decreases |k.procs| - i
  {
    hide Shaped, SameRunner, Scan;
    if i < |k.procs| {
      ShutdownGoesOn(k, now, i);
      SameTable(k, Scan(k, now, i));
      ScanGoesOn(Scan(k, now, i), now, i + 1);
    }
  }

  lemma LastOne(k: Kernel)
    requires Inv(k)
    ensures k.current < |k.procs| && (k.nprocs == 1 <==> forall c | 0 <= c < |k.procs| && c != k.current :: k.procs[c].state == Free)
  {
    OneUsed(k.procs, k.current);
  }

  /** The system halts in a round exactly when it is late, or is shutting down and the current process, which cannot run, is the
      last one. */
  lemma HaltsAlone(k: Kernel, now: nat)
    requires Shaped(k) && Inv(k) && k.phase == Scheduling
    ensures var k' := Round(k, now);
            && k'.current < |k'.procs|
            && (k'.phase == Halted <==>
                || Late(k, now)
                || (k.shuttingDown && k'.procs[k'.current].state != Runnable
                    && forall c | 0 <= c < |k'.procs| && c != k'.current :: k'.procs[c].state == Free))
  {
    hide Shaped, Inv, SameRunner, ScanAll, Pick, SwitchTo;
    LastOne(k);
    if !Late(k, now) {
      var k0 := ScanAll(k, now, 0);
      AllScanned(k, now, 0);
      ScanGoesOn(k, now, 0);
      Picked(k0, 0);
      PickGoesOn(k0, 0);
      var (k1, next) := Pick(k0, 0);
      SameTable(k0, k1);
      if next.Some? {
        SwitchIs(k1, next.value);
      } else {
        LastOne(k1);
      }
    }
  }

  // ---------------------------------------------------------------- how long the scheduler sleeps

  predicate Alarmed(p: Proc) {
    p.state == Waiting && p.alarmSet
  }

  /** The least of `next` and the alarms from slot `i` on. */
  lemma {:induction false} NextIsLeast(k: Kernel, now: nat, i: nat, next: nat)
    requires Shaped(k) && !k.shuttingDown
    ensures var n := NextScan(k, now, i, next);
            && n <= next && (forall c | i <= c < |k.procs| && Alarmed(k.procs[c]) :: n <= k.procs[c].exptime)
            && (n == next || exists c :: i <= c < |k.procs| && Alarmed(k.procs[c]) && k.procs[c].exptime == n)
    decreases |k.procs| - i
  {
    hide Shaped, SameRunner, Scan, Due, Rung;
    if i < |k.procs| {
      OneRings(k, now, i);
      NextIsLeast(Scan(k, now, i), now, i + 1, Sooner(k, i, next));
      var k1 := Scan(k, now, i);
      assert forall c | i < c < |k.procs| :: k1.procs[c] == k.procs[c];
    }
  }

  lemma {:induction false} NoAlarmsInShutdown(k: Kernel, now: nat, i: nat, next: nat)
    requires Shaped(k) && k.shuttingDown
    ensures NextScan(k, now, i, next) == next
    decreases |k.procs| - i
  {
    hide Shaped, SameRunner, Scan;
    if i < |k.procs| {
      ShutdownGoesOn(k, now, i);
      SameTable(k, Scan(k, now, i));
      NoAlarmsInShutdown(Scan(k, now, i), now, i + 1, next);
    }
  }

  lemma {:induction false} PickEmpties(k: Kernel, l: nat)
    requires Shaped(k) && Pick(k, l).1 == None
    ensures forall m | l <= m < MLFQ_LEVELS :: Pick(k, l).0.mlfq[m] == []
    decreases MLFQ_LEVELS - l, if l < MLFQ_LEVELS then |k.mlfq[l]| else 0
  {
    hide Aged, MailKept;
    if l < MLFQ_LEVELS {
      if k.mlfq[l] == [] {
        PickEmpties(k, l + 1);
        PickLeavesAbove(k, l + 1, l);
      } else if k.procs[k.mlfq[l][0]].state != Runnable {
        PickEmpties(Release(Popped(k, l), k.mlfq[l][0]), l);
      }
    }
  }

  lemma NobodyQueued(k: Kernel, c: nat)
    requires Inv(k) && c < |k.procs| && c != k.current && forall m | 0 <= m < MLFQ_LEVELS :: k.mlfq[m] == []
    ensures k.procs[c].state != Runnable
  {
    assert k.procs[c].state == Runnable ==> Has(k.mlfq[k.procs[c].level], c);
  }

  /** When the scheduler finds nobody to run, nobody can run. */
  lemma NobodyRunnable(k: Kernel, c: nat)
    requires Shaped(k) && Inv(k) && Pick(k, 0).1 == None && c < |k.procs| && k.procs[k.current].state != Runnable
    ensures k.procs[c].state != Runnable
  {
    hide Inv, SameRunner;
    Picked(k, 0);
    PickEmpties(k, 0);
    PickSpares(k, 0);
    SameTable(k, Pick(k, 0).0);
    if c != k.current {
      NobodyQueued(Pick(k, 0).0, c);
    }
  }

  lemma NoLuck(k: Kernel, now: nat)
    requires Shaped(k) && Inv(k) && k.phase == Scheduling && Round(k, now).phase == Scheduling
    ensures var k0 := ScanAll(k, now, 0);
            && !Late(k, now) && |k0.procs| == |Round(k, now).procs| == |k.procs|
            && forall c | 0 <= c < |k.procs| ::
                 k0.procs[c].state != Runnable && (if Live(k0.procs[c]) then Round(k, now).procs[c] == k0.procs[c] else !Live(Round(k, now).procs[c]))
  {
    hide Shaped, Inv, SameRunner, ScanAll, Pick, SwitchTo;
    var k0 := ScanAll(k, now, 0);
    AllScanned(k, now, 0);
    SameTable(k, k0);
    Picked(k0, 0);
    PickSpares(k0, 0);
    SameTable(k0, Pick(k0, 0).0);
    forall c | 0 <= c < |k.procs| ensures k0.procs[c].state != Runnable {
      NobodyRunnable(k0, c);
    }
  }

  /** `n` is the time of the next alarm, or a second away if there is none before. */
  ghost predicate NextAlarm(procs: seq<Proc>, now: nat, n: nat) {
    && now < n <= now + 1000
    && (forall c | 0 <= c < |procs| && Alarmed(procs[c]) :: n <= procs[c].exptime)
    && (n == now + 1000 || exists c :: 0 <= c < |procs| && Alarmed(procs[c]) && procs[c].exptime == n)
  }

  /** When there is nobody to run, the scheduler sleeps to the next alarm, and at most a second; no alarm is due by then. */
  lemma SleepsToTheAlarm(k: Kernel, now: nat)
    requires Shaped(k) && Inv(k) && k.phase == Scheduling
    ensures Round(k, now).phase == Scheduling ==>
      NextScan(k, now, 0, now + 1000) > now && NextAlarm(Round(k, now).procs, now, NextScan(k, now, 0, now + 1000))
  {
    hide Shaped, Inv, SameRunner, ScanAll, Round, NextScan, Prey, NotesTo, DueAt;
    if Round(k, now).phase == Scheduling {
      NoLuck(k, now);
      if k.shuttingDown {
        NoAlarmsInShutdown(k, now, 0, now + 1000);
        FateInShutdown(k, now, 0);
        AllDown(k, ScanAll(k, now, 0));
      } else {
        NextIsLeast(k, now, 0, now + 1000);
        DueRing(k, now);
      }
    }
  }

  lemma AllDown(k: Kernel, k': Kernel)
    requires Fates(k, Prey(k, None, true, 0), STAT_SHUTDOWN, k')
    ensures forall c | 0 <= c < |k'.procs| :: !Live(k'.procs[c])
  {
    hide NotesTo, LivesOn;
    forall c | 0 <= c < |k'.procs| ensures !Live(k'.procs[c]) {
      assert Fate(k, Prey(k, None, true, 0), STAT_SHUTDOWN, c, k'.procs[c]);
    }
  }
}
