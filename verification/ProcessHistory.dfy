/** Mail and alarms over whole runs: a process receives what was sent to it, whole and in order, and a receive with a time
    limit ends neither early nor late. */
module ProcessHistory {
  import opened Options
  import opened Processes
  import opened ProcessRuns
  import opened ProcessEffects
  import opened ProcessDeaths
  import opened ProcessMail

  // ---------------------------------------------------------------- mail

  /** All messages that a run has sent to mailbox `t` of process `pid`, the oldest first. */
  ghost function Sent(k0: Kernel, hs: seq<Happening>, pid: nat, t: MsgType): seq<Message>
    requires Shaped(k0)
  {
    if hs == [] then []
    else
      var before := hs[..|hs| - 1];
      Sent(k0, before, pid, t) + Mailed(Run(k0, before), hs[|hs| - 1], pid, t)
  }

  /** All messages that process `pid` has got out of mailbox `t`, the first one first. */
  function Received(k0: Kernel, hs: seq<Happening>, pid: nat, t: MsgType): seq<Message>
    requires Shaped(k0)
  {
    if hs == [] then []
    else
      var before := hs[..|hs| - 1];
      Received(k0, before, pid, t) + Taken(Run(k0, before), hs[|hs| - 1], pid, t)
  }

  /** Nobody sends to a pid that is not given out yet. */
  lemma {:induction false} NothingYet(n: nat, hs: seq<Happening>, pid: nat, t: MsgType)
    requires n > 0 && pid >= Run(Boot(n), hs).pidGen
    ensures Sent(Boot(n), hs, pid, t) == [] && Received(Boot(n), hs, pid, t) == []
  {
    hide Shaped, Inv, MailKept, Boot, Step, Mailed, Taken;
    if hs != [] {
      var before := hs[..|hs| - 1];
      var k := Run(Boot(n), before);
      RunKeeps(n, before);
      NothingYet(n, before, pid, t);
      NobodyYet(k, hs[|hs| - 1], pid, t);
    }
  }

  lemma NobodyYet(k: Kernel, h: Happening, pid: nat, t: MsgType)
    requires Shaped(k) && Inv(k) && pid >= k.pidGen
    ensures Mailed(k, h, pid, t) == [] && Taken(k, h, pid, t) == []
  {
    hide NotesTo;
  }

  /** In every run, what a process has got out of a mailbox, followed by what is still in it, is what was sent to it. */
  lemma {:induction false} NoMailIsLost(n: nat, hs: seq<Happening>, c: nat, t: MsgType)
    requires n > 0 && c < |Run(Boot(n), hs).procs| && Live(Run(Boot(n), hs).procs[c])
    ensures var p := Run(Boot(n), hs).procs[c];
            Sent(Boot(n), hs, p.pid, t) == Received(Boot(n), hs, p.pid, t) + p.Box(t).messages
  {
    hide Shaped, Inv, Aged, MailKept, Boot, Step, Mailed, Taken;
    if hs == [] {
      BootedMail(n, c, t);
    } else {
      var before, h := hs[..|hs| - 1], hs[|hs| - 1];
      var k := Run(Boot(n), before);
      RunKeeps(n, before);
      SameSize(k, Step(k, h));
      var q := Step(k, h).procs[c];
      if Live(k.procs[c]) && k.procs[c].pid == q.pid {
        NoMailIsLost(n, before, c, t);
        MailAdds(k, h, c, t, Sent(Boot(n), before, q.pid, t), Received(Boot(n), before, q.pid, t));
      } else {
        NewcomersMail(k, h, c);
        NothingYet(n, before, q.pid, t);
        NobodyYet(k, h, q.pid, t);
      }
    }
  }

  lemma BootedMail(n: nat, c: nat, t: MsgType)
    requires n > 0 && c < |Boot(n).procs|
    ensures Boot(n).procs[c].Box(t).messages == []
  {
    BootedTable(n, c);
  }

  lemma SameSize(k: Kernel, k': Kernel)
    requires Aged(k, k')
    ensures |k'.procs| == |k.procs|
  {
  }

  lemma MailAdds(k: Kernel, h: Happening, c: nat, t: MsgType, sent: seq<Message>, got: seq<Message>)
    requires Shaped(k) && Inv(k) && c < |k.procs| == |Step(k, h).procs| && Live(k.procs[c]) && Live(Step(k, h).procs[c])
    requires sent == got + k.procs[c].Box(t).messages
    ensures sent + Mailed(k, h, k.procs[c].pid, t) == (got + Taken(k, h, k.procs[c].pid, t)) + Step(k, h).procs[c].Box(t).messages
  {
    hide Shaped, Inv, Aged, MailKept, Step, Mailed, Taken;
    StepGoes(k, h, c);
    var p, q := k.procs[c], Step(k, h).procs[c];
    assert Balances(k, h, p, q, t);
    assert got + (p.Box(t).messages + Mailed(k, h, p.pid, t)) == (got + p.Box(t).messages) + Mailed(k, h, p.pid, t);
    assert got + (Taken(k, h, p.pid, t) + q.Box(t).messages) == (got + Taken(k, h, p.pid, t)) + q.Box(t).messages;
  }

  /** In every run, a process that ends a receive gets the oldest message that was sent to that mailbox and that it has not got
      yet; it gets none only when there is none. */
  lemma GetsTheOldest(n: nat, hs: seq<Happening>)
    requires n > 0
    ensures var k := Run(Boot(n), hs); var p := k.procs[k.current];
            k.phase == Running && p.resume != Ready ==>
              var t := Awaited(p.resume).value;
              var sent, got := Sent(Boot(n), hs, p.pid, t), Received(Boot(n), hs, p.pid, t);
              && got <= sent
              && Finish(k).1 == (if |got| < |sent| then Some(sent[|got|]) else None)
  {
    hide Inv, MailKept, Boot, Run, Mailed, Taken, Sent, Received;
    var k := Run(Boot(n), hs);
    var p := k.procs[k.current];
    if k.phase == Running && p.resume != Ready {
      RunKeeps(n, hs);
      RunnerNeeds(k);
      ReceiveTakes(k);
      NoMailIsLost(n, hs, k.current, Awaited(p.resume).value);
    }
  }

  // ---------------------------------------------------------------- alarms

  /** Process `pid`, in slot `c`, waits for mailbox `t`, and its alarm is set to `end`. */
  predicate Sleeps(k: Kernel, c: nat, pid: nat, t: MsgType, end: nat) {
    c < |k.procs| && var p := k.procs[c];
    && p.state == Waiting && p.pid == pid && p.resume == Receive(t) && p.alarmSet && p.exptime == end
  }

  /** How a wait ends: by death, by a message, or by the alarm, in a round at the end of the wait or later. */
  ghost predicate WaitEnds(k: Kernel, h: Happening, c: nat, t: MsgType, end: nat)
    requires Shaped(k) && c < |k.procs| == |Step(k, h).procs|
  {
    var q := Step(k, h).procs[c];
    || (c in Dying(k, h) && !Live(q))
    || (q.state == Runnable && q.pid == k.procs[c].pid && q.Box(t).messages != [])
    || (q.state == Runnable && q.pid == k.procs[c].pid && h.Dispatching? && end <= h.now)
  }

  /** A receive with a time limit on an empty mailbox: the process sleeps until its end. */
  lemma FallsAsleep(k: Kernel, t: MsgType, now: nat, maxTime: nat)
    requires Shaped(k) && AtLarge(k) && t != Reply && maxTime > 0 && k.procs[k.current].Box(t).messages == []
    ensures Sleeps(Step(k, Receiving(t, now, maxTime)), k.current, k.procs[k.current].pid, t, now + maxTime)
  {
    hide Recv, Aged, MailKept;
    ReceiveWaits(k, t, now, maxTime);
  }

  /** A step: the process sleeps on, or its wait ends as it should; it does end in the first round from `end` on. */
  lemma SleepStep(k: Kernel, h: Happening, c: nat, pid: nat, t: MsgType, end: nat)
    requires Shaped(k) && Inv(k) && Sleeps(k, c, pid, t, end)
    ensures |Step(k, h).procs| == |k.procs|
    ensures Sleeps(Step(k, h), c, pid, t, end) || WaitEnds(k, h, c, t, end)
    ensures h.Dispatching? && end <= h.now && k.phase == Scheduling && !Late(k, h.now) ==> !Sleeps(Step(k, h), c, pid, t, end)
  {
    hide Shaped, Inv, MailKept, Step, Balances;
    StepGoes(k, h, c);
  }

  /** In every run after a process has fallen asleep it sleeps still, or its wait has ended as it should: not before the alarm
      without a message. */
  lemma {:induction false} NotEarly(k: Kernel, hs: seq<Happening>, c: nat, pid: nat, t: MsgType, end: nat)
    requires Shaped(k) && Inv(k) && Sleeps(k, c, pid, t, end)
    ensures Inv(Run(k, hs)) && |Run(k, hs).procs| == |k.procs|
    ensures || Sleeps(Run(k, hs), c, pid, t, end)
            || exists m: nat :: m < |hs| && EndsAt(k, hs, m, c, pid, t, end)
  {
    hide Shaped, Inv, Aged, MailKept, Step, Sleeps, WaitEnds;
    if hs != [] {
      var before, h := hs[..|hs| - 1], hs[|hs| - 1];
      NotEarly(k, before, c, pid, t, end);
      StepKeeps(Run(k, before), h);
      SameSize(Run(k, before), Step(Run(k, before), h));
      if Sleeps(Run(k, before), c, pid, t, end) {
        SleeperThere(Run(k, before), c, pid, t, end);
        SleepStep(Run(k, before), h, c, pid, t, end);
        assert EndsAt(k, hs, |hs| - 1, c, pid, t, end) || Sleeps(Run(k, hs), c, pid, t, end);
      } else {
        var m: nat :| m < |before| && EndsAt(k, before, m, c, pid, t, end);
        assert before[..m] == hs[..m];
        assert EndsAt(k, hs, m, c, pid, t, end);
      }
    }
  }

  lemma SleeperThere(k: Kernel, c: nat, pid: nat, t: MsgType, end: nat)
    requires Sleeps(k, c, pid, t, end)
    ensures c < |k.procs|
  {
  }

  /** The wait ends in step `m` of the run, as it should. */
  ghost predicate EndsAt(k: Kernel, hs: seq<Happening>, m: nat, c: nat, pid: nat, t: MsgType, end: nat)
    requires Shaped(k) && m < |hs|
  {
    && c < |Run(k, hs[..m]).procs| == |Step(Run(k, hs[..m]), hs[m]).procs|
    && Sleeps(Run(k, hs[..m]), c, pid, t, end) && WaitEnds(Run(k, hs[..m]), hs[m], c, t, end)
  }

  /** A receive with a time limit, in any run: it does not end early, and no round from its end on leaves it waiting. */
  lemma WakesInTime(n: nat, hs0: seq<Happening>, t: MsgType, now: nat, maxTime: nat, hs: seq<Happening>, later: nat)
    requires n > 0 && t != Reply && maxTime > 0 && AtLarge(Run(Boot(n), hs0))
    requires var k := Run(Boot(n), hs0); k.procs[k.current].Box(t).messages == []
    ensures var k := Run(Boot(n), hs0);
            var c, pid, end := k.current, k.procs[k.current].pid, now + maxTime;
            var k1 := Step(k, Receiving(t, now, maxTime)); var k2 := Run(k1, hs);
            && (Sleeps(k2, c, pid, t, end) || exists m: nat :: m < |hs| && EndsAt(k1, hs, m, c, pid, t, end))
            && (Sleeps(k2, c, pid, t, end) && k2.phase == Scheduling && end <= later && !Late(k2, later) ==>
                 !Sleeps(Step(k2, Dispatching(later)), c, pid, t, end))
  {
    hide Inv, Aged, MailKept, Step, Sleeps, Boot, Run, EndsAt;
    var k := Run(Boot(n), hs0);
    var c, pid, end := k.current, k.procs[k.current].pid, now + maxTime;
    RunKeeps(n, hs0);
    FallsAsleep(k, t, now, maxTime);
    var k1 := Step(k, Receiving(t, now, maxTime));
    StepKeeps(k, Receiving(t, now, maxTime));
    NotEarly(k1, hs, c, pid, t, end);
    if Sleeps(Run(k1, hs), c, pid, t, end) {
      SleepStep(Run(k1, hs), Dispatching(later), c, pid, t, end);
    }
  }
}
