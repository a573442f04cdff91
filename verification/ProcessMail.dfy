/** What one step of the process machine does to every process that is alive: its death, its mail and its alarm. */
module ProcessMail {
  import opened Options
  import opened Processes
  import opened ProcessInvariant
  import opened ProcessRuns
  import opened ProcessEffects
  import opened ProcessDeaths
  import opened ProcessAlarms

  // ---------------------------------------------------------------- what a step does

  /** The slots whose processes die in a step. */
  ghost function Dying(k: Kernel, h: Happening): set<nat>
    requires Shaped(k)
  {
    if k.phase == Halted then {}
    else match h
      case Exiting(_) => if AtLarge(k) then {k.current} else {}
      case Killing(killer, pid, _) => Victims(k, killer, pid)
      case Dispatching(now) => if k.phase == Scheduling && k.shuttingDown && !Late(k, now) then Prey(k, None, true, 0) else {}
      case _ => {}
  }

  /** The alarm of the process rings in a step. */
  predicate Rings(k: Kernel, h: Happening, p: Proc) {
    h.Dispatching? && k.phase == Scheduling && !k.shuttingDown && !Late(k, h.now) && Due(p, h.now)
  }

  function StatusOf(h: Happening): int {
    match h
    case Exiting(status) => status
    case Killing(_, _, status) => status
    case _ => STAT_SHUTDOWN
  }

  /** The messages that a step sends to mailbox `t` of process `pid`. */
  ghost function Mailed(k: Kernel, h: Happening, pid: nat, t: MsgType): seq<Message>
    requires Shaped(k)
  {
    if k.phase == Halted || !LivePid(k, pid) then []
    else match h
      case Deliver(src, uid, dst, mtype, contents) =>
        if dst == pid && mtype == t && Accepts(k, src, pid, t) then [Message(src, uid, contents)] else []
      case Calling(server, contents, _) =>
        var me := k.procs[k.current];
        if AtLarge(k) && server == pid && pid != me.pid && t == Request then [Message(me.pid, me.uid, contents)] else []
      case _ => if t == Event then NotesTo(k, Dying(k, h), StatusOf(h), pid) else []
  }

  /** The message that process `pid` gets out of mailbox `t` in a step. */
  function Taken(k: Kernel, h: Happening, pid: nat, t: MsgType): seq<Message>
    requires Shaped(k)
  {
    var me := k.procs[k.current];
    if h == Resuming && k.phase == Running && me.pid == pid && Awaited(me.resume) == Some(t) && Finish(k).1.Some? then
      [Finish(k).1.value]
    else []
  }

  ghost predicate Balances(k: Kernel, h: Happening, p: Proc, q: Proc, t: MsgType)
    requires Shaped(k)
  {
    Taken(k, h, p.pid, t) + q.Box(t).messages == p.Box(t).messages + Mailed(k, h, p.pid, t)
  }

  /** The process in slot `c` before and after a step: it dies if it should, and else it has the mail it had and the new mail,
      but for what it took; if it waits, it wakes up when its alarm rings, or when it has got what it waits for. */
  ghost predicate Goes(k: Kernel, h: Happening, c: nat, q: Proc)
    requires Shaped(k) && c < |k.procs|
  {
    var p := k.procs[c];
    if c in Dying(k, h) then !Live(q)
    else
      && Live(q) && q.pid == p.pid && Balances(k, h, p, q, Request) && Balances(k, h, p, q, Reply) && Balances(k, h, p, q, Event)
      && (p.state == Waiting ==> if Rings(k, h, p) then q.state == Runnable else LivesOn(p, q))
  }

  // ---------------------------------------------------------------- one happening at a time

  /** A step that sends nothing and kills nobody. */
  predicate Still(h: Happening) {
    h.Receiving? || h.Spawning? || h.Ticking? || h.Yielding? || h.Marking? || h.Shutdown?
  }

  lemma NoNotes(k: Kernel, status: int, pid: nat)
    ensures NotesTo(k, {}, status, pid) == []
  {
    if |k.procs| > 0 {
      NoteOfOne(k, {}, 0, status, pid, 0);
    }
  }

  lemma NothingSent(k: Kernel, h: Happening, p: Proc, q: Proc, t: MsgType)
    requires Shaped(k) && (k.phase == Halted || (!h.Deliver? && !h.Calling? && h != Resuming && Dying(k, h) == {}))
    requires HasAll(p, q)
    ensures Balances(k, h, p, q, t)
  {
    NoNotes(k, StatusOf(h), p.pid);
  }

  lemma NotesSent(k: Kernel, h: Happening, c: nat, q: Proc, t: MsgType)
    requires Shaped(k) && c < |k.procs| && !h.Deliver? && !h.Calling? && h != Resuming && k.phase != Halted
    requires Live(k.procs[c]) && GotEvents(k.procs[c], q, NotesTo(k, Dying(k, h), StatusOf(h), k.procs[c].pid))
    ensures Balances(k, h, k.procs[c], q, t)
  {
    hide NotesTo, Dying;
    assert LivePid(k, k.procs[c].pid);
  }

  /** Deaths, with the notes about them. */
  lemma GoesByFate(k: Kernel, h: Happening, c: nat, q: Proc)
    requires Shaped(k) && c < |k.procs| && !h.Deliver? && !h.Calling? && h != Resuming && k.phase != Halted && Live(k.procs[c])
    requires Fate(k, Dying(k, h), StatusOf(h), c, q) && !Rings(k, h, k.procs[c])
    ensures Goes(k, h, c, q)
  {
    hide Shaped, NotesTo, Dying, Balances, LivesOn, Rings, GotEvents, StatusOf;
    if c !in Dying(k, h) {
      NotesSent(k, h, c, q, Request);
      NotesSent(k, h, c, q, Reply);
      NotesSent(k, h, c, q, Event);
      LivesOnIs(k.procs[c], q);
    }
  }

  lemma LivesOnIs(p: Proc, q: Proc)
    ensures LivesOn(p, q) ==> Live(q) && q.pid == p.pid
  {
  }

  /** Nothing but what the process itself does, or its alarm. */
  lemma GoesQuietly(k: Kernel, h: Happening, c: nat, q: Proc)
    requires Shaped(k) && c < |k.procs| && (k.phase == Halted || (!h.Deliver? && !h.Calling? && h != Resuming))
    requires Dying(k, h) == {} && Live(q) && q.pid == k.procs[c].pid && HasAll(k.procs[c], q)
    requires k.procs[c].state == Waiting ==> if Rings(k, h, k.procs[c]) then q.state == Runnable else LivesOn(k.procs[c], q)
    ensures Goes(k, h, c, q)
  {
    hide Shaped, Dying, Balances, LivesOn, Rings, HasAll;
    NothingSent(k, h, k.procs[c], q, Request);
    NothingSent(k, h, k.procs[c], q, Reply);
    NothingSent(k, h, k.procs[c], q, Event);
  }

  lemma StillGoes(k: Kernel, h: Happening, c: nat)
    requires Shaped(k) && Inv(k) && c < |k.procs| && Live(k.procs[c]) && (Still(h) || k.phase == Halted)
    ensures Goes(k, h, c, Step(k, h).procs[c])
  {
    hide Shaped, Inv, Step, HasAll, Rings, LivesOn, Goes, Live;
    RunnerNeeds(k);
    StillSlot(k, h, c);
    NobodyStirs(k, h, k.procs[c]);
    GoesQuietly(k, h, c, Step(k, h).procs[c]);
  }

  lemma RunnerNeeds(k: Kernel)
    requires Shaped(k) && Inv(k)
    ensures k.current < |k.procs| && (k.phase == Running ==> k.procs[k.current].state == Runnable)
    ensures k.freeSlots != [] ==> k.procs[k.freeSlots[0]].state == Free
  {
  }

  lemma StillSlot(k: Kernel, h: Happening, c: nat)
    requires Shaped(k) && c < |k.procs| && Live(k.procs[c]) && (Still(h) || k.phase == Halted)
    requires k.phase == Running ==> k.procs[k.current].state == Runnable
    requires k.freeSlots != [] ==> k.procs[k.freeSlots[0]].state == Free
    ensures var p, q := k.procs[c], Step(k, h).procs[c];
            Live(q) && q.pid == p.pid && HasAll(p, q) && (p.state == Waiting ==> q == p)
  {
    hide Aged, MailKept, Recv;
    if h.Receiving? && AtLarge(k) && h.mtype != Reply {
      ReceiveWaits(k, h.mtype, h.now, h.maxTime);
    }
  }

  lemma NobodyStirs(k: Kernel, h: Happening, p: Proc)
    requires Shaped(k) && (Still(h) || k.phase == Halted)
    ensures Dying(k, h) == {} && !Rings(k, h, p) && (Live(p) ==> LivesOn(p, p))
    ensures k.phase == Halted || (!h.Deliver? && !h.Calling? && h != Resuming)
  {
  }

  lemma InvNeeds(k: Kernel, c: nat)
    requires Inv(k) && c < |k.procs|
    ensures PidsOk(k) && (Live(k.procs[c]) ==> BoxesOk(k.procs[c]))
  {
  }

  lemma DeliverGoes(k: Kernel, h: Happening, c: nat)
    requires Shaped(k) && Inv(k) && c < |k.procs| && Live(k.procs[c]) && h.Deliver? && k.phase != Halted
    ensures Goes(k, h, c, Step(k, h).procs[c])
  {
    hide Shaped, Inv, PidsOk, BoxesOk, SameRunner, Send, LivesOn, Balances, Gets;
    InvNeeds(k, c);
    SlotAfterSend(k, h.src, h.uid, h.dst, h.mtype, h.contents, c);
    var p, q := k.procs[c], Step(k, h).procs[c];
    DeliverBalances(k, h, c, q, Request);
    DeliverBalances(k, h, c, q, Reply);
    DeliverBalances(k, h, c, q, Event);
    LivesOnIs(p, q);
    Itself(p);
  }

  lemma DeliverBalances(k: Kernel, h: Happening, c: nat, q: Proc, t: MsgType)
    requires Shaped(k) && PidsOk(k) && c < |k.procs| && Live(k.procs[c]) && h.Deliver? && k.phase != Halted
    requires var p := k.procs[c];
             if p.pid == h.dst && (h.mtype == Reply ==> p.state == Waiting && p.reply.waiting && p.server == h.src) then
               Gets(p, q, h.mtype, Message(h.src, h.uid, h.contents))
             else q == p
    ensures Balances(k, h, k.procs[c], q, t)
  {
    hide Shaped, PidsOk, Accepts;
    AcceptedHere(k, h.src, h.dst, h.mtype, c);
  }

  lemma AcceptedHere(k: Kernel, src: nat, dst: nat, t: MsgType, c: nat)
    requires PidsOk(k) && c < |k.procs| && Live(k.procs[c])
    ensures LivePid(k, k.procs[c].pid)
    ensures k.procs[c].pid == dst ==>
      (Accepts(k, src, dst, t) <==> (t == Reply ==> k.procs[c].state == Waiting && k.procs[c].reply.waiting && k.procs[c].server == src))
  {
  }

  lemma CallingGoes(k: Kernel, h: Happening, c: nat)
    requires Shaped(k) && Inv(k) && c < |k.procs| && Live(k.procs[c]) && h.Calling? && k.phase != Halted
    ensures Goes(k, h, c, Step(k, h).procs[c])
  {
    hide Shaped, Inv, PidsOk, BoxesOk, SameRunner, Send, SendTarget, Await, LivesOn, Balances, Gets, HasAll;
    InvNeeds(k, c);
    RunnerNeeds(k);
    var p, me := k.procs[c], k.procs[k.current];
    Itself(p);
    if AtLarge(k) {
      CallNeeds(k, h.server);
    }
    if !AtLarge(k) || h.server == me.pid || !LivePid(k, h.server) {
      assert Step(k, h) == k;
      CallBalances(k, h, c, p, Request);
      CallBalances(k, h, c, p, Reply);
      CallBalances(k, h, c, p, Event);
    } else {
      InvNeeds(k, k.current);
      SlotAfterSend(k, me.pid, me.uid, h.server, Request, h.contents, k.current);
      SlotAfterSend(k, me.pid, me.uid, h.server, Request, h.contents, c);
      AwaitIs(Send(k, me.pid, me.uid, h.server, Request, h.contents), h.server, h.now);
      CallBalances(k, h, c, Step(k, h).procs[c], Request);
      CallBalances(k, h, c, Step(k, h).procs[c], Reply);
      CallBalances(k, h, c, Step(k, h).procs[c], Event);
      LivesOnIs(p, Step(k, h).procs[c]);
    }
  }

  lemma CallBalances(k: Kernel, h: Happening, c: nat, q: Proc, t: MsgType)
    requires Shaped(k) && PidsOk(k) && c < |k.procs| && Live(k.procs[c]) && h.Calling? && k.phase != Halted
    requires var p, me := k.procs[c], k.procs[k.current];
             if AtLarge(k) && p.pid == h.server != me.pid then Gets(p, q, Request, Message(me.pid, me.uid, h.contents)) else HasAll(p, q)
    ensures Balances(k, h, k.procs[c], q, t)
  {
    hide Shaped, PidsOk;
    assert LivePid(k, k.procs[c].pid);
  }

  lemma ResumingGoes(k: Kernel, h: Happening, c: nat)
    requires Shaped(k) && Inv(k) && c < |k.procs| && Live(k.procs[c]) && h == Resuming && k.phase != Halted
    ensures Goes(k, h, c, Step(k, h).procs[c])
  {
    hide Shaped, Inv, PidsOk, BoxesOk, Aged, MailKept, LivesOn, Balances, Finish, HasAll;
    RunnerNeeds(k);
    InvNeeds(k, c);
    ResumedSlot(k, c);
    var p, q := k.procs[c], Step(k, h).procs[c];
    Itself(p);
    ResumeBalances(k, c, q, Request);
    ResumeBalances(k, c, q, Reply);
    ResumeBalances(k, c, q, Event);
  }

  lemma ResumedSlot(k: Kernel, c: nat)
    requires Shaped(k) && c < |k.procs|
    ensures var p, q := k.procs[c], Finish(k).0.procs[c];
            |Finish(k).0.procs| == |k.procs| && q.pid == p.pid && q.state == p.state && (c != k.current ==> q == p)
  {
    hide Aged;
  }

  lemma ResumeBalances(k: Kernel, c: nat, q: Proc, t: MsgType)
    requires Shaped(k) && PidsOk(k) && c < |k.procs| && Live(k.procs[c]) && k.phase != Halted
    requires k.phase == Running ==> k.procs[k.current].state == Runnable
    requires q == if k.phase == Running then Finish(k).0.procs[c] else k.procs[c]
    ensures Balances(k, Resuming, k.procs[c], q, t)
  {
    hide PidsOk, Aged, NotesTo;
    NoNotes(k, STAT_SHUTDOWN, k.procs[c].pid);
    OnePid(k, c);
  }

  lemma OnePid(k: Kernel, c: nat)
    requires Shaped(k) && PidsOk(k) && c < |k.procs| && Live(k.procs[c])
    ensures k.procs[k.current].state != Free && k.procs[k.current].pid == k.procs[c].pid ==> c == k.current
  {
  }

  lemma FateUntouched(k: Kernel, dead: set<nat>, status: int, c: nat, q: Proc, q': Proc)
    requires c < |k.procs| && Fate(k, dead, status, c, q) && Untouched(q, q')
    ensures Fate(k, dead, status, c, q')
  {
    hide NotesTo;
  }

  lemma RoundInShutdown(k: Kernel, h: Happening, c: nat)
    requires Shaped(k) && Inv(k) && c < |k.procs| && Live(k.procs[c]) && h.Dispatching? && k.phase == Scheduling
    requires k.shuttingDown && !Late(k, h.now)
    ensures Goes(k, h, c, Step(k, h).procs[c])
  {
    hide Shaped, Inv, SameRunner, Aged, MailKept, Choose, ScanAll, Prey, Fate, Untouched, Goes, Due;
    AllScanned(k, h.now, 0);
    FateInShutdown(k, h.now, 0);
    var k1 := ScanAll(k, h.now, 0);
    ChooseSpares(k1);
    FateUntouched(k, Prey(k, None, true, 0), STAT_SHUTDOWN, c, k1.procs[c], Choose(k1).procs[c]);
    GoesByFate(k, h, c, Choose(k1).procs[c]);
  }

  lemma RungOrNot(p: Proc, q: Proc, q': Proc, now: nat)
    requires Live(p) && (if Due(p, now) then Rung(p, q) else q == p) && Untouched(q, q')
    ensures Live(q') && q'.pid == p.pid && HasAll(p, q') && if Due(p, now) then q'.state == Runnable else LivesOn(p, q')
  {
  }

  lemma RoundWithAlarms(k: Kernel, h: Happening, c: nat)
    requires Shaped(k) && Inv(k) && c < |k.procs| && Live(k.procs[c]) && h.Dispatching? && k.phase == Scheduling
    requires !k.shuttingDown && !Late(k, h.now)
    ensures Goes(k, h, c, Step(k, h).procs[c])
  {
    hide Shaped, Inv, SameRunner, Aged, MailKept, Choose, ScanAll, DueAt, Rung, Untouched, Goes, Due, LivesOn, HasAll;
    AllScanned(k, h.now, 0);
    DueRing(k, h.now);
    var k1 := ScanAll(k, h.now, 0);
    ChooseSpares(k1);
    RungOrNot(k.procs[c], k1.procs[c], Choose(k1).procs[c], h.now);
    GoesQuietly(k, h, c, Choose(k1).procs[c]);
  }

  lemma RoundTooLate(k: Kernel, h: Happening, c: nat)
    requires Shaped(k) && c < |k.procs| && Live(k.procs[c]) && h.Dispatching? && k.phase == Scheduling && Late(k, h.now)
    ensures Goes(k, h, c, Step(k, h).procs[c])
  {
    hide Shaped, Aged, MailKept, Goes, Choose, ScanAll;
    Itself(k.procs[c]);
    GoesQuietly(k, h, c, k.procs[c]);
  }

  lemma ExitingGoes(k: Kernel, h: Happening, c: nat)
    requires Shaped(k) && Inv(k) && c < |k.procs| && Live(k.procs[c]) && h.Exiting? && k.phase != Halted
    ensures Goes(k, h, c, Step(k, h).procs[c])
  {
    hide Shaped, Inv, SameRunner, Term, Fate, Goes, LivesOn;
    RunnerNeeds(k);
    if AtLarge(k) {
      FateOfOne(k, k.current, h.status);
      GoesByFate(k, h, c, Step(k, h).procs[c]);
    } else {
      Itself(k.procs[c]);
      GoesQuietly(k, h, c, Step(k, h).procs[c]);
    }
  }

  /** What one step does to a process that is alive. */
  lemma StepGoes(k: Kernel, h: Happening, c: nat)
    requires Shaped(k) && Inv(k) && c < |k.procs| && Live(k.procs[c])
    ensures Goes(k, h, c, Step(k, h).procs[c])
  {
    hide Shaped, Inv, Goes, Fate, Kill, Victims, Round;
    if Still(h) || k.phase == Halted {
      StillGoes(k, h, c);
    } else {
      match h
      case Deliver(_, _, _, _, _) => DeliverGoes(k, h, c);
      case Calling(_, _, _) => CallingGoes(k, h, c);
      case Resuming => ResumingGoes(k, h, c);
      case Exiting(_) => ExitingGoes(k, h, c);
      case Killing(killer, pid, status) =>
        KillIs(k, killer, pid, status);
        GoesByFate(k, h, c, Step(k, h).procs[c]);
      case Dispatching(now) =>
        if k.phase != Scheduling {
          Itself(k.procs[c]);
          GoesQuietly(k, h, c, k.procs[c]);
        } else if Late(k, now) {
          RoundTooLate(k, h, c);
        } else if k.shuttingDown {
          RoundInShutdown(k, h, c);
        } else {
          RoundWithAlarms(k, h, c);
        }
    }
  }

  // ---------------------------------------------------------------- newcomers

  lemma PidsStay(k: Kernel, h: Happening)
    requires Shaped(k) && !h.Spawning?
    ensures Step(k, h).pidGen == k.pidGen
  {
    hide Aged, MailKept, Pick, ScanAll, Rpc, Recv, Kill, Send, Term, Tick;
  }

  /** Whoever is new after a step has a new pid and no mail. */
  lemma NewcomersMail(k: Kernel, h: Happening, c: nat)
    requires Shaped(k) && Inv(k) && c < |k.procs| && Live(Step(k, h).procs[c])
    requires !(Live(k.procs[c]) && k.procs[c].pid == Step(k, h).procs[c].pid)
    ensures var q := Step(k, h).procs[c]; q.pid >= k.pidGen && q.request.messages == q.reply.messages == q.event.messages == []
  {
    hide Shaped, Inv, MailKept, Create;
    StepKeeps(k, h);
    PidsBound(Step(k, h), c);
    if !h.Spawning? {
      PidsStay(k, h);
    } else {
      BirthIs(k, h.owner, h.uid);
    }
  }

  lemma PidsBound(k: Kernel, c: nat)
    requires Inv(k) && c < |k.procs| && Live(k.procs[c])
    ensures k.procs[c].pid < k.pidGen
  {
  }
}
