/** Who dies when processes are killed, and what the others get to know of it. */
module ProcessDeaths {
  import opened Options
  import opened Processes
  import opened ProcessInvariant
  import opened ProcessEffects

  /** The message that an owner gets when a process of its dies. */
  function DeathNote(p: Proc, status: int): Message {
    Message(p.pid, p.uid, [1, p.pid, status])
  }

  /** Nothing came but `events`, and they are the last of the events. */
  predicate GotEvents(p: Proc, q: Proc, events: seq<Message>) {
    q.request.messages == p.request.messages && q.reply.messages == p.reply.messages
    && q.event.messages == p.event.messages + events
  }

  /** The notes to process `pid` about the dead among slots `i` and up, in the order of the process table. */
  function NotesTo(k: Kernel, dead: set<nat>, status: int, pid: nat, i: nat := 0): seq<Message>
    decreases |k.procs| - i
  {
    if i >= |k.procs| then []
    else NoteOf(k, dead, status, pid, i) + NotesTo(k, dead, status, pid, i + 1)
  }

  function NoteOf(k: Kernel, dead: set<nat>, status: int, pid: nat, i: nat): seq<Message>
    requires i < |k.procs|
  {
    if i in dead && k.procs[i].owner == pid then [DeathNote(k.procs[i], status)] else []
  }

  /** What becomes of slot `c` when exactly the processes `dead` die: whoever is not among them lives on, and gets a note
      about each of its own that died. */
  predicate Fate(k: Kernel, dead: set<nat>, status: int, c: nat, q: Proc)
    requires c < |k.procs|
  {
    var p := k.procs[c];
    if !Live(p) || c in dead then !Live(q)
    else LivesOn(p, q) && GotEvents(p, q, NotesTo(k, dead, status, p.pid))
  }

  ghost predicate Fates(k: Kernel, dead: set<nat>, status: int, k': Kernel) {
    |k'.procs| == |k.procs| && forall c | 0 <= c < |k.procs| :: Fate(k, dead, status, c, k'.procs[c])
  }

  // ---------------------------------------------------------------- one death

  lemma {:induction false} NoteOfOne(k: Kernel, dead: set<nat>, i: nat, status: int, pid: nat, j: nat)
    requires i < |k.procs| && dead <= {i}
    ensures NotesTo(k, dead, status, pid, j) ==
            if j <= i && i in dead && k.procs[i].owner == pid then [DeathNote(k.procs[i], status)] else []
    decreases |k.procs| - j
  {
    if j < |k.procs| {
      NoteOfOne(k, dead, i, status, pid, j + 1);
    }
  }

  lemma Alive(k: Kernel, c: nat)
    requires Inv(k) && c < |k.procs|
    ensures Shaped(k) && PidsOk(k) && (Live(k.procs[c]) ==> BoxesOk(k.procs[c]))
  {
  }

  /** What an event does to slot `c`. */
  lemma EventArrives(k: Kernel, src: nat, uid: nat, dst: nat, contents: seq<int>, c: nat)
    requires Shaped(k) && PidsOk(k) && c < |k.procs| && (Live(k.procs[c]) ==> BoxesOk(k.procs[c]))
    ensures var p, q := k.procs[c], Send(k, src, uid, dst, Event, contents).procs[c];
            if Live(p) && p.pid == dst then LivesOn(p, q) && GotEvents(p, q, [Message(src, uid, contents)]) && q.reply == p.reply
            else q == p
  {
    hide Shaped, SameRunner, Send, LivesOn;
    SlotAfterSend(k, src, uid, dst, Event, contents, c);
  }

  lemma DiedAlone(k: Kernel, i: nat)
    requires Inv(k) && i < |k.procs| && Live(k.procs[i])
    ensures Shaped(k) && PidsOk(Die(k, i)) && Die(k, i).procs == k.procs[i := k.procs[i].(state := Zombie)]
  {
  }

  /** A process other than the one that dies: it may get a note, and its call may fail. */
  lemma DeathIs(k: Kernel, i: nat, status: int, c: nat)
    requires Inv(k) && i < |k.procs| && Live(k.procs[i]) && c < |k.procs| && c != i
    ensures var p, q, k' := k.procs[i], k.procs[c], Term(k, i, status);
            && |k'.procs| == |k.procs|
            && if !Live(q) then k'.procs[c] == q
               else
                 && LivesOn(q, k'.procs[c]) && GotEvents(q, k'.procs[c], if q.pid == p.owner then [DeathNote(p, status)] else [])
                 && (WaitsFor(q, p.pid) ==> k'.procs[c].state == Runnable)
                 && (!WaitsFor(q, p.pid) && q.pid != p.owner ==> k'.procs[c] == q)
  {
    hide Shaped, Inv, PidsOk, SameRunner, Send, FailCalls, Die, LivesOn, Quiet, Awake, BoxesOk, SendTarget;
    Alive(k, c);
    DiedAlone(k, i);
    var p, k1 := k.procs[i], Die(k, i);
    EventArrives(k1, p.pid, p.uid, p.owner, [MEV_PROCDIED, p.pid, status], c);
    var k2 := Send(k1, p.pid, p.uid, p.owner, Event, [MEV_PROCDIED, p.pid, status]);
    SameTable(k1, k2);
    SameTable(k2, Term(k, i, status));
    CallsFailed(k2, p.pid, 0);
    LivesOnAfter(k.procs[c], k2.procs[c], p.pid);
    Itself(k.procs[c]);
  }

  lemma SameTable(k: Kernel, k': Kernel)
    requires SameRunner(k, k')
    ensures |k'.procs| == |k.procs| && k'.current == k.current
  {
  }

  /** A failed call does not end a receive. */
  lemma LivesOnAfter(p: Proc, q: Proc, pid: nat)
    ensures LivesOn(p, q) && BoxesOk(p) && q.reply == p.reply && WaitsFor(q, pid) ==> LivesOn(p, Quiet(Awake(q)))
    ensures WaitsFor(q, pid) || LivesOn(p, q) ==> Live(q)
    ensures Quiet(Awake(q)).state == Runnable
    ensures WaitsFor(p, pid) && LivesOn(p, q) && q.reply == p.reply && q.state == Waiting ==> WaitsFor(q, pid)
    ensures HasAll(q, Quiet(Awake(q)))
  {
  }

  lemma FateOfOne(k: Kernel, i: nat, status: int)
    requires Inv(k) && i < |k.procs| && Live(k.procs[i])
    ensures Fates(k, {i}, status, Term(k, i, status))
  {
    hide Shaped, Inv, SameRunner, Term, NotesTo, LivesOn, GotEvents;
    Alive(k, i);
    Terminated(k, i, status);
    var k' := Term(k, i, status);
    SameTable(k, k');
    forall c | 0 <= c < |k.procs| ensures Fate(k, {i}, status, c, k'.procs[c]) {
      if c != i {
        DeathIs(k, i, status, c);
        NoteOfOne(k, {i}, i, status, k.procs[c].pid, 0);
      }
    }
  }

  lemma NobodyDies(k: Kernel, k': Kernel, status: int)
    requires |k'.procs| == |k.procs|
    requires forall c | 0 <= c < |k.procs| :: if Live(k.procs[c]) then k'.procs[c] == k.procs[c] else !Live(k'.procs[c])
    ensures Fates(k, {}, status, k')
  {
    hide LivesOn, NotesTo;
    forall c | 0 <= c < |k.procs| && Live(k.procs[c]) ensures Fate(k, {}, status, c, k'.procs[c]) {
      Itself(k.procs[c]);
      NoteOfOne(k, {}, c, status, k.procs[c].pid, 0);
    }
  }

  /** The system stops when it is not down at the curfew. */
  predicate Late(k: Kernel, now: nat) {
    k.curfew != 0 && now > k.curfew
  }

  // ---------------------------------------------------------------- kills

  /** The system and the superuser kill everybody, others the processes of their own user. */
  predicate MayKill(who: Option<nat>, p: Proc) {
    who == None || who == Some(0) || who == Some(p.uid)
  }

  /** A kill strikes exactly if the process lives and the killer may.  Whoever waits, but for the current process, is gone
      at once; others are zombies. */
  lemma ZapIs(k: Kernel, who: Option<nat>, i: nat, status: int)
    requires Inv(k) && i < |k.procs|
    ensures Shaped(k) && Fates(k, if Live(k.procs[i]) && MayKill(who, k.procs[i]) then {i} else {}, status, Zap(k, who, i, status))
    ensures Live(k.procs[i]) && MayKill(who, k.procs[i]) ==>
      Zap(k, who, i, status).procs[i].state == if k.procs[i].state == Waiting && i != k.current then Free else Zombie
  {
    hide Shaped, Inv, SameRunner, Term, Fate;
    Alive(k, i);
    if Live(k.procs[i]) && MayKill(who, k.procs[i]) {
      FateOfOne(k, i, status);
      Terminated(k, i, status);
      SlotGone(k, Term(k, i, status), i, status);
    } else {
      NobodyDies(k, k, status);
    }
  }

  lemma SlotGone(k: Kernel, k': Kernel, i: nat, status: int)
    requires Fates(k, {i}, status, k') && i < |k.procs| && Shaped(k')
    ensures Fates(k, {i}, status, Release(k', i))
  {
    hide Shaped, NotesTo, LivesOn, SameRunner;
    assert forall c | 0 <= c < |k.procs| && c != i :: Fate(k, {i}, status, c, k'.procs[c]);
  }

  /** Whom a killer strikes from slot `i` on. */
  ghost function Prey(k: Kernel, who: Option<nat>, all: bool, i: nat): set<nat> {
    set c: nat | i <= c < |k.procs| && Live(k.procs[c]) && (all || k.procs[c].interruptable) && MayKill(who, k.procs[c])
  }

  /** Those that die first do not change who the others are. */
  lemma {:induction false} NotesAdd(k: Kernel, k1: Kernel, i: nat, first: set<nat>, later: set<nat>, status: int, pid: nat, j: nat)
    requires |k1.procs| == |k.procs| && i < |k.procs| && first <= {i} && forall c <- later :: i < c
    requires forall c <- later | c < |k.procs| ::
      k1.procs[c].pid == k.procs[c].pid && k1.procs[c].uid == k.procs[c].uid && k1.procs[c].owner == k.procs[c].owner
    ensures NotesTo(k, first + later, status, pid, j) == NotesTo(k, first, status, pid, j) + NotesTo(k1, later, status, pid, j)
    decreases |k.procs| - j
  {
    if j < |k.procs| {
      NotesAdd(k, k1, i, first, later, status, pid, j + 1);
      NoteOfOne(k, first, i, status, pid, j + 1);
      var a, b := NoteOf(k, first, status, pid, j), NoteOf(k1, later, status, pid, j);
      var s, t := NotesTo(k, first, status, pid, j + 1), NotesTo(k1, later, status, pid, j + 1);
      Regrouped(a, b, s, t);
    }
  }

  lemma Regrouped(a: seq<Message>, b: seq<Message>, s: seq<Message>, t: seq<Message>)
    ensures b == [] || s == [] ==> (a + b) + (s + t) == (a + s) + (b + t)
    ensures a + [] == a && [] + b == b
  {
  }

  lemma FateAdds(k: Kernel, k1: Kernel, i: nat, first: set<nat>, later: set<nat>, status: int, c: nat, q: Proc)
    requires Fates(k, first, status, k1) && i < |k.procs| && first <= {i} && (forall d <- later :: i < d) && c < |k.procs|
    requires forall d <- later | d < |k.procs| :: LivesOn(k.procs[d], k1.procs[d])
    requires Fate(k1, later, status, c, q)
    ensures Fate(k, first + later, status, c, q)
  {
    hide NotesTo;
    NotesAdd(k, k1, i, first, later, status, k.procs[c].pid, 0);
    assert Fate(k, first, status, c, k1.procs[c]);
  }

  lemma PreyLeft(k: Kernel, k1: Kernel, who: Option<nat>, all: bool, i: nat, first: set<nat>, status: int)
    requires Fates(k, first, status, k1) && i < |k.procs| && first == Prey(k, who, all, i) * {i}
    ensures Prey(k, who, all, i) == first + Prey(k1, who, all, i + 1)
    ensures forall d <- Prey(k1, who, all, i + 1) :: LivesOn(k.procs[d], k1.procs[d])
  {
    hide NotesTo;
    forall c | i < c < |k.procs|
      ensures c in Prey(k, who, all, i) <==> c in Prey(k1, who, all, i + 1)
      ensures Live(k1.procs[c]) ==> LivesOn(k.procs[c], k1.procs[c])
    {
      assert Fate(k, first, status, c, k1.procs[c]);
    }
  }

  /** One more strike. */
  lemma Struck(k: Kernel, k1: Kernel, k': Kernel, who: Option<nat>, all: bool, i: nat, status: int)
    requires i < |k.procs| && Fates(k, Prey(k, who, all, i) * {i}, status, k1)
    requires Fates(k1, Prey(k1, who, all, i + 1), status, k')
    ensures Fates(k, Prey(k, who, all, i), status, k')
  {
    hide Prey, Fate, LivesOn;
    var first, later := Prey(k, who, all, i) * {i}, Prey(k1, who, all, i + 1);
    PreyLeft(k, k1, who, all, i, first, status);
    PreyAbove(k1, who, all, i + 1);
    forall c | 0 <= c < |k.procs| ensures Fate(k, first + later, status, c, k'.procs[c]) {
      FateAdds(k, k1, i, first, later, status, c, k'.procs[c]);
    }
  }

  lemma PreyAbove(k: Kernel, who: Option<nat>, all: bool, i: nat)
    ensures forall c <- Prey(k, who, all, i) :: i <= c
    ensures i >= |k.procs| ==> Prey(k, who, all, i) == {}
    ensures i < |k.procs| ==>
      Prey(k, who, all, i) * {i} == if Live(k.procs[i]) && (all || k.procs[i].interruptable) && MayKill(who, k.procs[i]) then {i} else {}
  {
  }

  /** A kill of everybody: of the interruptable processes exactly those die that the killer may kill. */
  lemma {:induction false} FateOfAll(k: Kernel, uid: nat, status: int, i: nat)
    requires Shaped(k) && Inv(k)
    ensures Fates(k, Prey(k, Some(uid), false, i), status, KillAll(k, uid, status, i))
    decreases |k.procs| - i
  {
    hide Shaped, Inv, SameRunner, Zap, Prey, Fate;
    PreyAbove(k, Some(uid), false, i);
    NobodyDies(k, k, status);
    if i < |k.procs| {
      ZapIs(k, Some(uid), i, status);
      Zapped(k, Some(uid), i, status);
      var k1 := if k.procs[i].state != Free && k.procs[i].interruptable then Zap(k, Some(uid), i, status) else k;
      FateOfAll(k1, uid, status, i + 1);
      Struck(k, k1, KillAll(k1, uid, status, i + 1), Some(uid), false, i, status);
    }
  }

  /** A round of the scheduler during a shutdown kills everybody. */
  lemma {:induction false} FateInShutdown(k: Kernel, now: nat, i: nat)
    requires Shaped(k) && Inv(k) && k.shuttingDown
    ensures Fates(k, Prey(k, None, true, i), STAT_SHUTDOWN, ScanAll(k, now, i))
    decreases |k.procs| - i
  {
    hide Shaped, Inv, SameRunner, Zap, Prey, Fate;
    PreyAbove(k, None, true, i);
    NobodyDies(k, k, STAT_SHUTDOWN);
    if i < |k.procs| {
      ZapIs(k, None, i, STAT_SHUTDOWN);
      Zapped(k, None, i, STAT_SHUTDOWN);
      var k1 := Scan(k, now, i);
      ShutdownGoesOn(k, now, i);
      FateInShutdown(k1, now, i + 1);
      Struck(k, k1, ScanAll(k1, now, i + 1), None, true, i, STAT_SHUTDOWN);
    }
  }

  lemma {:induction false} CallsFailInShutdown(k: Kernel, pid: nat, i: nat)
    requires Shaped(k)
    ensures FailCalls(k, pid, i).shuttingDown == k.shuttingDown && FailCalls(k, pid, i).phase == k.phase
    decreases |k.procs| - i
  {
    hide Aged, MailKept;
    if i < |k.procs| {
      CallsFailInShutdown(FailCall(k, pid, i), pid, i + 1);
    }
  }

  lemma ShutdownGoesOn(k: Kernel, now: nat, i: nat)
    requires Shaped(k) && i < |k.procs|
    ensures Scan(k, now, i).shuttingDown == k.shuttingDown && (k.phase != Running ==> Scan(k, now, i).phase == k.phase)
    ensures k.shuttingDown && !Live(k.procs[i]) ==> Scan(k, now, i) == k
  {
    hide FailCalls, Aged, MailKept;
    var p := k.procs[i];
    CallsFailInShutdown(Send(Die(k, i), p.pid, p.uid, p.owner, Event, [MEV_PROCDIED, p.pid, STAT_SHUTDOWN]), p.pid, 0);
  }

  /** The processes that a kill by process `killer` strikes: the one with the given pid, or with pid 0 all that are
      interruptable, each if the killer may kill it. */
  ghost function Victims(k: Kernel, killer: nat, pid: nat): set<nat> {
    set c: nat | 0 <= c < |k.procs| && Live(k.procs[c]) && (if pid == 0 then k.procs[c].interruptable else k.procs[c].pid == pid)
                 && exists a :: 0 <= a < |k.procs| && k.procs[a].state != Free && k.procs[a].pid == killer
                                && MayKill(Some(k.procs[a].uid), k.procs[c])
  }

  lemma VictimsAre(k: Kernel, killer: nat, pid: nat)
    requires Inv(k)
    ensures var a := Find(k.procs, killer);
            if a == None then Victims(k, killer, pid) == {}
            else
              var who := Some(k.procs[a.value].uid);
              if pid == 0 then Victims(k, killer, pid) == Prey(k, who, false, 0)
              else
                var v := Find(k.procs, pid);
                Victims(k, killer, pid) == if v.Some? && Live(k.procs[v.value]) && MayKill(who, k.procs[v.value]) then {v.value} else {}
  {
    hide Inv;
    FoundFirst(k, killer);
    FoundFirst(k, pid);
  }

  lemma KillIs(k: Kernel, killer: nat, pid: nat, status: int)
    requires Shaped(k) && Inv(k)
    ensures Fates(k, Victims(k, killer, pid), status, Kill(k, killer, pid, status))
  {
    hide Shaped, Inv, SameRunner, Zap, KillAll, Prey, Victims, Fate;
    VictimsAre(k, killer, pid);
    NobodyDies(k, k, status);
    var a := Find(k.procs, killer);
    if a.Some? {
      var uid := k.procs[a.value].uid;
      if pid == 0 {
        FateOfAll(k, uid, status, 0);
      } else if Find(k.procs, pid).Some? {
        ZapIs(k, Some(uid), Find(k.procs, pid).value, status);
      }
    }
  }

  lemma ZapPhase(k: Kernel, who: Option<nat>, i: nat, status: int)
    requires Shaped(k) && i < |k.procs|
    ensures var k' := Zap(k, who, i, status);
            && k'.current == k.current
            && k'.phase == if Live(k.procs[i]) && MayKill(who, k.procs[i]) && i == k.current && k.phase == Running then Scheduling else k.phase
  {
    hide FailCalls, Aged, MailKept;
    var p := k.procs[i];
    CallsFailInShutdown(Send(Die(k, i), p.pid, p.uid, p.owner, Event, [MEV_PROCDIED, p.pid, status]), p.pid, 0);
  }

  lemma {:induction false} PhaseOfAll(k: Kernel, uid: nat, status: int, i: nat)
    requires Shaped(k) && Inv(k) && k.current < |k.procs|
    ensures var k' := KillAll(k, uid, status, i);
            && k'.current == k.current < |k'.procs|
            && (k'.phase == k.phase || (k'.phase == Scheduling && !Live(k'.procs[k.current])))
    decreases |k.procs| - i
  {
    hide Shaped, Inv, SameRunner, Zap, Prey;
    if i < |k.procs| {
      ZapIs(k, Some(uid), i, status);
      ZapPhase(k, Some(uid), i, status);
      Zapped(k, Some(uid), i, status);
      var k1 := if k.procs[i].state != Free && k.procs[i].interruptable then Zap(k, Some(uid), i, status) else k;
      PhaseOfAll(k1, uid, status, i + 1);
      FateOfAll(k1, uid, status, i + 1);
    }
  }

  /** A kill of everybody ends the turn of the current process exactly if that is dead, and a kill of one process exactly if
      that is a zombie afterwards. */
  lemma KillYields(k: Kernel, killer: nat, pid: nat, status: int, a: nat)
    requires Shaped(k) && Inv(k) && k.phase == Running && a < |k.procs| && k.procs[a].state != Free && k.procs[a].pid == killer
    ensures var k' := Kill(k, killer, pid, status);
            && |k'.procs| == |k.procs|
            && if pid == 0 then k'.phase == if Live(k'.procs[k.current]) then Running else Scheduling
               else
                 && (forall v | 0 <= v < |k.procs| && k.procs[v].state != Free && k.procs[v].pid == pid ::
                      k'.phase == if k'.procs[v].state == Zombie then Scheduling else Running)
                 && ((forall v | 0 <= v < |k.procs| && k.procs[v].state != Free :: k.procs[v].pid != pid) ==> k'.phase == Running)
  {
    hide Inv, SameRunner, Zap, KillAll, Fate;
    FoundFirst(k, killer);
    FoundFirst(k, pid);
    var uid := k.procs[a].uid;
    if pid == 0 {
      FateOfAll(k, uid, status, 0);
      PhaseOfAll(k, uid, status, 0);
      AllKilled(k, uid, status, 0);
      CurrentIs(KillAll(k, uid, status, 0));
    } else if Find(k.procs, pid).Some? {
      var v := Find(k.procs, pid).value;
      ZapIs(k, Some(uid), v, status);
      ZapPhase(k, Some(uid), v, status);
      CurrentIs(k);
    }
  }

  lemma CurrentIs(k: Kernel)
    requires Inv(k)
    ensures k.current < |k.procs| && k.procs[k.current].state != Free
    ensures k.phase == Running ==> k.procs[k.current].state == Runnable
  {
  }

  // ---------------------------------------------------------------- the scheduler

  /** The scheduler does nothing to live processes when it picks the next one. */
  lemma {:induction false} PickSpares(k: Kernel, l: nat)
    requires Shaped(k) && Inv(k)
    ensures var k' := Pick(k, l).0;
            |k'.procs| == |k.procs| &&
            forall c | 0 <= c < |k.procs| :: if Live(k.procs[c]) then k'.procs[c] == k.procs[c] else !Live(k'.procs[c])
    decreases MLFQ_LEVELS - l, if l < MLFQ_LEVELS then |k.mlfq[l]| else 0
  {
    hide Inv, Aged, MailKept;
    if l >= MLFQ_LEVELS {
    } else if k.mlfq[l] == [] {
      PickSpares(k, l + 1);
    } else if k.procs[k.mlfq[l][0]].state != Runnable {
      ZombieReleased(k, l);
      PickSpares(Release(Popped(k, l), k.mlfq[l][0]), l);
    }
  }

  /** A process but for its quantum. */
  predicate Untouched(p: Proc, q: Proc) {
    if Live(p) then q.(ticksLeft := p.ticksLeft) == p else !Live(q)
  }

  /** Nor does it when it switches. */
  lemma SwitchSpares(k: Kernel, next: nat)
    requires Shaped(k) && next < |k.procs|
    ensures var k' := SwitchTo(k, next); |k'.procs| == |k.procs| && forall c | 0 <= c < |k.procs| :: Untouched(k.procs[c], k'.procs[c])
  {
    hide Aged, MailKept;
  }

  lemma ChooseSpares(k: Kernel)
    requires Shaped(k) && Inv(k)
    ensures var k' := Choose(k); |k'.procs| == |k.procs| && forall c | 0 <= c < |k.procs| :: Untouched(k.procs[c], k'.procs[c])
  {
    hide Shaped, Inv, SameRunner, Aged, MailKept, Pick, SwitchTo;
    PickSpares(k, 0);
    var (k1, next) := Pick(k, 0);
    if next.Some? {
      SwitchSpares(k1, next.value);
    }
  }
}
