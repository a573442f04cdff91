/** The kernel's process machine: process table, run queues, mailboxes and scheduler, as in grass/process.c
    and grass/procsys.c.  This file has the states and what every kernel routine does to them. */
module Processes {
  import opened Options

  const MAX_PROCS := 100
  const MLFQ_LEVELS := 3
  const WORD_LIMIT := 0x1_0000_0000
  const STAT_SHUTDOWN := -1
  const MEV_PROCDIED := 1

  datatype RunState = Free | Runnable | Waiting | Zombie

  datatype MsgType = Request | Reply | Event

  datatype Message = Message(src: nat, uid: nat, contents: seq<int>)

  datatype Mbox = Mbox(waiting: bool, messages: seq<Message>)

  /** What a process does when the scheduler lets it run again. */
  datatype Resume = Ready | Receive(mtype: MsgType) | Call(server: nat)

  datatype Proc = Proc(pid: nat, uid: nat, owner: nat, state: RunState, ticksLeft: int, level: nat,
                       request: Mbox, reply: Mbox, event: Mbox, server: nat,
                       alarmSet: bool, exptime: nat, interruptable: bool, resume: Resume)
  {
    function Box(t: MsgType): Mbox {
      match t case Request => request case Reply => reply case Event => event
    }

    function WithBox(t: MsgType, box: Mbox): Proc {
      match t
      case Request => this.(request := box)
      case Reply => this.(reply := box)
      case Event => this.(event := box)
    }
  }

  datatype Phase = Running | Scheduling | Halted

  datatype Kernel = Kernel(procs: seq<Proc>, freeSlots: seq<nat>, mlfq: seq<seq<nat>>, current: nat,
                           nprocs: int, nrunnable: int, pidGen: nat, shuttingDown: bool, curfew: nat, phase: Phase)

  function Quantum(level: nat): int {
    if level == 0 then 10 else if level == 1 then 20 else 30
  }

  function EmptyBox(): Mbox { Mbox(false, []) }

  function NewProc(pid: nat, uid: nat, owner: nat): Proc {
    Proc(pid, uid, owner, Runnable, Quantum(0), 0, EmptyBox(), EmptyBox(), EmptyBox(), 0, false, 0, false, Ready)
  }

  // ---------------------------------------------------------------- well-formed kernels

  predicate Shaped(k: Kernel) {
    && |k.mlfq| == MLFQ_LEVELS && k.current < |k.procs|
    && (forall i | 0 <= i < |k.procs| :: k.procs[i].level < MLFQ_LEVELS)
    && (forall l, j | 0 <= l < MLFQ_LEVELS && 0 <= j < |k.mlfq[l]| :: k.mlfq[l][j] < |k.procs|)
    && (forall j | 0 <= j < |k.freeSlots| :: k.freeSlots[j] < |k.procs|)
  }

  predicate Live(p: Proc) {
    p.state == Runnable || p.state == Waiting
  }

  predicate Has(s: seq<nat>, i: nat) {
    exists j :: 0 <= j < |s| && s[j] == i
  }

  predicate Distinct(s: seq<nat>) {
    forall j, j' | 0 <= j < j' < |s| :: s[j] != s[j']
  }

  /** Every process that could run, and every dead one, is on the queue of its level and on no other; the
      current process is on none, and a loose one is in nobody's hands. */
  ghost predicate QueuesOk(k: Kernel, loose: int)
    requires Shaped(k)
  {
    && (forall l | 0 <= l < MLFQ_LEVELS :: Distinct(k.mlfq[l]))
    && (forall l, j | 0 <= l < MLFQ_LEVELS && 0 <= j < |k.mlfq[l]| ::
         var i := k.mlfq[l][j];
         && k.procs[i].level == l && i != k.current && i != loose
         && (k.procs[i].state == Runnable || k.procs[i].state == Zombie))
    && (forall i | 0 <= i < |k.procs| && i != k.current && i != loose ::
         k.procs[i].state == Runnable || k.procs[i].state == Zombie ==> Has(k.mlfq[k.procs[i].level], i))
  }

  /** The free list holds exactly the free slots. */
  ghost predicate FreeOk(k: Kernel)
    requires Shaped(k)
  {
    && Distinct(k.freeSlots)
    && (forall j | 0 <= j < |k.freeSlots| :: k.procs[k.freeSlots[j]].state == Free)
    && (forall i | 0 <= i < |k.procs| && k.procs[i].state == Free :: Has(k.freeSlots, i))
  }

  function CountUsed(procs: seq<Proc>): nat {
    if procs == [] then 0
    else CountUsed(procs[..|procs| - 1]) + (if procs[|procs| - 1].state == Free then 0 else 1)
  }

  function CountRunnable(procs: seq<Proc>): nat {
    if procs == [] then 0
    else CountRunnable(procs[..|procs| - 1]) + (if procs[|procs| - 1].state == Runnable then 1 else 0)
  }

  ghost predicate CountsOk(k: Kernel) {
    k.nprocs == CountUsed(k.procs) && k.nrunnable == CountRunnable(k.procs)
  }

  ghost predicate PidsOk(k: Kernel) {
    && (forall i | 0 <= i < |k.procs| && k.procs[i].state != Free :: 0 < k.procs[i].pid < k.pidGen)
    && (forall i, j | 0 <= i < j < |k.procs| && k.procs[i].state != Free && k.procs[j].state != Free ::
         k.procs[i].pid != k.procs[j].pid)
  }

  /** The mailbox that a process waits for. */
  function Awaited(r: Resume): Option<MsgType> {
    match r case Ready => None case Receive(t) => Some(t) case Call(_) => Some(Reply)
  }

  /** The process waits for mailbox `t` exactly when it should, and then the box is empty. */
  predicate BoxOk(p: Proc, t: MsgType) {
    && (p.Box(t).waiting <==> p.state == Waiting && Awaited(p.resume) == Some(t))
    && (p.Box(t).waiting ==> p.Box(t).messages == [])
  }

  /** A waiting process waits for one empty mailbox, a runnable one for none.  A reply is there only for a
      process in a call, at most one, and from the server that was called. */
  predicate BoxesOk(p: Proc) {
    && BoxOk(p, Request) && BoxOk(p, Reply) && BoxOk(p, Event)
    && (p.state == Waiting ==> p.resume != Ready)
    && (p.alarmSet ==> p.state == Waiting)
    && (p.resume.Receive? ==> p.resume.mtype != Reply)
    && (p.resume.Call? ==> p.pid != p.server == p.resume.server)
    && (p.reply.messages != [] ==>
        p.resume.Call? && |p.reply.messages| == 1 && p.reply.messages[0].src == p.resume.server)
  }

  ghost predicate LivePid(k: Kernel, pid: nat) {
    exists i :: 0 <= i < |k.procs| && Live(k.procs[i]) && k.procs[i].pid == pid
  }

  /** Nobody waits for a reply from a server that is dead, but for callers of the one that is dying. */
  ghost predicate CallsOk(k: Kernel, dying: int) {
    forall i | 0 <= i < |k.procs| && k.procs[i].state == Waiting && k.procs[i].reply.waiting ::
      k.procs[i].server == dying || LivePid(k, k.procs[i].server)
  }

  ghost predicate Inv(k: Kernel, loose: int := -1, dying: int := -1) {
    && Shaped(k) && QueuesOk(k, loose) && FreeOk(k) && CountsOk(k) && PidsOk(k) && CallsOk(k, dying)
    && (forall i | 0 <= i < |k.procs| && Live(k.procs[i]) :: BoxesOk(k.procs[i]))
    && k.procs[k.current].state != Free && (k.phase == Running ==> k.procs[k.current].state == Runnable)
  }

  // ---------------------------------------------------------------- the kernel's routines

  function Put(k: Kernel, i: nat, p: Proc): Kernel
    requires i < |k.procs|
  {
    k.(procs := k.procs[i := p])
  }

  /** Slot of the process with this pid, from slot `i` on. */
  function FindFrom(procs: seq<Proc>, pid: nat, i: nat): (r: Option<nat>)
    ensures r.Some? ==> i <= r.value < |procs| && procs[r.value].state != Free && procs[r.value].pid == pid
    ensures r.None? ==> forall j | i <= j < |procs| && procs[j].state != Free :: procs[j].pid != pid
    decreases |procs| - i
  {
    if i >= |procs| then None
    else if procs[i].state != Free && procs[i].pid == pid then Some(i)
    else FindFrom(procs, pid, i + 1)
  }

  function Find(procs: seq<Proc>, pid: nat): (r: Option<nat>)
    ensures r.Some? ==> r.value < |procs| && procs[r.value].state != Free && procs[r.value].pid == pid
    ensures r.None? ==> forall j | 0 <= j < |procs| && procs[j].state != Free :: procs[j].pid != pid
  {
    FindFrom(procs, pid, 0)
  }

  /** Whoever lives afterwards has lived before, or has a new pid. */
  ghost predicate Aged(k: Kernel, k': Kernel) {
    && |k'.procs| == |k.procs| && k.pidGen <= k'.pidGen
    && forall i | 0 <= i < |k.procs| && Live(k'.procs[i]) ::
         (Live(k.procs[i]) && k'.procs[i].pid == k.procs[i].pid) || k'.procs[i].pid >= k.pidGen
  }

  /** A process that lives on keeps its messages, in their order; new ones come after them. */
  ghost predicate MailKept(k: Kernel, k': Kernel) {
    && |k'.procs| == |k.procs|
    && forall i | 0 <= i < |k.procs| && Live(k.procs[i]) && Live(k'.procs[i]) && k'.procs[i].pid == k.procs[i].pid < k.pidGen ::
         && k.procs[i].request.messages <= k'.procs[i].request.messages
         && k.procs[i].reply.messages <= k'.procs[i].reply.messages
         && k.procs[i].event.messages <= k'.procs[i].event.messages
  }

  ghost predicate SameRunner(k: Kernel, k': Kernel) {
    k'.current == k.current && k'.pidGen == k.pidGen && Aged(k, k') && MailKept(k, k')
  }

  function ToRunQueue(k: Kernel, i: nat): (r: Kernel)
    requires Shaped(k) && i < |k.procs|
    ensures Shaped(r)
  {
    var l := k.procs[i].level;
    k.(mlfq := k.mlfq[l := k.mlfq[l] + [i]])
  }

  function Awake(p: Proc): Proc {
    p.(state := Runnable, alarmSet := false)
  }

  /** The process with one more message; the box is no longer waited for. */
  function Delivered(p: Proc, t: MsgType, m: Message): (r: Proc)
    ensures r.pid == p.pid && r.state == p.state && r.level == p.level
    ensures p.request.messages <= r.request.messages && p.reply.messages <= r.reply.messages && p.event.messages <= r.event.messages
  {
    p.WithBox(t, Mbox(false, p.Box(t).messages + [m]))
  }

  /** The process can run again, one level up if it may rise and is not at the top. */
  function Promoted(p: Proc, rises: bool): (r: Proc)
    ensures r.pid == p.pid && Live(r) && r.level <= p.level
    ensures r.request == p.request && r.reply == p.reply && r.event == p.event
  {
    Awake(p).(level := if rises && p.level > 0 then p.level - 1 else p.level)
  }

  /** A message for a waiting process wakes it up; but for the current process it also moves up a level. */
  function SendTo(k: Kernel, i: nat, t: MsgType, m: Message): (r: Kernel)
    requires Shaped(k) && i < |k.procs| && Live(k.procs[i])
    ensures Shaped(r) && SameRunner(k, r) && (Live(k.procs[k.current]) ==> Live(r.procs[k.current]))
  {
    var p := Delivered(k.procs[i], t, m);
    if !k.procs[i].Box(t).waiting then Put(k, i, p)
    else
      var k1 := Put(k, i, Promoted(p, i != k.current)).(nrunnable := k.nrunnable + 1);
      if i == k.current then k1 else ToRunQueue(k1, i)
  }

  /** Messages for nobody, for zombies, and replies that are not waited for, are refused. */
  function SendTarget(k: Kernel, src: nat, dst: nat, t: MsgType): (r: Option<nat>)
    ensures r.Some? ==> r.value < |k.procs| && Live(k.procs[r.value]) && k.procs[r.value].pid == dst
  {
    match Find(k.procs, dst)
    case None => None
    case Some(i) =>
      if k.procs[i].state == Zombie then None
      else
        var p := k.procs[i];
        if t == Reply && (p.state != Waiting || !p.reply.waiting || p.server != src) then None
        else Some(i)
  }

  function Send(k: Kernel, src: nat, uid: nat, dst: nat, t: MsgType, contents: seq<int>): (r: Kernel)
    requires Shaped(k)
    ensures Shaped(r) && SameRunner(k, r) && (Live(k.procs[k.current]) ==> Live(r.procs[k.current]))
  {
    match SendTarget(k, src, dst, t)
    case None => k
    case Some(i) => SendTo(k, i, t, Message(src, uid, contents))
  }

  function Quiet(p: Proc): Proc {
    p.(request := p.request.(waiting := false), reply := p.reply.(waiting := false), event := p.event.(waiting := false))
  }

  function Wakeup(k: Kernel, i: nat): (r: Kernel)
    requires Shaped(k) && i < |k.procs| && k.procs[i].state == Waiting
    ensures Shaped(r) && SameRunner(k, r)
  {
    var k1 := Put(k, i, Quiet(Awake(k.procs[i]))).(nrunnable := k.nrunnable + 1);
    if i == k.current then k1 else ToRunQueue(k1, i)
  }

  predicate WaitsFor(p: Proc, pid: nat) {
    p.state == Waiting && p.reply.waiting && p.server == pid
  }

  function FailCall(k: Kernel, pid: nat, i: nat): (r: Kernel)
    requires Shaped(k) && i < |k.procs|
    ensures Shaped(r) && SameRunner(k, r)
  {
    if WaitsFor(k.procs[i], pid) then Wakeup(k, i) else k
  }

  /** The calls of a dead server fail, in the order of the process table. */
  function FailCalls(k: Kernel, pid: nat, i: nat): (r: Kernel)
    requires Shaped(k)
    ensures Shaped(r) && SameRunner(k, r)
    decreases |k.procs| - i
  {
    if i >= |k.procs| then k
    else FailCalls(FailCall(k, pid, i), pid, i + 1)
  }

  /** The process dies where it stands; the current process goes to the scheduler next. */
  function Die(k: Kernel, i: nat): (r: Kernel)
    requires Shaped(k) && i < |k.procs|
    ensures Shaped(r) && SameRunner(k, r)
  {
    Put(k, i, k.procs[i].(state := Zombie)).(
      nrunnable := if k.procs[i].state == Runnable then k.nrunnable - 1 else k.nrunnable,
      phase := if i == k.current && k.phase == Running then Scheduling else k.phase)
  }

  /** The owner of a dead process gets an event, its clients' calls fail. */
  function Mourn(k: Kernel, p: Proc, status: int): (r: Kernel)
    requires Shaped(k)
    ensures Shaped(r) && SameRunner(k, r)
  {
    FailCalls(Send(k, p.pid, p.uid, p.owner, Event, [MEV_PROCDIED, p.pid, status]), p.pid, 0)
  }

  /** The death of a live process. */
  function Term(k: Kernel, i: nat, status: int): (r: Kernel)
    requires Shaped(k) && i < |k.procs|
    ensures Shaped(r) && SameRunner(k, r)
  {
    Mourn(Die(k, i), k.procs[i], status)
  }

  function Release(k: Kernel, i: nat): (r: Kernel)
    requires Shaped(k) && i < |k.procs|
    ensures Shaped(r) && SameRunner(k, r)
  {
    var p := k.procs[i];
    Put(k, i, p.(state := Free, request := p.request.(messages := []), reply := p.reply.(messages := []),
                 event := p.event.(messages := []))).(nprocs := k.nprocs - 1, freeSlots := k.freeSlots + [i])
  }

  function Removed(k: Kernel, i: nat, status: int): (r: Kernel)
    requires Shaped(k) && i < |k.procs|
    ensures Shaped(r) && SameRunner(k, r)
  {
    var k1 := Term(k, i, status);
    if i != k.current then Release(k1, i) else k1
  }

  /** Kills a process if the killer may.  One that waits is released at once, unless it is the current one; one
      that is on a run queue stays there as a zombie. */
  function Zap(k: Kernel, killerUid: Option<nat>, i: nat, status: int): (r: Kernel)
    requires Shaped(k) && i < |k.procs|
    ensures Shaped(r) && SameRunner(k, r)
  {
    if killerUid.Some? && killerUid.value != 0 && killerUid.value != k.procs[i].uid then k
    else if k.procs[i].state == Runnable then Term(k, i, status)
    else if k.procs[i].state == Waiting then Removed(k, i, status)
    else k
  }

  // ---------------------------------------------------------------- the scheduler

  /** A process whose alarm has rung wakes up; all are killed when the system shuts down. */
  function Scan(k: Kernel, now: nat, i: nat): (r: Kernel)
    requires Shaped(k) && i < |k.procs|
    ensures Shaped(r) && SameRunner(k, r)
  {
    var p := k.procs[i];
    if k.shuttingDown && p.state != Free then Zap(k, None, i, STAT_SHUTDOWN)
    else if p.state == Waiting && p.alarmSet && p.exptime <= now then Wakeup(k, i)
    else k
  }

  function ScanAll(k: Kernel, now: nat, i: nat): (r: Kernel)
    requires Shaped(k)
    ensures Shaped(r) && SameRunner(k, r)
    decreases |k.procs| - i
  {
    if i >= |k.procs| then k else ScanAll(Scan(k, now, i), now, i + 1)
  }

  /** The earliest alarm so far, or `next`. */
  function Sooner(k: Kernel, i: nat, next: nat): nat
    requires i < |k.procs|
  {
    var p := k.procs[i];
    if !k.shuttingDown && p.state == Waiting && p.alarmSet && p.exptime < next then p.exptime else next
  }

  /** The time until which the scheduler may sleep. */
  function NextScan(k: Kernel, now: nat, i: nat, next: nat): nat
    requires Shaped(k)
    decreases |k.procs| - i
  {
    if i >= |k.procs| then next else NextScan(Scan(k, now, i), now, i + 1, Sooner(k, i, next))
  }

  function Popped(k: Kernel, l: nat): (r: Kernel)
    requires Shaped(k) && l < MLFQ_LEVELS && k.mlfq[l] != []
    ensures Shaped(r) && SameRunner(k, r)
  {
    k.(mlfq := k.mlfq[l := k.mlfq[l][1..]])
  }

  /** Takes processes off the run queues, the highest level first, until one is runnable; the dead ones before
      it are released. */
  function Pick(k: Kernel, l: nat): (r: (Kernel, Option<nat>))
    requires Shaped(k)
    ensures Shaped(r.0) && SameRunner(k, r.0)
    ensures r.1.Some? ==> r.1.value < |k.procs|
    decreases MLFQ_LEVELS - l, if l < MLFQ_LEVELS then |k.mlfq[l]| else 0
  {
    if l >= MLFQ_LEVELS then (k, None)
    else if k.mlfq[l] == [] then Pick(k, l + 1)
    else
      var i := k.mlfq[l][0];
      if k.procs[i].state == Runnable then (Popped(k, l), Some(i))
      else Pick(Release(Popped(k, l), i), l)
  }

  /** The current process gives up the processor: it is queued if it can run, and released if it is dead. */
  function Retired(k: Kernel): (r: Kernel)
    requires Shaped(k)
    ensures Shaped(r) && SameRunner(k, r)
  {
    var was := k.procs[k.current].state;
    if was == Runnable then ToRunQueue(k, k.current) else if was == Zombie then Release(k, k.current) else k
  }

  function SwitchTo(k: Kernel, next: nat): (r: Kernel)
    requires Shaped(k) && next < |k.procs|
    ensures Shaped(r) && r.current == next && r.phase == Running && Aged(k, r) && MailKept(k, r)
  {
    Retired(Put(k, next, k.procs[next].(ticksLeft := Quantum(k.procs[next].level)))).(current := next, phase := Running)
  }

  /** Switches to the next process if there is one, and else returns to the current one if it can run. */
  function Choose(k: Kernel): (r: Kernel)
    requires Shaped(k)
    ensures Shaped(r) && Aged(k, r) && MailKept(k, r)
  {
    var (k1, next) := Pick(k, 0);
    if next.Some? then SwitchTo(k1, next.value)
    else if k1.procs[k1.current].state == Runnable then k1.(phase := Running)
    else if k1.nprocs == 1 && k1.shuttingDown then k1.(phase := Halted)
    else k1
  }

  /** One round of the scheduler loop, at time `now`. */
  function Round(k: Kernel, now: nat): (r: Kernel)
    requires Shaped(k)
    ensures Shaped(r) && Aged(k, r) && MailKept(k, r)
  {
    if k.curfew != 0 && now > k.curfew then k.(phase := Halted)
    else Choose(ScanAll(k, now, 0))
  }

  // ---------------------------------------------------------------- what the current process can do

  function Asleep(p: Proc, t: MsgType, resume: Resume): (r: Proc)
    ensures r.pid == p.pid && r.level == p.level
    ensures r.request.messages == p.request.messages && r.reply.messages == p.reply.messages && r.event.messages == p.event.messages
  {
    p.WithBox(t, p.Box(t).(waiting := true)).(state := Waiting, resume := resume)
  }

  /** Waits for a message, unless there is one. */
  function Recv(k: Kernel, resume: Resume, now: nat, maxTime: nat): (r: Kernel)
    requires Shaped(k) && Live(k.procs[k.current]) && resume != Ready
    ensures Shaped(r) && SameRunner(k, r)
  {
    var p := k.procs[k.current];
    var t := Awaited(resume).value;
    if p.Box(t).messages != [] then Put(k, k.current, p.(resume := resume))
    else
      var p1 := Asleep(p, t, resume);
      var p2 := if maxTime != 0 then p1.(exptime := now + maxTime, alarmSet := true) else p1;
      Put(k, k.current, p2).(nrunnable := k.nrunnable - 1, phase := Scheduling)
  }

  /** The end of a receive: the process takes the first message, if there is one. */
  function Finish(k: Kernel): (r: (Kernel, Option<Message>))
    requires Shaped(k)
    ensures Shaped(r.0) && Aged(k, r.0)
  {
    var p := k.procs[k.current];
    if p.resume == Ready then (k, None)
    else
      var t := Awaited(p.resume).value;
      var box := p.Box(t);
      if box.messages == [] then (Put(k, k.current, p.(resume := Ready)), None)
      else (Put(k, k.current, p.WithBox(t, box.(messages := box.messages[1..])).(resume := Ready)), Some(box.messages[0]))
  }

  function Await(k: Kernel, server: nat, now: nat): (r: Kernel)
    requires Shaped(k) && Live(k.procs[k.current])
    ensures Shaped(r) && SameRunner(k, r)
  {
    Recv(Put(k, k.current, k.procs[k.current].(server := server)), Call(server), now, 0)
  }

  /** A call: the request goes to the server, and the caller waits for the reply. */
  function Rpc(k: Kernel, server: nat, contents: seq<int>, now: nat): (r: Kernel)
    requires Shaped(k) && Live(k.procs[k.current])
    ensures Shaped(r) && SameRunner(k, r)
  {
    var p := k.procs[k.current];
    if server == p.pid || SendTarget(k, p.pid, server, Request) == None then k
    else
      var k1 := Send(k, p.pid, p.uid, server, Request, contents);
      Await(k1, server, now)
  }

  /** A new process in the slot that has been free longest. */
  function Alloc(k: Kernel, owner: nat, uid: nat): (r: Kernel)
    requires Shaped(k) && k.freeSlots != []
    ensures Shaped(r) && Aged(k, r) && MailKept(k, r)
  {
    Put(k, k.freeSlots[0], NewProc(k.pidGen, uid, owner)).(
      freeSlots := k.freeSlots[1..], pidGen := k.pidGen + 1, nprocs := k.nprocs + 1, nrunnable := k.nrunnable + 1)
  }

  /** A new process takes over the processor from the current one. */
  function Create(k: Kernel, owner: nat, uid: nat): (r: Kernel)
    requires Shaped(k)
    ensures Shaped(r) && Aged(k, r) && MailKept(k, r)
  {
    var parent := Find(k.procs, owner);
    if k.shuttingDown || parent == None || k.freeSlots == [] then k
    else
      var uid1 := if k.procs[parent.value].uid != 0 then k.procs[parent.value].uid else uid;
      ToRunQueue(Alloc(k, owner, uid1), k.current).(current := k.freeSlots[0])
  }

  function KillAll(k: Kernel, killerUid: nat, status: int, i: nat): (r: Kernel)
    requires Shaped(k)
    ensures Shaped(r) && SameRunner(k, r)
    decreases |k.procs| - i
  {
    if i >= |k.procs| then k
    else if k.procs[i].state != Free && k.procs[i].interruptable then
      KillAll(Zap(k, Some(killerUid), i, status), killerUid, status, i + 1)
    else KillAll(k, killerUid, status, i + 1)
  }

  function Yield(k: Kernel): Kernel {
    if k.phase == Running then k.(phase := Scheduling) else k
  }

  /** Kills a process, or with pid 0 all that are interruptable.  Whoever sees a zombie afterwards gives up the
      processor. */
  function Kill(k: Kernel, killer: nat, pid: nat, status: int): (r: Kernel)
    requires Shaped(k)
    ensures Shaped(r) && SameRunner(k, r)
  {
    match Find(k.procs, killer)
    case None => k
    case Some(killerSlot) =>
      if pid == 0 then
        var k1 := KillAll(k, k.procs[killerSlot].uid, status, 0);
        if k1.procs[k1.current].state == Zombie then Yield(k1) else k1
      else
        match Find(k.procs, pid)
        case None => k
        case Some(i) =>
          var k1 := Zap(k, Some(k.procs[killerSlot].uid), i, status);
          if k1.procs[i].state == Zombie then Yield(k1) else k1
  }

  /** A clock tick; at the end of its quantum the process drops a level and yields. */
  function Tick(k: Kernel): (r: Kernel)
    requires Shaped(k)
    ensures Shaped(r) && SameRunner(k, r)
  {
    var p := k.procs[k.current];
    var left := p.ticksLeft - 1;
    if left != 0 then Put(k, k.current, p.(ticksLeft := left))
    else
      var level := if p.level < MLFQ_LEVELS - 1 then p.level + 1 else p.level;
      Yield(Put(k, k.current, p.(ticksLeft := left, level := level)))
  }
}
