/** What the kernel's routines do, field by field. */
module ProcessEffects {
  import opened Options
  import opened Processes
  import opened ProcessInvariant

  // ---------------------------------------------------------------- messages

  /** The same process, alive, with the same alarm if it waits still.  A receive does not end without a message. */
  predicate LivesOn(p: Proc, q: Proc) {
    && Live(p) && Live(q) && q.pid == p.pid && q.uid == p.uid && q.owner == p.owner && q.interruptable == p.interruptable
    && q.resume == p.resume && q.server == p.server
    && (p.state == Runnable ==> q.state == Runnable)
    && (p.state == Waiting && q.state == Waiting ==> q.alarmSet == p.alarmSet && q.exptime == p.exptime)
    && (p.state == Waiting && q.state == Runnable && p.resume.Receive? ==> q.Box(p.resume.mtype).messages != [])
  }

  predicate HasAll(p: Proc, q: Proc) {
    q.request.messages == p.request.messages && q.reply.messages == p.reply.messages && q.event.messages == p.event.messages
  }

  /** Who gets messages: any live process requests and events, but replies only while it waits for one from the
      sender. */
  ghost predicate Accepts(k: Kernel, src: nat, dst: nat, t: MsgType) {
    exists i :: 0 <= i < |k.procs| && Live(k.procs[i]) && k.procs[i].pid == dst
                && (t == Reply ==> k.procs[i].state == Waiting && k.procs[i].reply.waiting && k.procs[i].server == src)
  }

  lemma TargetIs(k: Kernel, src: nat, dst: nat, t: MsgType)
    requires PidsOk(k)
    ensures SendTarget(k, src, dst, t).Some? <==> Accepts(k, src, dst, t)
  {
    if i :| 0 <= i < |k.procs| && Live(k.procs[i]) && k.procs[i].pid == dst
            && (t == Reply ==> k.procs[i].state == Waiting && k.procs[i].reply.waiting && k.procs[i].server == src) {
      assert Find(k.procs, dst) == Some(i);
    }
  }

  /** The process with the message at the end of mailbox `t`. */
  predicate Gets(p: Proc, q: Proc, t: MsgType, m: Message) {
    && q.pid == p.pid && q.uid == p.uid && q.owner == p.owner && q.server == p.server && q.resume == p.resume
    && q.request.messages == (if t == Request then p.request.messages + [m] else p.request.messages)
    && q.reply.messages == (if t == Reply then p.reply.messages + [m] else p.reply.messages)
    && q.event.messages == (if t == Event then p.event.messages + [m] else p.event.messages)
  }

  lemma Itself(p: Proc)
    ensures HasAll(p, p) && (Live(p) ==> LivesOn(p, p))
  {
  }

  lemma Delivery(p: Proc, t: MsgType, m: Message, rises: bool)
    requires Live(p) && BoxesOk(p)
    ensures var d := Delivered(p, t, m); var q := if p.Box(t).waiting then Promoted(d, rises) else d;
            LivesOn(p, q) && Gets(p, q, t, m) && (t == Event ==> q.reply == p.reply)
  {
  }

  lemma OneTarget(k: Kernel, src: nat, dst: nat, t: MsgType, c: nat)
    requires PidsOk(k) && c < |k.procs|
    ensures SendTarget(k, src, dst, t) == Some(c) <==>
            Live(k.procs[c]) && k.procs[c].pid == dst
            && (t == Reply ==> k.procs[c].state == Waiting && k.procs[c].reply.waiting && k.procs[c].server == src)
  {
    if Live(k.procs[c]) && k.procs[c].pid == dst {
      assert Find(k.procs, dst) == Some(c);
    }
  }

  /** What a message does to slot `c`. */
  lemma SlotAfterSend(k: Kernel, src: nat, uid: nat, dst: nat, t: MsgType, contents: seq<int>, c: nat)
    requires Shaped(k) && PidsOk(k) && c < |k.procs| && (Live(k.procs[c]) ==> BoxesOk(k.procs[c]))
    ensures var p, k' := k.procs[c], Send(k, src, uid, dst, t, contents); var q := k'.procs[c];
            && |k'.procs| == |k.procs| && k'.current == k.current
            && if Live(p) && p.pid == dst && (t == Reply ==> p.state == Waiting && p.reply.waiting && p.server == src) then
                 LivesOn(p, q) && Gets(p, q, t, Message(src, uid, contents)) && (t == Event ==> q.reply == p.reply)
               else q == p
  {
    hide PidsOk, Aged, MailKept, BoxesOk, LivesOn, Delivered, Promoted, SendTarget, Gets;
    OneTarget(k, src, dst, t, c);
    if SendTarget(k, src, dst, t) == Some(c) {
      Delivery(k.procs[c], t, Message(src, uid, contents), c != k.current);
    }
  }

  /** A message that is accepted is in the mailbox, after those that are there, with its sender and all its contents,
      and in no other mailbox.  A process that waits for it there can run again, one level higher unless it is the
      current one, at the end of the queue of that level. */
  lemma MessageArrives(k: Kernel, src: nat, uid: nat, dst: nat, t: MsgType, contents: seq<int>)
    requires Shaped(k)
    ensures var k', to := Send(k, src, uid, dst, t, contents), SendTarget(k, src, dst, t);
            if to == None then k' == k
            else
              var i := to.value; var p, q := k.procs[i], k'.procs[i];
              && |k'.procs| == |k.procs| && Gets(p, q, t, Message(src, uid, contents))
              && (forall c | 0 <= c < |k.procs| && c != i :: k'.procs[c] == k.procs[c])
              && k'.current == k.current && k'.phase == k.phase && k'.freeSlots == k.freeSlots && k'.nprocs == k.nprocs
              && !q.Box(t).waiting
              && if p.Box(t).waiting then
                   && q.state == Runnable && !q.alarmSet && k'.nrunnable == k.nrunnable + 1
                   && q.level == (if i != k.current && p.level > 0 then p.level - 1 else p.level)
                   && k'.mlfq == if i == k.current then k.mlfq else k.mlfq[q.level := k.mlfq[q.level] + [i]]
                 else
                   q.state == p.state && q.alarmSet == p.alarmSet && q.level == p.level && k'.mlfq == k.mlfq && k'.nrunnable == k.nrunnable
  {
  }

  /** A receive takes the oldest message of the mailbox, whole, and leaves the others. */
  lemma ReceiveTakes(k: Kernel)
    requires Shaped(k) && k.procs[k.current].resume != Ready
    ensures var t := Awaited(k.procs[k.current].resume).value; var p := k.procs[k.current];
            var (k', m) := Finish(k); var q := k'.procs[k.current];
            && q.resume == Ready && q.state == p.state && q.pid == p.pid
            && (forall c | 0 <= c < |k.procs| && c != k.current :: k'.procs[c] == k.procs[c])
            && (forall t2: MsgType | t2 != t :: q.Box(t2) == p.Box(t2))
            && if p.Box(t).messages == [] then m == None && q.Box(t).messages == []
               else m.Some? && p.Box(t).messages == [m.value] + q.Box(t).messages
    ensures k.procs[k.current].resume.Receive? ==> Awaited(k.procs[k.current].resume) == Some(k.procs[k.current].resume.mtype)
    ensures k.procs[k.current].resume.Call? ==> Awaited(k.procs[k.current].resume) == Some(Reply)
  {
  }

  /** A receive from an empty mailbox puts the process to sleep, with an alarm if it asks for one; else it goes on. */
  lemma ReceiveWaits(k: Kernel, t: MsgType, now: nat, maxTime: nat)
    requires Shaped(k) && Live(k.procs[k.current]) && t != Reply
    ensures var k', p := Recv(k, Receive(t), now, maxTime), k.procs[k.current]; var q := k'.procs[k.current];
            && q.resume == Receive(t) && q.pid == p.pid && HasAll(p, q)
            && (forall c | 0 <= c < |k.procs| && c != k.current :: k'.procs[c] == k.procs[c])
            && if p.Box(t).messages == [] then
                 && q.state == Waiting && q.Box(t).waiting && k'.phase == Scheduling && k'.nrunnable == k.nrunnable - 1
                 && (if maxTime == 0 then q.alarmSet == p.alarmSet else q.alarmSet && q.exptime == now + maxTime)
               else q == p.(resume := Receive(t)) && k'.phase == k.phase && k'.nrunnable == k.nrunnable
  {
  }

  /** A call puts the request, with the caller's pid and uid, into the server's mailbox, and the caller waits for the
      reply of that server, without an alarm.  Nobody can call itself or somebody dead. */
  lemma CallIs(k: Kernel, server: nat, contents: seq<int>, now: nat)
    requires Shaped(k) && Inv(k) && k.phase == Running && k.procs[k.current].resume == Ready
    ensures var k', p := Rpc(k, server, contents, now), k.procs[k.current]; var q := k'.procs[k.current];
            if server == p.pid || !LivePid(k, server) then k' == k
            else
              && q.state == Waiting && q.resume == Call(server) && q.server == server && q.reply.waiting && q.pid == p.pid
              && k'.phase == Scheduling && q.alarmSet == p.alarmSet && HasAll(p, q)
              && exists i :: 0 <= i < |k.procs| && i != k.current && Live(k.procs[i]) && k.procs[i].pid == server
                             && Gets(k.procs[i], k'.procs[i], Request, Message(p.pid, p.uid, contents))
                             && forall c | 0 <= c < |k.procs| && c != i && c != k.current :: k'.procs[c] == k.procs[c]
  {
    hide Inv, PidsOk, SameRunner, Await, Send, SendTarget;
    var p := k.procs[k.current];
    CallNeeds(k, server);
    MessageArrives(k, p.pid, p.uid, server, Request, contents);
    if server != p.pid && SendTarget(k, p.pid, server, Request).Some? {
      AwaitIs(Send(k, p.pid, p.uid, server, Request, contents), server, now);
    }
  }

  lemma CallNeeds(k: Kernel, server: nat)
    requires Shaped(k) && Inv(k) && k.phase == Running && k.procs[k.current].resume == Ready
    ensures var p := k.procs[k.current];
            && Live(p) && p.reply.messages == []
            && (LivePid(k, server) <==> SendTarget(k, p.pid, server, Request).Some?)
  {
    NoReplyYet(k);
    TargetIs(k, k.procs[k.current].pid, server, Request);
    assert LivePid(k, server) <==> Accepts(k, k.procs[k.current].pid, server, Request);
  }

  lemma AwaitIs(k: Kernel, server: nat, now: nat)
    requires Shaped(k) && Live(k.procs[k.current]) && k.procs[k.current].reply.messages == []
    ensures var k', p := Await(k, server, now), k.procs[k.current]; var q := k'.procs[k.current];
            && q.state == Waiting && q.resume == Call(server) && q.server == server && q.reply.waiting && q.pid == p.pid
            && k'.phase == Scheduling && q.alarmSet == p.alarmSet && HasAll(p, q) && |k'.procs| == |k.procs|
            && forall c | 0 <= c < |k.procs| && c != k.current :: k'.procs[c] == k.procs[c]
  {
  }

  // ---------------------------------------------------------------- birth

  lemma FoundFirst(k: Kernel, pid: nat)
    requires Inv(k)
    ensures forall c | 0 <= c < |k.procs| && k.procs[c].state != Free :: k.procs[c].pid == pid <==> Find(k.procs, pid) == Some(c)
  {
    hide QueuesOk, FreeOk, CountsOk, CallsOk, BoxesOk, Shaped;
  }

  /** A new process: the next pid, the owner's user unless that is the superuser, the highest level with a full quantum, and
      no messages.  It runs at once, in the slot that has been free longest, and its starter is the last of its level. */
  lemma BirthIs(k: Kernel, owner: nat, uid: nat)
    requires Shaped(k) && Inv(k)
    ensures var k' := Create(k, owner, uid);
            if k.shuttingDown || k.freeSlots == [] || forall a | 0 <= a < |k.procs| && k.procs[a].state != Free :: k.procs[a].pid != owner
            then k' == k
            else
              var i := k.freeSlots[0]; var p := k'.procs[i];
              && k'.current == i && p.pid == k.pidGen && k'.pidGen == k.pidGen + 1 && p.owner == owner
              && (forall a | 0 <= a < |k.procs| && k.procs[a].state != Free && k.procs[a].pid == owner ::
                   p.uid == if k.procs[a].uid != 0 then k.procs[a].uid else uid)
              && p.state == Runnable && p.level == 0 && p.ticksLeft == 10 && p.resume == Ready && !p.alarmSet && !p.interruptable
              && p.request == p.reply == p.event == Mbox(false, [])
              && k'.freeSlots == k.freeSlots[1..] && k'.nprocs == k.nprocs + 1 && k'.nrunnable == k.nrunnable + 1
              && (i != k.current ==> k'.mlfq == k.mlfq[k.procs[k.current].level := k.mlfq[k.procs[k.current].level] + [k.current]])
              && forall c | 0 <= c < |k.procs| && c != i :: k'.procs[c] == k.procs[c]
  {
    hide Inv, Aged, MailKept;
    FoundFirst(k, owner);
  }

  // ---------------------------------------------------------------- the scheduler

  /** A tick takes one from the quantum; with the last one the process drops a level and gives up the processor. */
  lemma TickIs(k: Kernel)
    requires Shaped(k) && k.phase == Running
    ensures var k', p := Tick(k), k.procs[k.current]; var q := k'.procs[k.current];
            && q == p.(ticksLeft := p.ticksLeft - 1, level := if p.ticksLeft == 1 && p.level < 2 then p.level + 1 else p.level)
            && k'.phase == (if p.ticksLeft == 1 then Scheduling else Running)
            && k'.mlfq == k.mlfq && k'.current == k.current && forall c | 0 <= c < |k.procs| && c != k.current :: k'.procs[c] == k.procs[c]
  {
  }

  /** A switch: the next process has a full quantum of its level, 10, 20 or 30 ticks; the old one is the last of its level
      if it can run, and its slot the last free one if it is dead. */
  lemma SwitchIs(k: Kernel, next: nat)
    requires Shaped(k) && next < |k.procs| && next != k.current
    ensures var k', p := SwitchTo(k, next), k.procs[k.current];
            && k'.current == next && k'.phase == Running
            && k'.procs[next] == k.procs[next].(ticksLeft := 10 * (k.procs[next].level + 1))
            && (forall c | 0 <= c < |k.procs| && c != next && c != k.current :: k'.procs[c] == k.procs[c])
            && k'.mlfq == (if p.state == Runnable then k.mlfq[p.level := k.mlfq[p.level] + [k.current]] else k.mlfq)
            && k'.freeSlots == (if p.state == Zombie then k.freeSlots + [k.current] else k.freeSlots)
            && if p.state == Zombie then k'.procs[k.current].state == Free && k'.nprocs == k.nprocs - 1
               else k'.procs[k.current] == p && k'.nprocs == k.nprocs
  {
  }
}
