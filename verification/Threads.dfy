/** User threads and semaphores with hand-off, as in apps/mt.c. */
module Threads {
  import opened Options

  /** A blocked thread is one that waits for semaphore `sema`; a terminated one is about to be freed. */
  datatype Status = Running | Runnable | Blocked(sema: nat) | Terminated | Freed

  /** A semaphore, with a record of its initial count, of the increments and of the granted decrements. */
  datatype Sema = Sema(count: int, blocked: seq<nat>, initial: nat, incs: nat, granted: nat)

  datatype System = System(threads: seq<Status>, current: nat, runQueue: seq<nat>, semas: seq<Sema>,
                           numBlocked: int, zombie: Option<nat>, exited: bool)

  predicate Shaped(s: System) {
    && s.current < |s.threads|
    && (forall j | 0 <= j < |s.runQueue| :: s.runQueue[j] < |s.threads|)
    && (forall a, j | 0 <= a < |s.semas| && 0 <= j < |s.semas[a].blocked| :: s.semas[a].blocked[j] < |s.threads|)
  }

  predicate Distinct(q: seq<nat>) {
    forall j, j' | 0 <= j < j' < |q| :: q[j] != q[j']
  }

  predicate Has(q: seq<nat>, t: nat) {
    exists j :: 0 <= j < |q| && q[j] == t
  }

  /** The run queue holds exactly the runnable threads, and the queue of a semaphore exactly those that wait
      for it: every thread is in one place. */
  ghost predicate QueueOk(threads: seq<Status>, q: seq<nat>, status: Status) {
    && Distinct(q)
    && (forall j | 0 <= j < |q| :: q[j] < |threads| && threads[q[j]] == status)
    && (forall t | 0 <= t < |threads| && threads[t] == status :: Has(q, t))
  }

  /** A count is never negative, and positive only when nobody waits; no increment is lost or granted twice. */
  predicate SemaOk(a: Sema) {
    && a.count >= 0 && (a.count > 0 ==> a.blocked == [])
    && a.initial + a.incs == a.count + a.granted
  }

  function TotalBlocked(semas: seq<Sema>): nat {
    if semas == [] then 0 else TotalBlocked(semas[..|semas| - 1]) + |semas[|semas| - 1].blocked|
  }

  /** All queues and counts agree with the statuses of the threads. */
  ghost predicate Sorted(s: System) {
    && Shaped(s) && !s.exited && s.zombie == None
    && QueueOk(s.threads, s.runQueue, Runnable)
    && (forall a | 0 <= a < |s.semas| :: QueueOk(s.threads, s.semas[a].blocked, Blocked(a)) && SemaOk(s.semas[a]))
    && (forall t | 0 <= t < |s.threads| && s.threads[t].Blocked? :: s.threads[t].sema < |s.semas|)
    && s.numBlocked == TotalBlocked(s.semas)
  }

  /** Between steps exactly the current thread runs, and no dead thread is left. */
  ghost predicate Inv(s: System) {
    Sorted(s) && forall t | 0 <= t < |s.threads| :: (s.threads[t] == Running <==> t == s.current) && s.threads[t] != Terminated
  }

  /** In the middle of a switch no thread runs. */
  ghost predicate Switching(s: System) {
    Sorted(s) && forall t | 0 <= t < |s.threads| :: s.threads[t] != Running && s.threads[t] != Terminated
  }

  // ---------------------------------------------------------------- the operations

  /** The thread at the head of the run queue gets the processor. */
  function Resume(s: System): (r: System)
    requires Shaped(s) && s.runQueue != []
    ensures Shaped(r) && |r.threads| == |s.threads| && |r.semas| == |s.semas|
  {
    var t := s.runQueue[0];
    s.(threads := s.threads[t := Running], runQueue := s.runQueue[1..], current := t)
  }

  function Yield(s: System): (r: System)
    requires Shaped(s)
    ensures Shaped(r) && |r.threads| == |s.threads| && |r.semas| == |s.semas|
  {
    if s.runQueue == [] then (if s.threads[s.current].Blocked? then s.(exited := true) else s)
    else if s.threads[s.current].Blocked? then Resume(s)
    else Resume(s.(threads := s.threads[s.current := Runnable], runQueue := s.runQueue + [s.current]))
  }

  /** The new thread runs at once, the old one is queued. */
  function Create(s: System): (r: System)
    requires Shaped(s)
    ensures Shaped(r) && |r.threads| == |s.threads| + 1 && |r.semas| == |s.semas|
  {
    s.(threads := s.threads[s.current := Runnable] + [Running], runQueue := s.runQueue + [s.current], current := |s.threads|)
  }

  /** The thread that runs next frees this one. */
  function Exit(s: System): (r: System)
    requires Shaped(s)
    ensures Shaped(r) && |r.threads| == |s.threads| && |r.semas| == |s.semas|
  {
    if s.runQueue == [] then s.(exited := true) else Resume(s.(threads := s.threads[s.current := Freed]))
  }

  function Dec(s: System, a: nat): (r: System)
    requires Shaped(s) && a < |s.semas|
    ensures Shaped(r) && |r.threads| == |s.threads| && |r.semas| == |s.semas|
  {
    var sema := s.semas[a];
    if sema.count != 0 then s.(semas := s.semas[a := sema.(count := sema.count - 1, granted := sema.granted + 1)])
    else Yield(Wait(s, a))
  }

  function Wait(s: System, a: nat): (r: System)
    requires Shaped(s) && a < |s.semas|
    ensures Shaped(r) && |r.threads| == |s.threads| && |r.semas| == |s.semas|
  {
    s.(threads := s.threads[s.current := Blocked(a)],
       semas := s.semas[a := s.semas[a].(blocked := s.semas[a].blocked + [s.current])],
       numBlocked := s.numBlocked + 1)
  }

  /** The thread that waits longest is let go and the count stays; if nobody waits, the count goes up. */
  function Inc(s: System, a: nat): (r: System)
    requires Shaped(s) && a < |s.semas|
    ensures Shaped(r) && |r.threads| == |s.threads| && |r.semas| == |s.semas|
  {
    var sema := s.semas[a].(incs := s.semas[a].incs + 1);
    if sema.blocked == [] then s.(semas := s.semas[a := sema.(count := sema.count + 1)])
    else
      var t := sema.blocked[0];
      s.(threads := s.threads[t := Runnable], runQueue := s.runQueue + [t], numBlocked := s.numBlocked - 1,
         semas := s.semas[a := sema.(blocked := sema.blocked[1..], granted := sema.granted + 1)])
  }

  // ---------------------------------------------------------------- every operation keeps the invariant

  /** A thread that leaves a status leaves the head of its queue. */
  lemma QueuePopped(threads: seq<Status>, q: seq<nat>, status: Status, t: nat, status': Status)
    requires QueueOk(threads, q, status) && q != [] && q[0] == t && status' != status
    ensures t < |threads| && QueueOk(threads[t := status'], q[1..], status)
  {
    forall u | 0 <= u < |threads| && threads[t := status'][u] == status ensures Has(q[1..], u) {
      var j :| 0 <= j < |q| && q[j] == u;
      assert q[1..][j - 1] == u;
    }
  }

  /** A thread that takes a status goes to the end of its queue. */
  lemma QueuePushed(threads: seq<Status>, q: seq<nat>, status: Status, t: nat)
    requires QueueOk(threads, q, status) && t < |threads| && threads[t] != status
    ensures QueueOk(threads[t := status], q + [t], status)
  {
    forall u | 0 <= u < |threads| && threads[t := status][u] == status ensures Has(q + [t], u) {
      if u == t {
        assert (q + [t])[|q|] == u;
      } else {
        var j :| 0 <= j < |q| && q[j] == u;
        assert (q + [t])[j] == u;
      }
    }
  }

  /** Other queues do not see the change. */
  lemma QueueSame(threads: seq<Status>, q: seq<nat>, status: Status, t: nat, status': Status)
    requires QueueOk(threads, q, status) && t < |threads| && threads[t] != status && status' != status
    ensures QueueOk(threads[t := status'], q, status)
  {
    assert forall j | 0 <= j < |q| :: q[j] != t;
  }

  lemma {:induction false} BlockedUpdate(semas: seq<Sema>, a: nat, sema: Sema)
    requires a < |semas|
    ensures TotalBlocked(semas[a := sema]) == TotalBlocked(semas) - |semas[a].blocked| + |sema.blocked|
  {
    var n := |semas| - 1;
    assert semas[a := sema][..n] == if a == n then semas[..n] else semas[..n][a := sema];
    if a >= n {
    } else {
      BlockedUpdate(semas[..n], a, sema);
    }
  }

  /** Thread `t` changes from one status to another that is not a place in a queue. */
  lemma SemasSame(s: System, t: nat, status: Status)
    requires Sorted(s) && t < |s.threads| && !s.threads[t].Blocked? && !status.Blocked?
    ensures forall a | 0 <= a < |s.semas| :: QueueOk(s.threads[t := status], s.semas[a].blocked, Blocked(a))
  {
    forall a | 0 <= a < |s.semas| ensures QueueOk(s.threads[t := status], s.semas[a].blocked, Blocked(a)) {
      QueueSame(s.threads, s.semas[a].blocked, Blocked(a), t, status);
    }
  }

  lemma Resumed(s: System)
    requires Switching(s) && s.runQueue != []
    ensures Inv(Resume(s))
  {
    var t := s.runQueue[0];
    QueuePopped(s.threads, s.runQueue, Runnable, t, Running);
    SemasSame(s, t, Running);
    hide QueueOk, SemaOk;
  }

  lemma Yielded(s: System)
    requires Inv(s)
    ensures Inv(Yield(s))
  {
    if s.runQueue != [] {
      QueuePushed(s.threads, s.runQueue, Runnable, s.current);
      SemasSame(s, s.current, Runnable);
      Resumed(s.(threads := s.threads[s.current := Runnable], runQueue := s.runQueue + [s.current]));
    }
  }

  lemma Created(s: System)
    requires Inv(s)
    ensures Inv(Create(s))
  {
    var s1 := s.(threads := s.threads[s.current := Runnable], runQueue := s.runQueue + [s.current]);
    QueuePushed(s.threads, s.runQueue, Runnable, s.current);
    SemasSame(s, s.current, Runnable);
    ThreadAdded(s1);
  }

  lemma ThreadAdded(s: System)
    requires Switching(s)
    ensures Inv(s.(threads := s.threads + [Running], current := |s.threads|))
  {
    var s' := s.(threads := s.threads + [Running], current := |s.threads|);
    assert forall t | 0 <= t < |s.threads| :: s'.threads[t] == s.threads[t];
  }

  /** The last thread to exit ends the program; it leaves blocked threads behind exactly when there are any. */
  lemma Exited(s: System)
    requires Inv(s)
    ensures if s.runQueue == [] then Exit(s).exited else Inv(Exit(s))
  {
    if s.runQueue != [] {
      QueueSame(s.threads, s.runQueue, Runnable, s.current, Freed);
      SemasSame(s, s.current, Freed);
      Resumed(s.(threads := s.threads[s.current := Freed]));
    }
  }

  lemma Waiting(s: System, a: nat)
    requires Inv(s) && a < |s.semas| && s.semas[a].count == 0
    ensures Switching(Wait(s, a))
  {
    var s' := Wait(s, a);
    QueueSame(s.threads, s.runQueue, Runnable, s.current, Blocked(a));
    forall b | 0 <= b < |s'.semas| ensures QueueOk(s'.threads, s'.semas[b].blocked, Blocked(b)) && SemaOk(s'.semas[b]) {
      if b == a {
        QueuePushed(s.threads, s.semas[a].blocked, Blocked(a), s.current);
      } else {
        QueueSame(s.threads, s.semas[b].blocked, Blocked(b), s.current, Blocked(a));
      }
    }
    BlockedUpdate(s.semas, a, s'.semas[a]);
    hide QueueOk, SemaOk;
  }

  /** A decrement is granted at once, or the thread waits; with nobody left to run the program ends. */
  lemma Decremented(s: System, a: nat)
    requires Inv(s) && a < |s.semas|
    ensures if s.semas[a].count == 0 && s.runQueue == [] then Dec(s, a).exited else Inv(Dec(s, a))
  {
    hide QueueOk;
    if s.semas[a].count == 0 {
      Waiting(s, a);
      if s.runQueue != [] {
        Resumed(Wait(s, a));
      }
    } else {
      BlockedUpdate(s.semas, a, s.semas[a].(count := s.semas[a].count - 1, granted := s.semas[a].granted + 1));
    }
  }

  lemma Incremented(s: System, a: nat)
    requires Inv(s) && a < |s.semas|
    ensures Inv(Inc(s, a))
  {
    if s.semas[a].blocked == [] {
      BlockedUpdate(s.semas, a, Inc(s, a).semas[a]);
    } else {
      HandedOver(s, a);
    }
  }

  lemma HandedOver(s: System, a: nat)
    requires Inv(s) && a < |s.semas| && s.semas[a].blocked != []
    ensures Inv(Inc(s, a))
  {
    var s' := Inc(s, a);
    BlockedUpdate(s.semas, a, s'.semas[a]);
    var t := s.semas[a].blocked[0];
    QueuePushed(s.threads, s.runQueue, Runnable, t);
    forall b | 0 <= b < |s'.semas| ensures QueueOk(s'.threads, s'.semas[b].blocked, Blocked(b)) && SemaOk(s'.semas[b]) {
      if b == a {
        QueuePopped(s.threads, s.semas[a].blocked, Blocked(a), t, Runnable);
      } else {
        QueueSame(s.threads, s.semas[b].blocked, Blocked(b), t, Runnable);
      }
    }
    hide QueueOk, SemaOk;
  }

  // ---------------------------------------------------------------- who runs

  /** A yield hands the processor to the head of the run queue, and the old thread goes to its end; alone, it goes on. */
  lemma YieldIs(s: System)
    requires Inv(s)
    ensures var s', q := Yield(s), s.runQueue;
            if q == [] then s' == s
            else
              && s'.current == q[0] && s'.runQueue == q[1..] + [s.current] && s'.semas == s.semas && !s'.exited
              && s'.threads[q[0]] == Running && s'.threads[s.current] == Runnable
              && forall t | 0 <= t < |s.threads| && t != q[0] && t != s.current :: s'.threads[t] == s.threads[t]
  {
    assert forall j | 0 <= j < |s.runQueue| :: s.threads[s.runQueue[j]] == Runnable;
  }

  /** A new thread runs at once, and its creator is the last in the queue. */
  lemma CreateIs(s: System)
    requires Inv(s)
    ensures var s' := Create(s);
            && s'.current == |s.threads| && s'.runQueue == s.runQueue + [s.current] && s'.semas == s.semas
            && s'.threads[s.current] == Runnable && s'.threads[|s.threads|] == Running
            && forall t | 0 <= t < |s.threads| && t != s.current :: s'.threads[t] == s.threads[t]
  {
  }

  /** A thread that exits is gone for good, and the head of the queue runs; the last one ends the program. */
  lemma ExitIs(s: System)
    requires Inv(s)
    ensures var s', q := Exit(s), s.runQueue;
            if q == [] then s'.exited
            else
              && s'.current == q[0] && s'.runQueue == q[1..] && s'.semas == s.semas && !s'.exited
              && s'.threads[s.current] == Freed && s'.threads[q[0]] == Running
              && forall t | 0 <= t < |s.threads| && t != q[0] && t != s.current :: s'.threads[t] == s.threads[t]
  {
    assert forall j | 0 <= j < |s.runQueue| :: s.threads[s.runQueue[j]] == Runnable;
  }

  /** A decrement of a positive count is granted and the thread goes on.  Else it waits behind those that wait
      already, the count stays, and the head of the run queue runs; the program ends if there is none. */
  lemma DecIs(s: System, a: nat)
    requires Inv(s) && a < |s.semas|
    ensures var s', q := Dec(s, a), s.runQueue;
            if s.semas[a].count > 0 then
              && s'.semas[a].count == s.semas[a].count - 1 && s'.semas[a].blocked == s.semas[a].blocked
              && s'.current == s.current && s'.runQueue == q && s'.threads == s.threads && !s'.exited
            else if q == [] then s'.exited
            else
              && s'.semas[a].count == 0 && s'.semas[a].blocked == s.semas[a].blocked + [s.current]
              && s'.current == q[0] && s'.runQueue == q[1..] && !s'.exited
              && s'.threads[s.current] == Blocked(a) && s'.threads[q[0]] == Running
              && forall t | 0 <= t < |s.threads| && t != q[0] && t != s.current :: s'.threads[t] == s.threads[t]
    ensures forall b | 0 <= b < |s.semas| && b != a :: Dec(s, a).semas[b] == s.semas[b]
  {
    assert forall j | 0 <= j < |s.runQueue| :: s.threads[s.runQueue[j]] == Runnable;
  }

  /** An increment lets the thread go that has waited longest, which is then the last in the run queue, and the count
      stays; if nobody waits the count goes up.  The thread that increments goes on in each case. */
  lemma IncIs(s: System, a: nat)
    requires Inv(s) && a < |s.semas|
    ensures var s', q := Inc(s, a), s.semas[a].blocked;
            && s'.current == s.current
            && if q == [] then
                 s'.semas[a].count == s.semas[a].count + 1 && s'.semas[a].blocked == [] && s'.runQueue == s.runQueue && s'.threads == s.threads
               else
                 && s'.semas[a].count == s.semas[a].count && s'.semas[a].blocked == q[1..] && s'.runQueue == s.runQueue + [q[0]]
                 && s'.threads[q[0]] == Runnable && forall t | 0 <= t < |s.threads| && t != q[0] :: s'.threads[t] == s.threads[t]
    ensures forall b | 0 <= b < |s.semas| && b != a :: Inc(s, a).semas[b] == s.semas[b]
  {
  }

  datatype Operation = Yielding | Creating | Exiting | Decrementing(sema: nat) | Incrementing(sema: nat)

  function Perform(s: System, op: Operation): (r: System)
    requires Shaped(s)
    ensures Shaped(r) && |s.threads| <= |r.threads| && |r.semas| == |s.semas|
  {
    match op
    case Yielding => Yield(s)
    case Creating => Create(s)
    case Exiting => Exit(s)
    case Decrementing(a) => if a < |s.semas| then Dec(s, a) else s
    case Incrementing(a) => if a < |s.semas| then Inc(s, a) else s
  }

  lemma Performed(s: System, op: Operation)
    requires Inv(s) && !Perform(s, op).exited
    ensures Inv(Perform(s, op))
  {
    match op
    case Yielding => Yielded(s);
    case Creating => Created(s);
    case Exiting => Exited(s);
    case Decrementing(a) => if a < |s.semas| { Decremented(s, a); if s.semas[a].count == 0 && s.runQueue == [] { DecIs(s, a); } }
    case Incrementing(a) => if a < |s.semas| { Incremented(s, a); }
  }

  /** The operation gives up the processor to the head of the run queue. */
  predicate Switches(s: System, op: Operation) {
    && s.runQueue != []
    && (op.Yielding? || op.Exiting? || (op.Decrementing? && op.sema < |s.semas| && s.semas[op.sema].count == 0))
  }

  /** Nobody overtakes anyone in the run queue: it only loses its head, which then runs, and only grows at its end. */
  lemma QueueMoves(s: System, op: Operation)
    requires Inv(s) && !Perform(s, op).exited
    ensures var s' := Perform(s, op);
            if Switches(s, op) then s'.current == s.runQueue[0] && s.runQueue[1..] <= s'.runQueue else s.runQueue <= s'.runQueue
  {
    match op
    case Yielding => YieldIs(s);
    case Creating => CreateIs(s);
    case Exiting => ExitIs(s);
    case Decrementing(a) => if a < |s.semas| { DecIs(s, a); }
    case Incrementing(a) => if a < |s.semas| { IncIs(s, a); }
  }

  function Runs(s: System, ops: seq<Operation>): (r: System)
    requires Shaped(s)
    ensures Shaped(r)
  {
    if ops == [] then s else Perform(Runs(s, ops[..|ops| - 1]), ops[|ops| - 1])
  }

  /** How often the processor has been given up to the head of the queue. */
  function Turns(s: System, ops: seq<Operation>): nat
    requires Shaped(s)
  {
    if ops == [] then 0
    else Turns(s, ops[..|ops| - 1]) + if Switches(Runs(s, ops[..|ops| - 1]), ops[|ops| - 1]) then 1 else 0
  }

  /** The program has not ended yet. */
  predicate GoesOn(s: System, ops: seq<Operation>)
    requires Shaped(s)
  {
    forall n | 0 <= n <= |ops| :: !Runs(s, ops[..n]).exited
  }

  /** Whatever the threads do, the thread at place `j` of the run queue has moved up one place for each turn, until with
      turn `j + 1` it runs. */
  lemma {:induction false} TakesItsTurn(s: System, ops: seq<Operation>, j: nat)
    requires Inv(s) && j < |s.runQueue| && GoesOn(s, ops) && Turns(s, ops) <= j
    ensures Inv(Runs(s, ops))
    ensures var s' := Runs(s, ops); j - Turns(s, ops) < |s'.runQueue| && s'.runQueue[j - Turns(s, ops)] == s.runQueue[j]
    ensures forall op | !Perform(Runs(s, ops), op).exited && Switches(Runs(s, ops), op) && Turns(s, ops) == j ::
              Perform(Runs(s, ops), op).current == s.runQueue[j]
  {
    hide QueueOk, SemaOk, Perform, GoesOn;
    if ops == [] {
    } else {
      var n := |ops| - 1;
      GoesOnBefore(s, ops);
      TakesItsTurn(s, ops[..n], j);
      assert ops[..n + 1] == ops;
      Performed(Runs(s, ops[..n]), ops[n]);
      QueueMoves(Runs(s, ops[..n]), ops[n]);
    }
    forall op | !Perform(Runs(s, ops), op).exited && Switches(Runs(s, ops), op) && Turns(s, ops) == j
      ensures Perform(Runs(s, ops), op).current == s.runQueue[j]
    {
      QueueMoves(Runs(s, ops), op);
    }
  }

  lemma GoesOnBefore(s: System, ops: seq<Operation>)
    requires Shaped(s) && ops != [] && GoesOn(s, ops)
    ensures GoesOn(s, ops[..|ops| - 1]) && !Runs(s, ops).exited
  {
    var n := |ops| - 1;
    assert ops[..n + 1] == ops;
    forall m | 0 <= m <= n ensures !Runs(s, ops[..n][..m]).exited {
      assert ops[..n][..m] == ops[..m];
    }
  }

  function Yields(n: nat): (ops: seq<Operation>)
    ensures |ops| == n
  {
    seq(n, _ => Yielding)
  }

  /** When all threads do nothing but yield, the thread at place `j` runs after `j + 1` yields. */
  lemma YieldsAreFair(s: System, j: nat)
    requires Inv(s) && j < |s.runQueue|
    ensures Runs(s, Yields(j + 1)).current == s.runQueue[j]
  {
    YieldsGoOn(s, j);
    TakesItsTurn(s, Yields(j), j);
    assert Yields(j + 1)[..j] == Yields(j);
    YieldIs(Runs(s, Yields(j)));
  }

  lemma {:induction false} YieldsGoOn(s: System, n: nat)
    requires Inv(s) && s.runQueue != []
    ensures GoesOn(s, Yields(n)) && Inv(Runs(s, Yields(n))) && Runs(s, Yields(n)).runQueue != [] && Turns(s, Yields(n)) == n
  {
    hide QueueOk, SemaOk, Switching;
    if n == 0 {
    } else {
      YieldsGoOn(s, n - 1);
      assert Yields(n)[..n - 1] == Yields(n - 1);
      var s1 := Runs(s, Yields(n - 1));
      YieldIs(s1);
      Yielded(s1);
      forall m | 0 <= m <= n ensures !Runs(s, Yields(n)[..m]).exited {
        if m < n {
          assert Yields(n)[..m] == Yields(n - 1)[..m];
        } else {
          assert Yields(n)[..m] == Yields(n);
        }
      }
    }
  }

  // ---------------------------------------------------------------- the global state

  /** The globals of the thread package.  A semaphore's blocked queue is part of it. */
  class Scheduler {
    var threads: seq<Status>
    var current: nat
    var runQueue: seq<nat>
    var semas: seq<Sema>
    var numBlocked: int
    var zombie: Option<nat>
    var exited: bool

    ghost function State(): System
      reads this
    {
      System(threads, current, runQueue, semas, numBlocked, zombie, exited)
    }

    /** The first thread runs; there are no semaphores yet. */
    constructor ()
      ensures Inv(State()) && |threads| == 1 && semas == []
    {
      threads := [Running];
      current := 0;
      runQueue := [];
      semas := [];
      numBlocked := 0;
      zombie := None;
      exited := false;
    }

    /** Frees the thread that exited, if there is one. */
    method ReleaseZombie()
      requires zombie.Some? ==> zombie.value < |threads| && threads[zombie.value] == Terminated
      modifies this`threads, this`zombie
      ensures zombie == None
      ensures threads == if old(zombie).Some? then old(threads)[old(zombie).value := Freed] else old(threads)
    {
      if zombie != None {
        threads := threads[zombie.value := Freed];
        zombie := None;
      }
    }

    method SemaInit(count: nat) returns (a: nat)
      requires Inv(State())
      modifies this`semas
      ensures Inv(State()) && a == |old(semas)| && semas == old(semas) + [Sema(count, [], count, 0, 0)]
    {
      SemaAdded(State(), count);
      a := |semas|;
      semas := semas + [Sema(count, [], count, 0, 0)];
    }

    method ThreadCreate()
      requires Inv(State())
      modifies this
      ensures State() == Create(old(State())) && Inv(State())
    {
      Created(State());
      var oldThread := current;
      threads := threads[oldThread := Runnable];
      runQueue := runQueue + [oldThread];
      current := |threads|;
      threads := threads + [Running];
    }

    method ThreadYield()
      requires Sorted(State()) && (Inv(State()) || Switching(State())) && threads[current] != Runnable && threads[current] != Freed
      modifies this
      ensures State() == Yield(old(State()))
    {
      if |runQueue| == 0 {
        if threads[current].Blocked? {
          exited := true;
        }
        return;
      }
      var oldThread, popped := current, runQueue[0];
      runQueue := runQueue[1..];
      if !threads[oldThread].Blocked? {
        threads := threads[oldThread := Runnable];
        runQueue := runQueue + [oldThread];
      }
      threads := threads[popped := Running];
      current := popped;
      ReleaseZombie();
    }

    /** The thread that is resumed frees this one first of all. */
    method ThreadExit()
      requires Inv(State())
      modifies this
      ensures State() == Exit(old(State())) && (!exited ==> Inv(State()))
    {
      Exited(State());
      if runQueue == [] {
        exited := true;
        return;
      }
      var popped := runQueue[0];
      runQueue := runQueue[1..];
      zombie := Some(current);
      threads := threads[current := Terminated];
      threads := threads[popped := Running];
      current := popped;
      ReleaseZombie();
    }

    method SemaDec(a: nat)
      requires Inv(State()) && a < |semas|
      modifies this
      ensures State() == Dec(old(State()), a) && (!exited ==> Inv(State()))
    {
      hide QueueOk;
      Decremented(State(), a);
      if semas[a].count == 0 {
        Waiting(State(), a);
        semas := semas[a := semas[a].(blocked := semas[a].blocked + [current])];
        threads := threads[current := Blocked(a)];
        numBlocked := numBlocked + 1;
        ThreadYield();
        return;
      }
      semas := semas[a := semas[a].(count := semas[a].count - 1, granted := semas[a].granted + 1)];
    }

    method SemaInc(a: nat)
      requires Inv(State()) && a < |semas|
      modifies this
      ensures State() == Inc(old(State()), a) && Inv(State())
    {
      hide QueueOk;
      Incremented(State(), a);
      semas := semas[a := semas[a].(incs := semas[a].incs + 1)];
      if semas[a].blocked != [] {
        var thread := semas[a].blocked[0];
        semas := semas[a := semas[a].(blocked := semas[a].blocked[1..], granted := semas[a].granted + 1)];
        threads := threads[thread := Runnable];
        numBlocked := numBlocked - 1;
        runQueue := runQueue + [thread];
        return;
      }
      semas := semas[a := semas[a].(count := semas[a].count + 1)];
    }
  }

  lemma SemaAdded(s: System, count: nat)
    requires Inv(s)
    ensures Inv(s.(semas := s.semas + [Sema(count, [], count, 0, 0)]))
  {
    var semas := s.semas + [Sema(count, [], count, 0, 0)];
    assert semas[..|semas| - 1] == s.semas;
    assert forall t | 0 <= t < |s.threads| :: s.threads[t] != Blocked(|s.semas|);
  }
}
