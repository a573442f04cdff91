/** The producers and consumers of apps/mt.c: any number of them, created at any time, any number of slots, and
    a switch possible between any two actions. */
module ProducerConsumer {
  import opened Options
  import opened Arithmetic
  import T = Threads

  /** The next action of a thread.  The first six are a producer's loop, the next six a consumer's. */
  datatype Action =
    | TakeSlot | LockIn | Store | WrapIn | UnlockIn | GiveItem
    | TakeItem | LockOut | Fetch | WrapOut | UnlockOut | GiveSlot
    | Leave | Idle

  /** A thread: what it does next, what it produces, how many items it still consumes. */
  datatype Job = Job(next: Action, arg: nat, left: nat)

  const EMPTY := 0
  const FULL := 1
  const LOCK := 2

  datatype State = State(sys: T.System, jobs: seq<Job>, slots: seq<nat>, inPos: nat, outPos: nat,
                         produced: seq<nat>, consumed: seq<nat>)

  /** The semaphore that an action decrements. */
  function Wants(a: Action): Option<nat> {
    match a
    case TakeSlot => Some(EMPTY)
    case TakeItem => Some(FULL)
    case LockIn => Some(LOCK)
    case LockOut => Some(LOCK)
    case _ => None
  }

  /** The action after this one. */
  function After(job: Job): Job {
    match job.next
    case TakeSlot => job.(next := LockIn)
    case LockIn => job.(next := Store)
    case Store => job.(next := WrapIn)
    case WrapIn => job.(next := UnlockIn)
    case UnlockIn => job.(next := GiveItem)
    case GiveItem => job.(next := TakeSlot)
    case TakeItem => job.(next := LockOut)
    case LockOut => job.(next := Fetch)
    case Fetch => job.(next := WrapOut)
    case WrapOut => job.(next := UnlockOut)
    case UnlockOut => job.(next := GiveSlot)
    case GiveSlot => if job.left > 1 then job.(next := TakeItem, left := job.left - 1) else job.(next := Leave, left := 0)
    case Leave => job
    case Idle => job
  }

  // ---------------------------------------------------------------- steps

  predicate Shaped(s: State) {
    && T.Shaped(s.sys) && |s.sys.semas| == 3 && |s.jobs| == |s.sys.threads| && |s.slots| > 0
    && s.inPos <= |s.slots| && s.outPos <= |s.slots|
  }

  function Advance(s: State): (r: State)
    requires Shaped(s)
    ensures Shaped(r) && |r.slots| == |s.slots|
  {
    s.(jobs := s.jobs[s.sys.current := After(s.jobs[s.sys.current])])
  }

  /** A thread whose decrement is not granted stays at it until an increment lets it go. */
  function Dec(s: State, a: nat): (r: State)
    requires Shaped(s) && a < 3
    ensures Shaped(r) && |r.slots| == |s.slots|
  {
    if s.sys.semas[a].count != 0 then Advance(s).(sys := T.Dec(s.sys, a)) else s.(sys := T.Dec(s.sys, a))
  }

  function Inc(s: State, a: nat): (r: State)
    requires Shaped(s) && a < 3
    ensures Shaped(r) && |r.slots| == |s.slots|
  {
    var s1 := Advance(s);
    var q := s.sys.semas[a].blocked;
    (if q == [] then s1 else s1.(jobs := s1.jobs[q[0] := After(s1.jobs[q[0]])])).(sys := T.Inc(s.sys, a))
  }

  /** The current thread performs its next action. */
  function Act(s: State): (r: State)
    requires Shaped(s)
    ensures Shaped(r) && |r.slots| == |s.slots| && |r.jobs| == |s.jobs|
  {
    var job := s.jobs[s.sys.current];
    match job.next
    case TakeSlot => Dec(s, EMPTY)
    case LockIn => Dec(s, LOCK)
    case Store =>
      if s.inPos >= |s.slots| then s
      else Advance(s).(slots := s.slots[s.inPos := job.arg], inPos := s.inPos + 1, produced := s.produced + [job.arg])
    case WrapIn => Advance(s).(inPos := if s.inPos == |s.slots| then 0 else s.inPos)
    case UnlockIn => Inc(s, LOCK)
    case GiveItem => Inc(s, FULL)
    case TakeItem => Dec(s, FULL)
    case LockOut => Dec(s, LOCK)
    case Fetch =>
      if s.outPos >= |s.slots| then s
      else Advance(s).(outPos := s.outPos + 1, consumed := s.consumed + [s.slots[s.outPos]])
    case WrapOut => Advance(s).(outPos := if s.outPos == |s.slots| then 0 else s.outPos)
    case UnlockOut => Inc(s, LOCK)
    case GiveSlot => Inc(s, EMPTY)
    case Leave => s.(sys := T.Exit(s.sys))
    case Idle => s.(sys := T.Yield(s.sys))
  }

  datatype Event = Go | Preempt | NewProducer(arg: nat) | NewConsumer(count: nat)

  function Step(s: State, e: Event): (r: State)
    requires Shaped(s)
    ensures Shaped(r) && |r.slots| == |s.slots|
  {
    if s.sys.exited then s
    else match e
      case Go => Act(s)
      case Preempt => s.(sys := T.Yield(s.sys))
      case NewProducer(arg) => s.(sys := T.Create(s.sys), jobs := s.jobs + [Job(TakeSlot, arg, 0)])
      case NewConsumer(count) =>
        s.(sys := T.Create(s.sys), jobs := s.jobs + [Job(if count == 0 then Leave else TakeItem, 0, count)])
  }

  // ---------------------------------------------------------------- the invariant

  /** What threads have in their hands, by where they are in their loops. */
  datatype Holding = Slot | NewItem | Item | OldSlot | Mutex

  predicate Holds(a: Action, h: Holding) {
    match h
    case Slot => a == LockIn || a == Store
    case NewItem => a == WrapIn || a == UnlockIn || a == GiveItem
    case Item => a == LockOut || a == Fetch
    case OldSlot => a == WrapOut || a == UnlockOut || a == GiveSlot
    case Mutex => a == Store || a == WrapIn || a == UnlockIn || a == Fetch || a == WrapOut || a == UnlockOut
  }

  function Count(jobs: seq<Job>, h: Holding): nat {
    if jobs == [] then 0
    else Count(jobs[..|jobs| - 1], h) + (if Holds(jobs[|jobs| - 1].next, h) then 1 else 0)
  }

  /** Slots are free, about to be filled, full, or about to be given back; items are in a slot until somebody
      fetches them; one thread at most is between lock and unlock. */
  ghost predicate TokensOk(s: State)
    requires Shaped(s) && |s.consumed| <= |s.produced|
  {
    var items := |s.produced| - |s.consumed|;
    && s.sys.semas[EMPTY].count + Count(s.jobs, Slot) + items + Count(s.jobs, OldSlot) == |s.slots|
    && s.sys.semas[FULL].count + Count(s.jobs, Item) + Count(s.jobs, NewItem) == items
    && s.sys.semas[LOCK].count + Count(s.jobs, Mutex) == 1
    && s.sys.semas[EMPTY].count >= 0 && s.sys.semas[FULL].count >= 0 && s.sys.semas[LOCK].count >= 0
  }

  /** Position `pos` of the ring after `n` steps, with or without the wrap. */
  predicate AtPos(pos: nat, n: nat, size: nat, wrapping: bool)
    requires size > 0
  {
    if wrapping then n > 0 && pos == (n - 1) % size + 1 else pos == n % size
  }

  ghost predicate Somewhere(jobs: seq<Job>, a: Action) {
    exists t :: 0 <= t < |jobs| && jobs[t].next == a
  }

  /** The items produced and not yet consumed are in the ring, in order. */
  ghost predicate DataOk(s: State)
    requires Shaped(s)
  {
    && s.consumed <= s.produced && |s.produced| - |s.consumed| <= |s.slots|
    && (forall i | |s.consumed| <= i < |s.produced| :: s.slots[i % |s.slots|] == s.produced[i])
    && AtPos(s.inPos, |s.produced|, |s.slots|, Somewhere(s.jobs, WrapIn))
    && AtPos(s.outPos, |s.consumed|, |s.slots|, Somewhere(s.jobs, WrapOut))
  }

  ghost predicate Inv(s: State) {
    && Shaped(s) && (s.sys.exited || T.Inv(s.sys))
    && (forall t | 0 <= t < |s.jobs| && s.sys.threads[t].Blocked? :: Wants(s.jobs[t].next) == Some(s.sys.threads[t].sema))
    && DataOk(s) && TokensOk(s)
  }

  // ---------------------------------------------------------------- counting

  function One(b: bool): nat { if b then 1 else 0 }

  lemma {:induction false} CountUpdate(jobs: seq<Job>, t: nat, job: Job, h: Holding)
    requires t < |jobs|
    ensures Count(jobs[t := job], h) == Count(jobs, h) - One(Holds(jobs[t].next, h)) + One(Holds(job.next, h))
    ensures Holds(jobs[t].next, h) ==> Count(jobs, h) > 0
  {
    var n := |jobs| - 1;
    assert jobs[t := job][..n] == if t == n then jobs[..n] else jobs[..n][t := job];
    if t >= n {
    } else {
      CountUpdate(jobs[..n], t, job, h);
    }
  }

  /** Two different threads that hold the same make a count of two. */
  lemma TwoHold(jobs: seq<Job>, t: nat, u: nat, h: Holding)
    requires t < |jobs| && u < |jobs| && t != u && Holds(jobs[t].next, h) && Holds(jobs[u].next, h)
    ensures Count(jobs, h) >= 2
  {
    CountUpdate(jobs, t, jobs[t].(next := Idle), h);
    CountUpdate(jobs[t := jobs[t].(next := Idle)], u, jobs[u], h);
  }

  /** All the counts after one thread has moved on. */
  lemma Moved(jobs: seq<Job>, t: nat, job: Job)
    requires t < |jobs|
    ensures forall h: Holding :: Count(jobs[t := job], h) == Count(jobs, h) - One(Holds(jobs[t].next, h)) + One(Holds(job.next, h))
    ensures forall h: Holding :: Holds(jobs[t].next, h) ==> Count(jobs, h) > 0
  {
    forall h: Holding
      ensures Count(jobs[t := job], h) == Count(jobs, h) - One(Holds(jobs[t].next, h)) + One(Holds(job.next, h))
      ensures Holds(jobs[t].next, h) ==> Count(jobs, h) > 0
    {
      CountUpdate(jobs, t, job, h);
    }
  }

  /** The lock excludes: of two threads at most one is between lock and unlock. */
  lemma MutualExclusion(s: State, t: nat, u: nat)
    requires Inv(s) && t < |s.jobs| && u < |s.jobs| && Holds(s.jobs[t].next, Mutex) && Holds(s.jobs[u].next, Mutex)
    ensures t == u
  {
    if t != u {
      TwoHold(s.jobs, t, u, Mutex);
    }
  }

  // ---------------------------------------------------------------- every step keeps the invariant

  /** Whoever is blocked is at the action that decrements. */
  ghost predicate BlockedOk(s: State)
    requires Shaped(s)
  {
    forall t | 0 <= t < |s.jobs| && s.sys.threads[t].Blocked? :: Wants(s.jobs[t].next) == Some(s.sys.threads[t].sema)
  }

  /** A thread that moves on, and not to or from a wrap, leaves the data alone. */
  lemma DataSame(s: State, s': State)
    requires Shaped(s) && Shaped(s') && DataOk(s) && |s'.jobs| == |s.jobs|
    requires s'.slots == s.slots && s'.inPos == s.inPos && s'.outPos == s.outPos
    requires s'.produced == s.produced && s'.consumed == s.consumed
    requires forall t | 0 <= t < |s.jobs| ::
      (s'.jobs[t].next == WrapIn <==> s.jobs[t].next == WrapIn) && (s'.jobs[t].next == WrapOut <==> s.jobs[t].next == WrapOut)
    ensures DataOk(s')
  {
    assert Somewhere(s'.jobs, WrapIn) <==> Somewhere(s.jobs, WrapIn) by {
      if Somewhere(s.jobs, WrapIn) {
        var t :| 0 <= t < |s.jobs| && s.jobs[t].next == WrapIn;
        assert s'.jobs[t].next == WrapIn;
      }
    }
    assert Somewhere(s'.jobs, WrapOut) <==> Somewhere(s.jobs, WrapOut) by {
      if Somewhere(s.jobs, WrapOut) {
        var t :| 0 <= t < |s.jobs| && s.jobs[t].next == WrapOut;
        assert s'.jobs[t].next == WrapOut;
      }
    }
  }

  /** The semaphore that an action increments. */
  function Gives(a: Action): Option<nat> {
    match a
    case UnlockIn => Some(LOCK)
    case GiveItem => Some(FULL)
    case UnlockOut => Some(LOCK)
    case GiveSlot => Some(EMPTY)
    case _ => None
  }

  /** Semaphore actions are not the wraps, nor right before them. */
  lemma Harmless(job: Job)
    requires Wants(job.next).Some? || Gives(job.next).Some?
    ensures job.next != WrapIn && job.next != WrapOut && After(job).next != WrapIn && After(job).next != WrapOut
  {
  }

  /** A decrement blocks at most the current thread, and moves at most one from the run queue. */
  lemma DecStatuses(s: T.System, a: nat)
    requires T.Inv(s) && a < |s.semas|
    ensures var s' := T.Dec(s, a);
            && T.Shaped(s') && |s'.threads| == |s.threads| && |s'.semas| == |s.semas| && (s'.exited || T.Inv(s'))
            && (forall b | 0 <= b < |s.semas| ::
                  s'.semas[b].count == if b == a && s.semas[a].count != 0 then s.semas[a].count - 1 else s.semas[b].count)
            && (forall t | 0 <= t < |s.threads| && s'.threads[t].Blocked? ::
                  s'.threads[t] == s.threads[t] || (t == s.current && s'.threads[t] == T.Blocked(a) && s.semas[a].count == 0))
  {
    T.Decremented(s, a);
    hide T.QueueOk, T.SemaOk;
  }

  /** The counts of the semaphores, all that the tokens depend on. */
  ghost predicate SameCounts(s: State, s': State)
    requires Shaped(s) && Shaped(s')
  {
    && s'.produced == s.produced && s'.consumed == s.consumed && |s'.slots| == |s.slots|
    && forall b | 0 <= b < 3 :: s'.sys.semas[b].count == s.sys.semas[b].count
  }

  lemma GrantTokens(s: State, s': State, a: nat, t: nat)
    requires Shaped(s) && |s.consumed| <= |s.produced| && TokensOk(s) && a < 3 && t < |s.jobs|
    requires Wants(s.jobs[t].next) == Some(a) && s'.jobs == s.jobs[t := After(s.jobs[t])]
    requires Shaped(s') && s.sys.semas[a].count != 0
    requires SameCounts(s.(sys := s.sys.(semas := s.sys.semas[a := s.sys.semas[a].(count := s.sys.semas[a].count - 1)])), s')
    ensures TokensOk(s')
  {
    Moved(s.jobs, t, After(s.jobs[t]));
    forall b | 0 <= b < 3
      ensures s'.sys.semas[b].count == if b == a then s.sys.semas[a].count - 1 else s.sys.semas[b].count
    {
    }
  }

  lemma SameTokens(s: State, s': State)
    requires Shaped(s) && |s.consumed| <= |s.produced| && TokensOk(s)
    requires Shaped(s') && SameCounts(s, s') && s'.jobs == s.jobs
    ensures TokensOk(s')
  {
    assert forall b | 0 <= b < 3 :: s'.sys.semas[b].count == s.sys.semas[b].count;
  }

  lemma Granted(s: State, a: nat)
    requires Inv(s) && !s.sys.exited && a < 3 && Wants(s.jobs[s.sys.current].next) == Some(a) && s.sys.semas[a].count != 0
    ensures Inv(Dec(s, a))
  {
    DecStatuses(s.sys, a);
    assert |s.consumed| <= |s.produced|;
    Harmless(s.jobs[s.sys.current]);
    hide DataOk, TokensOk, T.Inv, T.Dec, T.Shaped, After, Wants, Gives;
    DataSame(s, Dec(s, a));
    GrantTokens(s, Dec(s, a), a, s.sys.current);
  }

  lemma NotGranted(s: State, a: nat)
    requires Inv(s) && !s.sys.exited && a < 3 && Wants(s.jobs[s.sys.current].next) == Some(a) && s.sys.semas[a].count == 0
    ensures Inv(Dec(s, a))
  {
    DecStatuses(s.sys, a);
    assert |s.consumed| <= |s.produced|;
    Harmless(s.jobs[s.sys.current]);
    hide DataOk, TokensOk, T.Inv, T.Dec, T.Shaped, After, Wants, Gives;
    DataSame(s, Dec(s, a));
    SameTokens(s, Dec(s, a));
  }

  lemma GiveTokens(s: State, s': State, a: nat, t: nat)
    requires Shaped(s) && |s.consumed| <= |s.produced| && TokensOk(s) && a < 3 && t < |s.jobs|
    requires Gives(s.jobs[t].next) == Some(a) && s'.jobs == s.jobs[t := After(s.jobs[t])]
    requires Shaped(s')
    requires SameCounts(s.(sys := s.sys.(semas := s.sys.semas[a := s.sys.semas[a].(count := s.sys.semas[a].count + 1)])), s')
    ensures TokensOk(s')
  {
    Moved(s.jobs, t, After(s.jobs[t]));
    forall b | 0 <= b < 3
      ensures s'.sys.semas[b].count == if b == a then s.sys.semas[a].count + 1 else s.sys.semas[b].count
    {
    }
  }

  /** An increment unblocks the head of the queue, or it counts. */
  lemma IncStatuses(s: T.System, a: nat)
    requires T.Inv(s) && a < |s.semas|
    ensures var s' := T.Inc(s, a); var q := s.semas[a].blocked;
            && T.Shaped(s') && T.Inv(s') && |s'.threads| == |s.threads| && |s'.semas| == |s.semas|
            && (forall b | 0 <= b < |s.semas| ::
                  s'.semas[b].count == if b == a && q == [] then s.semas[a].count + 1 else s.semas[b].count)
            && (forall t | 0 <= t < |s.threads| && s'.threads[t].Blocked? :: s'.threads[t] == s.threads[t] && (q == [] || t != q[0]))
            && (q != [] ==> s.threads[q[0]] == T.Blocked(a) && q[0] != s.current)
  {
    assert T.QueueOk(s.threads, s.semas[a].blocked, T.Blocked(a));
    T.Incremented(s, a);
    hide T.SemaOk;
  }

  lemma Counted(s: State, a: nat)
    requires Inv(s) && !s.sys.exited && a < 3 && Gives(s.jobs[s.sys.current].next) == Some(a) && s.sys.semas[a].blocked == []
    ensures Inv(Inc(s, a))
  {
    IncStatuses(s.sys, a);
    assert |s.consumed| <= |s.produced|;
    Harmless(s.jobs[s.sys.current]);
    hide DataOk, TokensOk, T.Inv, T.Inc, T.Shaped, After, Wants, Gives;
    DataSame(s, Inc(s, a));
    GiveTokens(s, Inc(s, a), a, s.sys.current);
  }

  /** A hand-off is an increment and a decrement at once. */
  lemma HandOverTokens(s: State, s': State, a: nat, c: nat, t: nat)
    requires Shaped(s) && Shaped(s') && |s.consumed| <= |s.produced| && TokensOk(s) && a < 3
    requires c < |s.jobs| && t < |s.jobs| && t != c
    requires Gives(s.jobs[c].next) == Some(a) && Wants(s.jobs[t].next) == Some(a) && SameCounts(s, s')
    requires s'.jobs == s.jobs[c := After(s.jobs[c])][t := After(s.jobs[t])]
    ensures TokensOk(s')
  {
    var s1 := s.(jobs := s.jobs[c := After(s.jobs[c])],
                 sys := s.sys.(semas := s.sys.semas[a := s.sys.semas[a].(count := s.sys.semas[a].count + 1)]));
    GiveTokens(s, s1, a, c);
    assert s1.sys.semas[a].count != 0;
    GrantTokens(s1, s', a, t);
    hide TokensOk;
  }

  lemma HandedData(s: State, a: nat)
    requires Shaped(s) && BlockedOk(s) && DataOk(s) && TokensOk(s) && !s.sys.exited && T.Inv(s.sys)
    requires a < 3 && Gives(s.jobs[s.sys.current].next) == Some(a) && s.sys.semas[a].blocked != []
    ensures Shaped(Inc(s, a)) && DataOk(Inc(s, a)) && TokensOk(Inc(s, a))
  {
    IncStatuses(s.sys, a);
    var t := s.sys.semas[a].blocked[0];
    assert |s.consumed| <= |s.produced| && t < |s.jobs| && Wants(s.jobs[t].next) == Some(a);
    Harmless(s.jobs[t]);
    Harmless(s.jobs[s.sys.current]);
    hide DataOk, TokensOk, T.Inv, T.Inc, T.Shaped, BlockedOk, After, Wants, Gives;
    DataSame(s, Inc(s, a));
    HandOverTokens(s, Inc(s, a), a, s.sys.current, t);
  }

  lemma HandedOver(s: State, a: nat)
    requires Inv(s) && !s.sys.exited && a < 3 && Gives(s.jobs[s.sys.current].next) == Some(a) && s.sys.semas[a].blocked != []
    ensures Inv(Inc(s, a))
  {
    HandedData(s, a);
    IncStatuses(s.sys, a);
    assert |Inc(s, a).consumed| <= |Inc(s, a).produced|;
    hide DataOk, TokensOk, T.Inv, T.Inc;
  }

  // ---------------------------------------------------------------- the ring

  lemma AtNextPos(pos: nat, n: nat, size: nat)
    requires size > 0 && AtPos(pos, n, size, true)
    ensures AtPos(if pos == size then 0 else pos, n, size, false)
  {
    NextMod(n - 1, size);
  }

  /** Items less than a round apart are in different slots. */
  lemma Apart(i: nat, n: nat, size: nat)
    requires i < n < i + size
    ensures i % size != n % size
  {
    if i % size == n % size {
      assert i == i / size * size + i % size && n == n / size * size + n % size;
      assert (n / size - i / size) * size == n - i;
      SmallMultiple(n / size - i / size, size);
    }
  }

  /** Nobody else is between lock and unlock when the current thread is. */
  lemma OnlyMe(s: State, t: nat)
    requires Shaped(s) && |s.consumed| <= |s.produced| && TokensOk(s) && t < |s.jobs| && Holds(s.jobs[t].next, Mutex)
    ensures forall u | 0 <= u < |s.jobs| && u != t :: !Holds(s.jobs[u].next, Mutex)
  {
    forall u | 0 <= u < |s.jobs| && u != t ensures !Holds(s.jobs[u].next, Mutex) {
      if Holds(s.jobs[u].next, Mutex) {
        TwoHold(s.jobs, t, u, Mutex);
      }
    }
  }

  /** A slot is free for whoever stores, and it is the next one of the ring. */
  lemma StoreReady(s: State, c: nat)
    requires Shaped(s) && DataOk(s) && TokensOk(s) && c < |s.jobs| && s.jobs[c].next == Store
    ensures s.inPos == |s.produced| % |s.slots| && |s.produced| - |s.consumed| < |s.slots|
    ensures forall u | 0 <= u < |s.jobs| && u != c :: !Holds(s.jobs[u].next, Mutex)
  {
    OnlyMe(s, c);
    Moved(s.jobs, c, s.jobs[c]);
    assert Holds(s.jobs[c].next, Slot);
    if Somewhere(s.jobs, WrapIn) {
      var t :| 0 <= t < |s.jobs| && s.jobs[t].next == WrapIn;
      assert Holds(s.jobs[t].next, Mutex);
    }
  }

  /** The next item in order is there for whoever fetches. */
  lemma FetchReady(s: State, c: nat)
    requires Shaped(s) && DataOk(s) && TokensOk(s) && c < |s.jobs| && s.jobs[c].next == Fetch
    ensures |s.consumed| < |s.produced| && s.outPos == |s.consumed| % |s.slots|
    ensures s.slots[s.outPos] == s.produced[|s.consumed|]
    ensures forall u | 0 <= u < |s.jobs| && u != c :: !Holds(s.jobs[u].next, Mutex)
  {
    OnlyMe(s, c);
    Moved(s.jobs, c, s.jobs[c]);
    assert Holds(s.jobs[c].next, Item);
    if Somewhere(s.jobs, WrapOut) {
      var t :| 0 <= t < |s.jobs| && s.jobs[t].next == WrapOut;
      assert Holds(s.jobs[t].next, Mutex);
    }
  }

  /** What a step of the current thread changes besides the data. */
  lemma OwnTokens(s: State, s': State, c: nat)
    requires Shaped(s) && Shaped(s') && |s.consumed| <= |s.produced| && |s'.consumed| <= |s'.produced| && TokensOk(s)
    requires c < |s.jobs| && s'.jobs == s.jobs[c := After(s.jobs[c])] && s'.sys == s.sys && |s'.slots| == |s.slots|
    requires var a := s.jobs[c].next;
             && (a == Store || a == WrapIn || a == Fetch || a == WrapOut)
             && |s'.produced| == |s.produced| + One(a == Store) && |s'.consumed| == |s.consumed| + One(a == Fetch)
    ensures TokensOk(s')
  {
    Moved(s.jobs, c, After(s.jobs[c]));
  }

  /** Whether somebody is at a wrap, after thread `c` has moved. */
  lemma WrapMoved(jobs: seq<Job>, c: nat, job: Job, a: Action)
    requires c < |jobs| && forall u | 0 <= u < |jobs| && u != c :: jobs[u].next != a
    ensures Somewhere(jobs[c := job], a) <==> job.next == a
  {
    if job.next == a {
      assert jobs[c := job][c].next == a;
    }
  }

  lemma WrapStays(jobs: seq<Job>, c: nat, job: Job, a: Action)
    requires c < |jobs| && jobs[c].next != a && job.next != a
    ensures Somewhere(jobs[c := job], a) <==> Somewhere(jobs, a)
  {
    if Somewhere(jobs, a) {
      var t :| 0 <= t < |jobs| && jobs[t].next == a;
      assert jobs[c := job][t].next == a;
    }
  }

  lemma StoreData(s: State)
    requires Shaped(s) && DataOk(s) && TokensOk(s) && s.jobs[s.sys.current].next == Store
    ensures DataOk(Act(s)) && |Act(s).produced| == |s.produced| + 1 && |Act(s).slots| == |s.slots|
  {
    hide T.Exit, T.Dec, T.Yield, Count;
    var c, s' := s.sys.current, Act(s);
    StoreReady(s, c);
    WrapMoved(s.jobs, c, s'.jobs[c], WrapIn);
    WrapStays(s.jobs, c, s'.jobs[c], WrapOut);
    forall i | |s'.consumed| <= i < |s'.produced| ensures s'.slots[i % |s.slots|] == s'.produced[i] {
      if i < |s.produced| {
        Apart(i, |s.produced|, |s.slots|);
      }
    }
    hide TokensOk;
  }

  lemma StoreKeeps(s: State)
    requires Inv(s) && !s.sys.exited && s.jobs[s.sys.current].next == Store
    ensures Inv(Act(s)) && Act(s).produced == s.produced + [s.jobs[s.sys.current].arg]
  {
    StoreData(s);
    StoreReady(s, s.sys.current);
    assert |s.consumed| <= |s.produced|;
    hide TokensOk, DataOk, T.Inv;
    OwnTokens(s, Act(s), s.sys.current);
  }

  lemma WrapInKeeps(s: State)
    requires Inv(s) && !s.sys.exited && s.jobs[s.sys.current].next == WrapIn
    ensures Inv(Act(s))
  {
    hide T.Inv, T.Exit, Count;
    var c, s' := s.sys.current, Act(s);
    OnlyMe(s, c);
    OwnTokens(s, s', c);
    assert Somewhere(s.jobs, WrapIn);
    WrapMoved(s.jobs, c, s'.jobs[c], WrapIn);
    WrapStays(s.jobs, c, s'.jobs[c], WrapOut);
    AtNextPos(s.inPos, |s.produced|, |s.slots|);
    hide TokensOk, T.Inv;
  }

  lemma FetchKeeps(s: State)
    requires Inv(s) && !s.sys.exited && s.jobs[s.sys.current].next == Fetch
    ensures Inv(Act(s)) && |s.consumed| < |s.produced| && Act(s).consumed == s.consumed + [s.produced[|s.consumed|]]
  {
    hide T.Inv, T.Exit, Count;
    var c, s' := s.sys.current, Act(s);
    FetchReady(s, c);
    OwnTokens(s, s', c);
    WrapMoved(s.jobs, c, s'.jobs[c], WrapOut);
    WrapStays(s.jobs, c, s'.jobs[c], WrapIn);
    hide TokensOk, T.Inv;
  }

  lemma WrapOutKeeps(s: State)
    requires Inv(s) && !s.sys.exited && s.jobs[s.sys.current].next == WrapOut
    ensures Inv(Act(s))
  {
    hide T.Inv, T.Exit, Count;
    var c, s' := s.sys.current, Act(s);
    OnlyMe(s, c);
    OwnTokens(s, s', c);
    assert Somewhere(s.jobs, WrapOut);
    WrapMoved(s.jobs, c, s'.jobs[c], WrapOut);
    WrapStays(s.jobs, c, s'.jobs[c], WrapIn);
    AtNextPos(s.outPos, |s.consumed|, |s.slots|);
    hide TokensOk, T.Inv;
  }

  // ---------------------------------------------------------------- runs

  /** Threads come and go; nobody else's semaphore or action changes. */
  lemma SwitchKeeps(s: State, sys: T.System)
    requires Inv(s) && !s.sys.exited && T.Shaped(sys) && (sys.exited || T.Inv(sys))
    requires |sys.threads| == |s.sys.threads| && sys.semas == s.sys.semas
    requires forall t | 0 <= t < |sys.threads| && sys.threads[t].Blocked? :: sys.threads[t] == s.sys.threads[t]
    ensures Inv(s.(sys := sys))
  {
    var s' := s.(sys := sys);
    assert |s.consumed| <= |s.produced|;
    hide DataOk, TokensOk, T.Inv;
    DataSame(s, s');
    SameTokens(s, s');
  }

  lemma LeaveKeeps(s: State)
    requires Inv(s) && !s.sys.exited
    ensures Inv(s.(sys := T.Exit(s.sys)))
  {
    T.Exited(s.sys);
    SwitchKeeps(s, T.Exit(s.sys));
    hide T.QueueOk, T.SemaOk, DataOk, TokensOk;
  }

  lemma YieldKeeps(s: State)
    requires Inv(s) && !s.sys.exited
    ensures Inv(s.(sys := T.Yield(s.sys)))
  {
    T.Yielded(s.sys);
    SwitchKeeps(s, T.Yield(s.sys));
    hide T.QueueOk, T.SemaOk, DataOk, TokensOk;
  }

  /** A new thread holds nothing. */
  lemma NewKeeps(s: State, job: Job)
    requires Inv(s) && !s.sys.exited && (job.next == TakeSlot || job.next == TakeItem || job.next == Leave)
    ensures Inv(s.(sys := T.Create(s.sys), jobs := s.jobs + [job]))
  {
    hide T.Inv;
    var s' := s.(sys := T.Create(s.sys), jobs := s.jobs + [job]);
    T.Created(s.sys);
    assert s'.jobs[..|s'.jobs| - 1] == s.jobs;
    hide DataOk, T.Inv;
    NewData(s, s', job);
  }

  lemma NewData(s: State, s': State, job: Job)
    requires Shaped(s) && Shaped(s') && DataOk(s) && s'.jobs == s.jobs + [job] && job.next != WrapIn && job.next != WrapOut
    requires s'.slots == s.slots && s'.inPos == s.inPos && s'.outPos == s.outPos
    requires s'.produced == s.produced && s'.consumed == s.consumed
    ensures DataOk(s')
  {
    if Somewhere(s.jobs, WrapIn) {
      var t :| 0 <= t < |s.jobs| && s.jobs[t].next == WrapIn;
      assert s'.jobs[t].next == WrapIn;
    }
    if Somewhere(s.jobs, WrapOut) {
      var t :| 0 <= t < |s.jobs| && s.jobs[t].next == WrapOut;
      assert s'.jobs[t].next == WrapOut;
    }
  }

  lemma ActKeeps(s: State)
    requires Shaped(s) && Inv(s) && !s.sys.exited
    ensures Inv(Act(s))
  {
    hide Inv;
    var a := s.jobs[s.sys.current].next;
    if Wants(a).Some? {
      if s.sys.semas[Wants(a).value].count != 0 {
        Granted(s, Wants(a).value);
      } else {
        NotGranted(s, Wants(a).value);
      }
    } else if Gives(a).Some? {
      if s.sys.semas[Gives(a).value].blocked == [] {
        Counted(s, Gives(a).value);
      } else {
        HandedOver(s, Gives(a).value);
      }
    } else if a == Store {
      StoreKeeps(s);
    } else if a == WrapIn {
      WrapInKeeps(s);
    } else if a == Fetch {
      FetchKeeps(s);
    } else if a == WrapOut {
      WrapOutKeeps(s);
    } else if a == Leave {
      LeaveKeeps(s);
    } else {
      YieldKeeps(s);
    }
  }

  lemma StepKeeps(s: State, e: Event)
    requires Shaped(s) && Inv(s)
    ensures Inv(Step(s, e))
  {
    hide Inv;
    if !s.sys.exited {
      match e
      case Go => ActKeeps(s);
      case Preempt => YieldKeeps(s);
      case NewProducer(arg) => NewKeeps(s, Job(TakeSlot, arg, 0));
      case NewConsumer(count) => NewKeeps(s, Job(if count == 0 then Leave else TakeItem, 0, count));
    }
  }

  /** The main thread alone, and a ring of `n` empty slots. */
  function Start(n: nat): (s: State)
    requires n > 0
    ensures Shaped(s) && |s.slots| == n
  {
    State(T.System([T.Running], 0, [], [T.Sema(n, [], n, 0, 0), T.Sema(0, [], 0, 0, 0), T.Sema(1, [], 1, 0, 0)], 0, None, false),
          [Job(Idle, 0, 0)], seq(n, _ => 0), 0, 0, [], [])
  }

  lemma NobodyBlocked(q: seq<T.Sema>)
    requires |q| == 3 && q[0].blocked == q[1].blocked == q[2].blocked == []
    ensures T.TotalBlocked(q) == 0
  {
    assert q[..2][..1] == [q[0]] && q[..2][..1][..0] == [];
    assert T.TotalBlocked(q[..2]) == T.TotalBlocked(q[..2][..1]) == 0;
  }

  lemma NobodyQueued(threads: seq<T.Status>, status: T.Status)
    requires forall t | 0 <= t < |threads| :: threads[t] != status
    ensures T.QueueOk(threads, [], status)
  {
  }

  lemma StartedThreads(n: nat)
    requires n > 0
    ensures T.Inv(Start(n).sys)
  {
    hide T.QueueOk;
    var s := Start(n).sys;
    NobodyBlocked(s.semas);
    NobodyQueued(s.threads, T.Runnable);
    forall a: nat | a < 3 ensures T.QueueOk(s.threads, s.semas[a].blocked, T.Blocked(a)) {
      NobodyQueued(s.threads, T.Blocked(a));
    }
  }

  lemma Started(n: nat)
    requires n > 0
    ensures Inv(Start(n))
  {
    var s := Start(n);
    StartedThreads(n);
    hide T.Inv;
    assert s.jobs[..0] == [];
    assert forall h: Holding :: Count(s.jobs, h) == 0;
    assert !Somewhere(s.jobs, WrapIn) && !Somewhere(s.jobs, WrapOut);
  }

  function Run(s: State, es: seq<Event>): (r: State)
    requires Shaped(s)
    ensures Shaped(r) && |r.slots| == |s.slots|
  {
    if es == [] then s else Step(Run(s, es[..|es| - 1]), es[|es| - 1])
  }

  lemma {:induction false} RunKeeps(n: nat, es: seq<Event>)
    requires n > 0
    ensures Inv(Run(Start(n), es))
  {
    hide Inv;
    if es == [] {
      Started(n);
    } else {
      RunKeeps(n, es[..|es| - 1]);
      StepKeeps(Run(Start(n), es[..|es| - 1]), es[|es| - 1]);
    }
  }

  /** Whatever the schedule and however many threads: consumers get the items in the order of production, none
      twice and none lost, the ring never holds more than it has slots, and the lock excludes. */
  lemma EveryRun(n: nat, es: seq<Event>)
    requires n > 0
    ensures var s := Run(Start(n), es);
            && s.consumed <= s.produced && |s.produced| - |s.consumed| <= n == |s.slots|
            && forall t, u | 0 <= t < |s.jobs| && 0 <= u < |s.jobs| && t != u :: !Holds(s.jobs[t].next, Mutex) || !Holds(s.jobs[u].next, Mutex)
  {
    RunKeeps(n, es);
    var s := Run(Start(n), es);
    forall t, u | 0 <= t < |s.jobs| && 0 <= u < |s.jobs| && t != u
      ensures !Holds(s.jobs[t].next, Mutex) || !Holds(s.jobs[u].next, Mutex)
    {
      if Holds(s.jobs[t].next, Mutex) && Holds(s.jobs[u].next, Mutex) {
        MutualExclusion(s, t, u);
      }
    }
  }

  // ---------------------------------------------------------------- nobody is stuck

  /** Whoever is gone has left its loop. */
  ghost predicate Gone(s: State)
    requires Shaped(s)
  {
    forall t | 0 <= t < |s.jobs| && s.sys.threads[t] == T.Freed :: s.jobs[t].next == Leave
  }

  /** The current thread and the first one that waits for a semaphore are not gone, nor does an operation on it remove anybody. */
  lemma StillHere(s: T.System, a: nat, t: nat)
    requires T.Inv(s) && a < |s.semas| && t < |s.threads|
    ensures s.threads[s.current] == T.Running
    ensures s.semas[a].blocked != [] ==> s.threads[s.semas[a].blocked[0]] == T.Blocked(a)
    ensures T.Dec(s, a).threads[t] == T.Freed ==> s.threads[t] == T.Freed
    ensures T.Inc(s, a).threads[t] == T.Freed ==> s.threads[t] == T.Freed
    ensures T.Yield(s).threads[t] == T.Freed ==> s.threads[t] == T.Freed
    ensures T.Exit(s).threads[t] == T.Freed ==> s.threads[t] == T.Freed || t == s.current
  {
    assert T.QueueOk(s.threads, s.semas[a].blocked, T.Blocked(a));
  }

  lemma DecGone(s: State, a: nat, t: nat)
    requires Shaped(s) && T.Inv(s.sys) && Gone(s) && t < |s.jobs| && a < 3 && Dec(s, a).sys.threads[t] == T.Freed
    ensures Dec(s, a).jobs[t].next == Leave
  {
    hide T.Inv, T.Dec, T.Shaped, After;
    StillHere(s.sys, a, t);
  }

  lemma IncGone(s: State, a: nat, t: nat)
    requires Shaped(s) && T.Inv(s.sys) && Gone(s) && t < |s.jobs| && a < 3 && Inc(s, a).sys.threads[t] == T.Freed
    ensures Inc(s, a).jobs[t].next == Leave
  {
    hide T.Inv, T.Inc, T.Shaped, After;
    StillHere(s.sys, a, t);
  }

  /** Only a thread that leaves is gone afterwards. */
  lemma ActGone(s: State, t: nat)
    requires Shaped(s) && T.Inv(s.sys) && Gone(s) && t < |s.jobs| && Act(s).sys.threads[t] == T.Freed
    ensures Act(s).jobs[t].next == Leave
  {
    hide T.Inv, T.Exit, T.Yield, Dec, Inc, After;
    StillHere(s.sys, 0, t);
    match s.jobs[s.sys.current].next
    case TakeSlot => DecGone(s, EMPTY, t);
    case LockIn => DecGone(s, LOCK, t);
    case UnlockIn => IncGone(s, LOCK, t);
    case GiveItem => IncGone(s, FULL, t);
    case TakeItem => DecGone(s, FULL, t);
    case LockOut => DecGone(s, LOCK, t);
    case UnlockOut => IncGone(s, LOCK, t);
    case GiveSlot => IncGone(s, EMPTY, t);
    case _ =>
  }

  lemma StepGone(s: State, e: Event)
    requires Shaped(s) && (s.sys.exited || T.Inv(s.sys)) && Gone(s)
    ensures Gone(Step(s, e))
  {
    hide Act, T.Inv, T.Yield;
    if !s.sys.exited {
      forall t | 0 <= t < |Step(s, e).jobs| && Step(s, e).sys.threads[t] == T.Freed ensures Step(s, e).jobs[t].next == Leave {
        if e == Go {
          ActGone(s, t);
        } else if t < |s.jobs| {
          StillHere(s.sys, 0, t);
        }
      }
    }
  }

  lemma ThreadsOk(s: State)
    requires Inv(s)
    ensures s.sys.exited || T.Inv(s.sys)
  {
  }

  lemma {:induction false} RunGone(n: nat, es: seq<Event>)
    requires n > 0
    ensures Gone(Run(Start(n), es))
  {
    hide Inv, Step;
    if es != [] {
      RunKeeps(n, es[..|es| - 1]);
      RunGone(n, es[..|es| - 1]);
      ThreadsOk(Run(Start(n), es[..|es| - 1]));
      StepGone(Run(Start(n), es[..|es| - 1]), es[|es| - 1]);
    }
  }

  lemma {:induction false} NobodyHolds(jobs: seq<Job>, h: Holding)
    requires forall t | 0 <= t < |jobs| :: !Holds(jobs[t].next, h)
    ensures Count(jobs, h) == 0
  {
    if jobs != [] {
      NobodyHolds(jobs[..|jobs| - 1], h);
    }
  }

  /** With nobody in the run queue, everybody but the current thread is gone or waits for a semaphore whose count is null. */
  lemma OthersWait(s: T.System, t: nat)
    requires T.Inv(s) && s.runQueue == [] && t < |s.threads| && t != s.current
    ensures s.threads[t] == T.Freed || (s.threads[t].Blocked? && s.threads[t].sema < |s.semas| && s.semas[s.threads[t].sema].count == 0)
  {
    assert T.QueueOk(s.threads, [], T.Runnable);
    if s.threads[t].Blocked? {
      var a := s.threads[t].sema;
      assert T.QueueOk(s.threads, s.semas[a].blocked, T.Blocked(a)) && T.SemaOk(s.semas[a]);
      assert T.Has(s.semas[a].blocked, t);
    }
  }

  /** The main thread finds the run queue empty. */
  ghost predicate AtRest(s: State)
    requires Shaped(s)
  {
    T.Inv(s.sys) && BlockedOk(s) && Gone(s) && s.sys.runQueue == [] && s.jobs[s.sys.current].next == Idle
  }

  /** Then the lock is free, and everybody else has left or waits for a slot or for an item. */
  lemma RestingAt(s: State, t: nat)
    requires Shaped(s) && AtRest(s) && |s.consumed| <= |s.produced| && TokensOk(s) && t < |s.jobs|
    ensures s.sys.threads[t].Blocked? ==>
      || (s.jobs[t].next == TakeSlot && s.sys.semas[EMPTY].count == 0)
      || (s.jobs[t].next == TakeItem && s.sys.semas[FULL].count == 0)
    ensures forall h: Holding :: !Holds(s.jobs[t].next, h)
  {
    hide TokensOk, T.Inv;
    LockIsFree(s);
    assert s.sys.threads[s.sys.current] == T.Running by { StillHere(s.sys, 0, 0); }
    if t != s.sys.current {
      OthersWait(s.sys, t);
    }
  }

  lemma LockIsFree(s: State)
    requires Shaped(s) && AtRest(s) && |s.consumed| <= |s.produced| && TokensOk(s)
    ensures s.sys.semas[LOCK].count == 1
  {
    hide T.Inv;
    forall t | 0 <= t < |s.jobs| ensures !Holds(s.jobs[t].next, Mutex) {
      if t != s.sys.current {
        OthersWait(s.sys, t);
      }
    }
    NobodyHolds(s.jobs, Mutex);
  }

  /** In every run: when the main thread finds the run queue empty, either everybody who waits is a producer, and the ring is
      full, or everybody who waits is a consumer, and the ring is empty. */
  lemma NoDeadlock(n: nat, es: seq<Event>)
    requires n > 0
    ensures var s := Run(Start(n), es); var items := |s.produced| - |s.consumed|;
            !s.sys.exited && s.sys.runQueue == [] && s.jobs[s.sys.current].next == Idle ==>
              || (forall t | 0 <= t < |s.jobs| && s.sys.threads[t].Blocked? :: s.jobs[t].next == TakeSlot && items == n)
              || (forall t | 0 <= t < |s.jobs| && s.sys.threads[t].Blocked? :: s.jobs[t].next == TakeItem && items == 0)
  {
    var s := Run(Start(n), es);
    RunKeeps(n, es);
    RunGone(n, es);
    if !s.sys.exited && s.sys.runQueue == [] && s.jobs[s.sys.current].next == Idle {
      AllResting(s);
    }
  }

  lemma AllResting(s: State)
    requires Shaped(s) && AtRest(s) && |s.consumed| <= |s.produced| && TokensOk(s)
    ensures var items := |s.produced| - |s.consumed|;
            || (forall t | 0 <= t < |s.jobs| && s.sys.threads[t].Blocked? :: s.jobs[t].next == TakeSlot && items == |s.slots|)
            || (forall t | 0 <= t < |s.jobs| && s.sys.threads[t].Blocked? :: s.jobs[t].next == TakeItem && items == 0)
  {
    hide AtRest, Holds;
    forall t | 0 <= t < |s.jobs|
      ensures s.sys.threads[t].Blocked? ==>
        || (s.jobs[t].next == TakeSlot && s.sys.semas[EMPTY].count == 0)
        || (s.jobs[t].next == TakeItem && s.sys.semas[FULL].count == 0)
      ensures forall h: Holding :: !Holds(s.jobs[t].next, h)
    {
      RestingAt(s, t);
    }
    NobodyHolds(s.jobs, Slot);
    NobodyHolds(s.jobs, NewItem);
    NobodyHolds(s.jobs, Item);
    NobodyHolds(s.jobs, OldSlot);
  }
}
