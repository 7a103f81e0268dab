/**
  The same session, one shared-memory step at a time. Any number of threads may
  be inside any of the calls; a program counter says how far each has come. The
  ring is reduced to two numbers: units allocated, and units whose frame the
  driver has accepted.
 */
module DceThreads {
  datatype Pc =
    | Idle
    // dce_enqueue_fd_pair
    | EnqWaitLock        // no token; waiting for the mutex to look at recycle_todo
    | EnqReport          // mutex held
    | EnqEntered         // token taken; the assertion comes next, then alloc
    | EnqFull            // ring full; post due
    | EnqAlloced         // enqueue_fd comes next
    | EnqSent            // frame accepted; post due
    | EnqPosted          // TODO mark due
    | EnqFailed          // frame refused; first post due
    | EnqFailedPosted    // undo due
    | EnqFailedUndone    // second post due
    // dce_dequeue_fd_pair, mutex held throughout
    | DeqLoop
    | DeqWaitSem         // suspended head, recycle_todo == 0: inside sem_wait
    | DeqCount(took: bool)
    | DeqPost            // terminal head, recycle_todo zeroed; post due
    | DeqFree
    // dce_recycle_fd_pair, mutex held throughout
    | RecLocked
    | RecAlloced
    | RecSent
    | RecPost
    // dce_recycle_discard
    | DisWaitLock
    | DisLocked
    | DisPost
    // dce_stream_continue and dce_stream_abort
    | AckWaitLock
    | AckLocked
    // any call about to drop the mutex
    | Unlocking

  datatype Choice =
    | CallEnqueue | CallDequeue | CallRecycle | CallDiscard | CallAcknowledge
    | HeadProcessed | HeadSuspended | HeadTerminal
    | DriverAccepts | DriverRefuses
    | Go

  /** What all threads see. */
  datatype Shared = Shared(
    capacity: nat,
    sem: nat, owner: int,            // thread holding the mutex, or -1
    todo: nat, allowed: bool,
    alloc: nat, sent: nat,
    refusals: nat)                   // ordinary enqueues refused by the driver so far

  datatype State = State(threads: seq<Pc>, m: Shared)

  function Init(threads: nat, capacity: nat): State {
    State(seq(threads, _ => Idle), Shared(capacity, 1, -1, 0, false, 0, 0, 0))
  }

  predicate MayMove(m: Shared, pc: Pc, c: Choice) {
    match pc
    case Idle => c.CallEnqueue? || c.CallDequeue? || c.CallRecycle? || c.CallDiscard? || c.CallAcknowledge?
    case EnqWaitLock => c.Go? && m.owner == -1
    case DisWaitLock => c.Go? && m.owner == -1
    case AckWaitLock => c.Go? && m.owner == -1
    case EnqAlloced => c.DriverAccepts? || c.DriverRefuses?
    case RecAlloced => c.DriverAccepts? || c.DriverRefuses?
    case DeqLoop => c.Go? || (m.sent > 0 && (c.HeadProcessed? || c.HeadSuspended? || c.HeadTerminal?))
    case DeqWaitSem => c.Go? && m.sem > 0
    case _ => c.Go?
  }

  /** One shared-memory step of thread `t`. */
  function Move(m: Shared, pc: Pc, t: nat, c: Choice): (Pc, Shared)
    requires MayMove(m, pc, c)
  {
    match pc
    case Idle => Call(m, t, c)
    case EnqWaitLock => (EnqReport, m.(owner := t))
    case EnqReport => (Idle, m.(owner := -1))
    case EnqEntered => if m.alloc >= m.capacity then (EnqFull, m) else (EnqAlloced, m.(alloc := m.alloc + 1))
    case EnqFull => (Idle, Post(m))
    case EnqAlloced =>
      if c.DriverAccepts? then (EnqSent, m.(sent := m.sent + 1)) else (EnqFailed, m.(refusals := m.refusals + 1))
    case EnqSent => (EnqPosted, Post(m))
    case EnqPosted => (Idle, m)
    case EnqFailed => (EnqFailedPosted, Post(m))
    case EnqFailedPosted => (EnqFailedUndone, m.(alloc := Less(m.alloc)))
    case EnqFailedUndone => (Idle, Post(m))
    case DeqLoop => Handle(m, c)
    case DeqWaitSem => (DeqCount(true), m.(sem := m.sem - 1))
    case DeqCount(_) => (DeqFree, m.(allowed := false, todo := m.todo + m.alloc))
    case DeqPost => (DeqFree, Post(m))
    case DeqFree => (DeqLoop, m.(alloc := Less(m.alloc), sent := Less(m.sent)))
    case RecLocked =>
      if !m.allowed || m.alloc >= m.capacity then (Unlocking, m) else (RecAlloced, m.(alloc := m.alloc + 1))
    case RecAlloced =>
      if c.DriverAccepts? then (RecSent, m.(sent := m.sent + 1)) else (Unlocking, m.(alloc := Less(m.alloc)))
    case RecSent => Release(m, RecPost)
    case RecPost => (Unlocking, Post(m))
    case DisWaitLock => (DisLocked, m.(owner := t))
    case DisLocked => if !m.allowed then (Unlocking, m) else Release(m, DisPost)
    case DisPost => (Unlocking, Post(m))
    case AckWaitLock => (AckLocked, m.(owner := t))
    case AckLocked => (Unlocking, m.(allowed := m.todo > 0))   // a call the assertions reject changes nothing
    case Unlocking => (Idle, m.(owner := -1))
  }

  function Post(m: Shared): Shared { m.(sem := m.sem + 1) }

  function Less(n: nat): nat { if n > 0 then n - 1 else 0 }

  function Call(m: Shared, t: nat, c: Choice): (Pc, Shared) {
    match c
    case CallEnqueue => if m.sem > 0 then (EnqEntered, m.(sem := m.sem - 1)) else (EnqWaitLock, m)
    case CallDequeue => if m.owner == -1 then (DeqLoop, m.(owner := t)) else (Idle, m)
    case CallRecycle => if m.owner == -1 then (RecLocked, m.(owner := t)) else (Idle, m)
    case CallDiscard => (DisWaitLock, m)
    case CallAcknowledge => (AckWaitLock, m)
    case _ => (Idle, m)
  }

  /** The dequeue switch; a processed or skipped head only gets freed. */
  function Handle(m: Shared, c: Choice): (Pc, Shared) {
    match c
    case HeadProcessed => (DeqFree, m)
    case HeadSuspended => (if m.todo == 0 then DeqWaitSem else DeqCount(false), m)
    case HeadTerminal => if m.todo > 0 then (DeqPost, m.(todo := 0, allowed := false)) else (DeqFree, m)
    case _ => (Unlocking, m)
  }

  function Release(m: Shared, post: Pc): (Pc, Shared) {
    if m.todo <= 1 then (post, m.(todo := 0, allowed := false))
    else (Unlocking, m.(todo := m.todo - 1, allowed := true))
  }

  predicate Enabled(s: State, t: nat, c: Choice) {
    t < |s.threads| && MayMove(s.m, s.threads[t], c)
  }

  function Step(s: State, t: nat, c: Choice): State
    requires Enabled(s, t, c)
  {
    var (pc, m) := Move(s.m, s.threads[t], t, c);
    State(s.threads[t := pc], m)
  }

  /** A schedule: which thread moves, and how the environment answers it. */
  predicate Run(s: State, schedule: seq<(nat, Choice)>, t: State)
    decreases schedule
  {
    if schedule == [] then s == t
    else
      var (thread, c) := schedule[0];
      Enabled(s, thread, c) && Run(Step(s, thread, c), schedule[1..], t)
  }

  // ----- what each program counter means -----

  predicate HoldsMutex(pc: Pc) {
    match pc
    case EnqReport => true
    case DeqLoop => true
    case DeqWaitSem => true
    case DeqCount(_) => true
    case DeqPost => true
    case DeqFree => true
    case RecLocked => true
    case RecAlloced => true
    case RecSent => true
    case RecPost => true
    case DisLocked => true
    case DisPost => true
    case AckLocked => true
    case Unlocking => true
    case _ => false
  }

  predicate WaitsForMutex(pc: Pc) {
    pc.EnqWaitLock? || pc.DisWaitLock? || pc.AckWaitLock?
  }

  /** Posts this thread will still make, or will make up for by raising
      `recycle_todo` from 0. */
  function Owed(pc: Pc): nat {
    match pc
    case EnqEntered => 1
    case EnqFull => 1
    case EnqAlloced => 1
    case EnqSent => 1
    case EnqFailed => 2
    case EnqFailedPosted => 1
    case EnqFailedUndone => 1
    case DeqCount(took) => if took then 1 else 0
    case DeqPost => 1
    case RecPost => 1
    case DisPost => 1
    case _ => 0
  }

  /** Units this thread has allocated but not handed to the driver. */
  function Unsent(pc: Pc): nat {
    if pc.EnqAlloced? || pc.EnqFailed? || pc.EnqFailedPosted? || pc.RecAlloced? then 1 else 0
  }

  function Sum(threads: seq<Pc>, weight: Pc -> nat): nat {
    if threads == [] then 0 else weight(threads[0]) + Sum(threads[1..], weight)
  }

  predicate MutexLaw(s: State) {
    && (s.m.owner == -1 || 0 <= s.m.owner < |s.threads|)
    && forall t :: 0 <= t < |s.threads| ==> (HoldsMutex(s.threads[t]) <==> s.m.owner == t)
  }

  /** Every token is somewhere: in the semaphore, owed by a thread, or held by
      recycle mode. Each refused enqueue adds one. */
  ghost predicate TokenLaw(s: State) {
    s.m.sem + Sum(s.threads, Owed) + RecycleMode(s.m) == 1 + s.m.refusals
  }

  function RecycleMode(m: Shared): nat { if m.todo > 0 then 1 else 0 }

  ghost predicate RingLaw(s: State) {
    s.m.alloc == s.m.sent + Sum(s.threads, Unsent)
  }

  predicate Local(m: Shared, pc: Pc) {
    && (m.allowed ==> m.todo > 0)
    && m.alloc >= m.sent + Unsent(pc)
    && (pc.DeqWaitSem? ==> m.todo == 0 && m.sent > 0)
    && (pc.DeqCount? ==> (pc.took <==> m.todo == 0) && m.sent > 0)
    && (pc.DeqFree? ==> m.sent > 0)
    && (pc.DeqPost? ==> m.todo == 0 && m.sent > 0)
    && (pc.RecAlloced? || pc.RecSent? ==> m.todo > 0)
    && (pc.RecPost? || pc.DisPost? ==> m.todo == 0)
  }

  ghost predicate Inv(s: State) {
    && MutexLaw(s) && TokenLaw(s) && RingLaw(s)
    && forall t :: 0 <= t < |s.threads| ==> Local(s.m, s.threads[t])
  }

  // ----- sums over threads -----

  lemma {:induction false} SumUpdate(threads: seq<Pc>, t: nat, pc: Pc, weight: Pc -> nat)
    requires t < |threads|
    ensures Sum(threads[t := pc], weight) == Sum(threads, weight) - weight(threads[t]) + weight(pc)
    ensures weight(threads[t]) <= Sum(threads, weight)
  {
    if t == 0 {
      assert threads[0 := pc][1..] == threads[1..];
    } else {
      assert threads[t := pc][1..] == threads[1..][t - 1 := pc];
      SumUpdate(threads[1..], t - 1, pc, weight);
    }
  }

  lemma SumOfTwo(threads: seq<Pc>, t: nat, u: nat, weight: Pc -> nat)
    requires t < |threads| && u < |threads| && t != u && weight(Idle) == 0
    ensures weight(threads[t]) + weight(threads[u]) <= Sum(threads, weight)
  {
    SumUpdate(threads, t, Idle, weight);
    SumUpdate(threads[t := Idle], u, Idle, weight);
  }

  lemma {:induction false} SumWitness(threads: seq<Pc>, weight: Pc -> nat) returns (t: nat)
    requires Sum(threads, weight) > 0
    ensures t < |threads| && weight(threads[t]) > 0
  {
    if weight(threads[0]) > 0 {
      t := 0;
    } else {
      t := SumWitness(threads[1..], weight);
      t := t + 1;
    }
  }

  lemma {:induction false} SumDominated(threads: seq<Pc>, low: Pc -> nat, high: Pc -> nat)
    requires forall t :: 0 <= t < |threads| ==> low(threads[t]) <= high(threads[t])
    ensures Sum(threads, low) <= Sum(threads, high)
  {
    if threads != [] {
      assert forall t :: 0 <= t < |threads[1..]| ==> threads[1..][t] == threads[t + 1];
      SumDominated(threads[1..], low, high);
    }
  }

  // ----- every step keeps the laws -----

  /** One step moves tokens between the semaphore, the thread and recycle mode. */
  lemma MoveBalances(m: Shared, pc: Pc, t: nat, c: Choice)
    requires MayMove(m, pc, c) && Local(m, pc)
    ensures var (pc', m') := Move(m, pc, t, c);
            m'.sem + Owed(pc') + RecycleMode(m') + m.refusals == m.sem + Owed(pc) + RecycleMode(m) + m'.refusals
  {
  }

  /** One step moves units between the thread and the ring. */
  lemma MoveBalancesUnits(m: Shared, pc: Pc, t: nat, c: Choice)
    requires MayMove(m, pc, c) && Local(m, pc)
    ensures var (pc', m') := Move(m, pc, t, c);
            m'.alloc + m.sent + Unsent(pc) == m.alloc + m'.sent + Unsent(pc')
  {
  }

  lemma MoveKeepsLocal(m: Shared, pc: Pc, t: nat, c: Choice)
    requires MayMove(m, pc, c) && Local(m, pc)
    ensures var (pc', m') := Move(m, pc, t, c); Local(m', pc')
  {
    MoveBalancesUnits(m, pc, t, c);
  }

  /** The mutex changes hands only through the thread that takes or drops it,
      and only its holder touches what another holder would rely on. */
  lemma MoveRespectsMutex(m: Shared, pc: Pc, t: nat, c: Choice)
    requires MayMove(m, pc, c) && (HoldsMutex(pc) <==> m.owner == t)
    ensures var (pc', m') := Move(m, pc, t, c);
            && (HoldsMutex(pc') <==> m'.owner == t)
            && (m.owner != t && m.owner != -1 ==> m'.owner == m.owner && m'.todo == m.todo && m'.sent >= m.sent)
            && (m'.owner == m.owner || (m.owner == -1 && m'.owner == t) || (m.owner == t && m'.owner == -1))
  {
  }

  lemma StepKeepsMutex(s: State, t: nat, c: Choice)
    requires MutexLaw(s) && Enabled(s, t, c)
    ensures MutexLaw(Step(s, t, c))
  {
    MoveRespectsMutex(s.m, s.threads[t], t, c);
  }

  lemma StepKeepsSums(s: State, t: nat, c: Choice)
    requires TokenLaw(s) && RingLaw(s) && Enabled(s, t, c) && Local(s.m, s.threads[t])
    ensures TokenLaw(Step(s, t, c)) && RingLaw(Step(s, t, c))
  {
    MoveBalances(s.m, s.threads[t], t, c);
    MoveBalancesUnits(s.m, s.threads[t], t, c);
    SumUpdate(s.threads, t, Step(s, t, c).threads[t], Owed);
    SumUpdate(s.threads, t, Step(s, t, c).threads[t], Unsent);
  }

  /** What the thread left alone still holds in the new shared state. */
  lemma OtherKeepsLocal(m: Shared, m': Shared, pc: Pc)
    requires Local(m, pc) && (m'.allowed ==> m'.todo > 0) && m'.alloc >= m'.sent + Unsent(pc)
    requires HoldsMutex(pc) ==> m'.todo == m.todo && m'.sent >= m.sent
    ensures Local(m', pc)
  {
  }

  lemma StepKeeps(s: State, t: nat, c: Choice)
    requires Inv(s) && Enabled(s, t, c)
    ensures Inv(Step(s, t, c))
  {
    var n := Step(s, t, c);
    StepKeepsMutex(s, t, c);
    StepKeepsSums(s, t, c);
    assert Local(s.m, s.threads[t]) && (HoldsMutex(s.threads[t]) <==> s.m.owner == t);
    MoveKeepsLocal(s.m, s.threads[t], t, c);
    MoveRespectsMutex(s.m, s.threads[t], t, c);
    forall u | 0 <= u < |n.threads| && u != t ensures Local(n.m, n.threads[u]) {
      var pc := s.threads[u];
      assert n.threads[u] == pc && Local(s.m, pc) && (HoldsMutex(pc) <==> s.m.owner == u);
      SumUpdate(n.threads, u, Idle, Unsent);
      OtherKeepsLocal(s.m, n.m, pc);
    }
  }

  lemma {:induction false} RunKeeps(s: State, schedule: seq<(nat, Choice)>, t: State)
    requires Inv(s) && Run(s, schedule, t)
    ensures Inv(t)
    decreases schedule
  {
    if schedule != [] {
      StepKeeps(s, schedule[0].0, schedule[0].1);
      RunKeeps(Step(s, schedule[0].0, schedule[0].1), schedule[1..], t);
    }
  }

  lemma {:induction false} SumOfIdle(n: nat, weight: Pc -> nat)
    requires weight(Idle) == 0
    ensures Sum(seq(n, _ => Idle), weight) == 0
  {
    if n > 0 {
      assert seq(n, _ => Idle)[1..] == seq(n - 1, _ => Idle);
      SumOfIdle(n - 1, weight);
    }
  }

  lemma EverySchedule(threads: nat, capacity: nat, schedule: seq<(nat, Choice)>, s: State)
    requires Run(Init(threads, capacity), schedule, s)
    ensures Inv(s)
  {
    SumOfIdle(threads, Owed);
    SumOfIdle(threads, Unsent);
    RunKeeps(Init(threads, capacity), schedule, s);
  }

  // ----- what every interleaving guarantees -----

  /** Tokens are conserved; refusals by the driver are the only leak. */
  lemma TokensAreConserved(threads: nat, capacity: nat, schedule: seq<(nat, Choice)>, s: State)
    requires Run(Init(threads, capacity), schedule, s)
    ensures s.m.sem + Sum(s.threads, Owed) + (if s.m.todo > 0 then 1 else 0) == 1 + s.m.refusals
  {
    EverySchedule(threads, capacity, schedule, s);
  }

  /** Without a refusal, an enqueuer past sem_trywait is alone, sees
      `recycle_todo == 0` and finds no other unit half way to the driver. */
  lemma EnqueuerIsAlone(threads: nat, capacity: nat, schedule: seq<(nat, Choice)>, s: State, t: nat)
    requires Run(Init(threads, capacity), schedule, s) && s.m.refusals == 0
    requires t < |s.threads| && (s.threads[t].EnqEntered? || s.threads[t].EnqAlloced? || s.threads[t].EnqSent?)
    ensures s.m.todo == 0 && s.m.sem == 0
    ensures forall u :: 0 <= u < |s.threads| && u != t ==> Owed(s.threads[u]) == 0
  {
    EverySchedule(threads, capacity, schedule, s);
    SumUpdate(s.threads, t, Idle, Owed);
    forall u | 0 <= u < |s.threads| && u != t ensures Owed(s.threads[u]) == 0 {
      SumOfTwo(s.threads, t, u, Owed);
    }
  }

  /** Without a refusal, the count a suspend adds to `recycle_todo` is exactly
      the number of units whose frame has been sent: no enqueue is half done. */
  lemma SuspendCountsSentUnits(threads: nat, capacity: nat, schedule: seq<(nat, Choice)>, s: State, t: nat)
    requires Run(Init(threads, capacity), schedule, s) && s.m.refusals == 0
    requires t < |s.threads| && s.threads[t].DeqCount?
    ensures Step(s, t, Go).m.todo == s.m.todo + s.m.sent
  {
    EverySchedule(threads, capacity, schedule, s);
    assert Local(s.m, s.threads[t]);
    assert HoldsMutex(s.threads[t]) <==> s.m.owner == t;
    SumUpdate(s.threads, t, Idle, Unsent);
    var others := s.threads[t := Idle];
    forall u | 0 <= u < |others| ensures Unsent(others[u]) <= Owed(others[u]) {
      assert HoldsMutex(s.threads[u]) <==> s.m.owner == u;
    }
    SumDominated(others, Unsent, Owed);
    SumUpdate(s.threads, t, Idle, Owed);
  }

  /** Steps a token owner outside the mutex still needs before its next post. */
  function PostDistance(pc: Pc): nat {
    match pc
    case EnqEntered => 3
    case EnqAlloced => 2
    case EnqFailedPosted => 2
    case _ => 1
  }

  lemma TokenHolderMoves(m: Shared, pc: Pc, t: nat, c: Choice)
    requires Local(m, pc) && Owed(pc) > 0 && MayMove(m, pc, c)
    ensures var (pc', m') := Move(m, pc, t, c);
            || m'.sem == m.sem + 1
            || m'.todo > 0
            || (Owed(pc') > 0 && PostDistance(pc') < PostDistance(pc))
  {
  }

  /** A token is never held by a thread that waits for the mutex, and its holder
      is never blocked: each of its steps posts, enters recycle mode, or comes
      closer to a post. */
  lemma TokenHolderProgresses(s: State, t: nat)
    requires Inv(s) && t < |s.threads| && Owed(s.threads[t]) > 0
    ensures !WaitsForMutex(s.threads[t])
    ensures exists c :: Enabled(s, t, c)
    ensures forall c :: Enabled(s, t, c) ==>
              var n := Step(s, t, c);
              || n.m.sem == s.m.sem + 1
              || n.m.todo > 0
              || (Owed(n.threads[t]) > 0 && PostDistance(n.threads[t]) < PostDistance(s.threads[t]))
  {
    assert Enabled(s, t, Go) || Enabled(s, t, DriverAccepts);
    assert Local(s.m, s.threads[t]);
    forall c | Enabled(s, t, c)
      ensures var n := Step(s, t, c);
              || n.m.sem == s.m.sem + 1
              || n.m.todo > 0
              || (Owed(n.threads[t]) > 0 && PostDistance(n.threads[t]) < PostDistance(s.threads[t]))
    {
      TokenHolderMoves(s.m, s.threads[t], t, c);
    }
  }

  /** A dequeuer blocked in sem_wait, mutex in hand, is always matched by an
      enqueuer that owes a post and needs no mutex to make it. */
  lemma BlockedDequeuerIsReleased(s: State, t: nat) returns (e: nat)
    requires Inv(s) && t < |s.threads| && s.threads[t].DeqWaitSem? && s.m.sem == 0
    ensures e < |s.threads| && e != t && Owed(s.threads[e]) > 0 && !HoldsMutex(s.threads[e])
    ensures exists c :: Enabled(s, e, c)
  {
    assert Local(s.m, s.threads[t]);
    e := SumWitness(s.threads, Owed);
    assert HoldsMutex(s.threads[e]) <==> s.m.owner == e;
    assert HoldsMutex(s.threads[t]) <==> s.m.owner == t;
    TokenHolderProgresses(s, e);
  }

  /** No interleaving deadlocks, refusals included: while a call is under way,
      some thread inside a call can move. */
  lemma NoDeadlock(threads: nat, capacity: nat, schedule: seq<(nat, Choice)>, s: State, busy: nat) returns (t: nat)
    requires Run(Init(threads, capacity), schedule, s)
    requires busy < |s.threads| && !s.threads[busy].Idle?
    ensures t < |s.threads| && !s.threads[t].Idle? && exists c :: Enabled(s, t, c)
  {
    EverySchedule(threads, capacity, schedule, s);
    t := if s.m.owner == -1 then busy else s.m.owner;
    assert HoldsMutex(s.threads[t]) <==> s.m.owner == t;
    if s.threads[t].DeqWaitSem? && s.m.sem == 0 {
      t := BlockedDequeuerIsReleased(s, t);
    } else {
      assert Enabled(s, t, Go) || Enabled(s, t, DriverAccepts);
    }
  }

  // ----- a refused frame and a suspended one -----

  /** No refusal is added from here on. */
  ghost predicate Leads(s: State, schedule: seq<(nat, Choice)>, t: State) {
    Run(s, schedule, t) && t.m.refusals == s.m.refusals
  }

  lemma {:induction false} RunConcat(s: State, a: seq<(nat, Choice)>, m: State, b: seq<(nat, Choice)>, t: State)
    requires Run(s, a, m) && Run(m, b, t)
    ensures Run(s, a + b, t)
    decreases a
  {
    if a == [] {
      assert a + b == b;
    } else {
      assert (a + b)[1..] == a[1..] + b;
      RunConcat(Step(s, a[0].0, a[0].1), a[1..], m, b, t);
    }
  }

  lemma {:induction false} RunExtends(s: State, schedule: seq<(nat, Choice)>, m: State, t: nat, c: Choice)
    requires Run(s, schedule, m) && Enabled(m, t, c)
    ensures Run(s, schedule + [(t, c)], Step(m, t, c))
    decreases schedule
  {
    if schedule == [] {
      assert (schedule + [(t, c)])[1..] == [];
    } else {
      assert (schedule + [(t, c)])[1..] == schedule[1..] + [(t, c)];
      RunExtends(Step(s, schedule[0].0, schedule[0].1), schedule[1..], m, t, c);
    }
  }

  /** Steps a call still needs when it is hurried to its end. */
  function Remaining(pc: Pc): nat {
    match pc
    case Idle => 0
    case EnqWaitLock => 2
    case EnqReport => 1
    case EnqEntered => 4
    case EnqFull => 1
    case EnqAlloced => 3
    case EnqSent => 2
    case EnqPosted => 1
    case EnqFailed => 3
    case EnqFailedPosted => 2
    case EnqFailedUndone => 1
    case DeqLoop => 2
    case DeqWaitSem => 5
    case DeqCount(_) => 4
    case DeqPost => 4
    case DeqFree => 3
    case RecLocked => 5
    case RecAlloced => 4
    case RecSent => 3
    case RecPost => 2
    case DisWaitLock => 4
    case DisLocked => 3
    case DisPost => 2
    case AckWaitLock => 3
    case AckLocked => 2
    case Unlocking => 1
  }

  /** The choice that hurries a thread on. */
  function Hurry(pc: Pc): Choice {
    if pc.EnqAlloced? || pc.RecAlloced? then DriverAccepts else Go
  }

  lemma HurryAdvances(m: Shared, pc: Pc, t: nat)
    requires !pc.Idle? && MayMove(m, pc, Hurry(pc))
    ensures var (pc', m') := Move(m, pc, t, Hurry(pc));
            Remaining(pc') < Remaining(pc) && m'.refusals == m.refusals && m'.capacity == m.capacity
  {
  }

  /** Some thread inside a call can be hurried on. */
  lemma SomeoneCanHurry(s: State, busy: nat) returns (t: nat)
    requires Inv(s) && busy < |s.threads| && !s.threads[busy].Idle?
    ensures t < |s.threads| && !s.threads[t].Idle? && Enabled(s, t, Hurry(s.threads[t]))
  {
    t := if s.m.owner == -1 then busy else s.m.owner;
    assert HoldsMutex(s.threads[t]) <==> s.m.owner == t;
    if s.threads[t].DeqWaitSem? && s.m.sem == 0 {
      t := BlockedDequeuerIsReleased(s, t);
    }
  }

  predicate Quiet(s: State) {
    forall t :: 0 <= t < |s.threads| ==> s.threads[t].Idle?
  }

  /** Every call under way can be brought to its end without a refusal. */
  lemma {:induction false} CallsCanFinish(s: State) returns (schedule: seq<(nat, Choice)>, q: State)
    requires Inv(s)
    ensures Leads(s, schedule, q) && Inv(q) && Quiet(q)
    ensures |q.threads| == |s.threads| && q.m.capacity == s.m.capacity
    decreases Sum(s.threads, Remaining)
  {
    if Quiet(s) {
      schedule, q := [], s;
    } else {
      var busy :| 0 <= busy < |s.threads| && !s.threads[busy].Idle?;
      var t := SomeoneCanHurry(s, busy);
      var c := Hurry(s.threads[t]);
      var n := Step(s, t, c);
      HurryAdvances(s.m, s.threads[t], t);
      SumUpdate(s.threads, t, n.threads[t], Remaining);
      StepKeeps(s, t, c);
      schedule, q := CallsCanFinish(n);
      schedule := [(t, c)] + schedule;
    }
  }

  lemma {:induction false} QuietSum(threads: seq<Pc>, weight: Pc -> nat)
    requires weight(Idle) == 0 && forall t :: 0 <= t < |threads| ==> threads[t].Idle?
    ensures Sum(threads, weight) == 0
  {
    if threads != [] { QuietSum(threads[1..], weight); }
  }

  lemma QuietFacts(s: State)
    requires Inv(s) && Quiet(s)
    ensures s.m.sem + RecycleMode(s.m) == 1 + s.m.refusals && s.m.owner == -1 && s.m.alloc == s.m.sent
  {
    QuietSum(s.threads, Owed);
    QuietSum(s.threads, Unsent);
    var holder := if s.m.owner == -1 then 0 else s.m.owner;
    assert 0 <= holder < |s.threads| ==>
        s.threads[holder].Idle? && (HoldsMutex(s.threads[holder]) <==> s.m.owner == holder);
  }

  /** `q` with its first thread at `pc`. */
  function First(q: State, pc: Pc, m: Shared): State
    requires |q.threads| > 0
  {
    State(q.threads[0 := pc], m)
  }

  lemma FirstStep(s: State, schedule: seq<(nat, Choice)>, q: State, pc: Pc, m: Shared, c: Choice)
    returns (longer: seq<(nat, Choice)>)
    requires |q.threads| > 0 && Run(s, schedule, First(q, pc, m)) && MayMove(m, pc, c)
    ensures var (pc', m') := Move(m, pc, 0, c); Run(s, longer, First(q, pc', m'))
  {
    RunExtends(s, schedule, First(q, pc, m), 0, c);
    longer := schedule + [(0, c)];
    assert Step(First(q, pc, m), 0, c) == First(q, Move(m, pc, 0, c).0, Move(m, pc, 0, c).1);
  }

  /** An idle thread enqueues one op. */
  lemma EnqueueOne(s: State, before: seq<(nat, Choice)>, q: State, m: Shared) returns (schedule: seq<(nat, Choice)>)
    requires |q.threads| > 0 && Run(s, before, First(q, Idle, m)) && m.sem > 0 && m.alloc < m.capacity
    ensures Run(s, schedule, First(q, Idle, m.(alloc := m.alloc + 1, sent := m.sent + 1)))
  {
    var inside := m.(sem := m.sem - 1);
    schedule := FirstStep(s, before, q, Idle, m, CallEnqueue);
    schedule := FirstStep(s, schedule, q, EnqEntered, inside, Go);
    schedule := FirstStep(s, schedule, q, EnqAlloced, inside.(alloc := m.alloc + 1), DriverAccepts);
    var sent := inside.(alloc := m.alloc + 1, sent := m.sent + 1);
    schedule := FirstStep(s, schedule, q, EnqSent, sent, Go);
    schedule := FirstStep(s, schedule, q, EnqPosted, Post(sent), Go);
  }

  /** An idle thread dequeues a suspended op and enters recycle mode. */
  lemma SuspendOne(s: State, before: seq<(nat, Choice)>, q: State, m: Shared)
      returns (schedule: seq<(nat, Choice)>, n: Shared)
    requires |q.threads| > 0 && Run(s, before, First(q, Idle, m))
    requires m.sem >= 2 && m.owner == -1 && m.todo == 0 && m.sent > 0 && m.alloc > 0
    ensures Run(s, schedule, First(q, Idle, n)) && n.todo > 0 && n.sem > 0 && n.refusals == m.refusals
  {
    var locked := m.(owner := 0);
    schedule := FirstStep(s, before, q, Idle, m, CallDequeue);
    schedule := FirstStep(s, schedule, q, DeqLoop, locked, HeadSuspended);
    schedule := FirstStep(s, schedule, q, DeqWaitSem, locked, Go);
    var taken := locked.(sem := m.sem - 1);
    schedule := FirstStep(s, schedule, q, DeqCount(true), taken, Go);
    n := taken.(allowed := false, todo := m.alloc);
    schedule, n := LeaveDequeue(s, schedule, q, n);
  }

  lemma LeaveDequeue(s: State, before: seq<(nat, Choice)>, q: State, m: Shared)
      returns (schedule: seq<(nat, Choice)>, n: Shared)
    requires |q.threads| > 0 && Run(s, before, First(q, DeqFree, m))
    ensures Run(s, schedule, First(q, Idle, n)) && n.todo == m.todo && n.sem == m.sem && n.refusals == m.refusals
  {
    schedule := FirstStep(s, before, q, DeqFree, m, Go);
    n := m.(alloc := Less(m.alloc), sent := Less(m.sent));
    schedule := FirstStep(s, schedule, q, DeqLoop, n, Go);
    schedule := FirstStep(s, schedule, q, Unlocking, n, Go);
    n := n.(owner := -1);
  }

  /** After a refusal, without any further one, an enqueuer gets in while
      `recycle_todo` is above 0, if the hardware suspends the next frame that is
      handed back. Heads are free choices here; when the hardware may do so is
      the subject of `DceRuns.RefusalTripsTheAssertionIff`. */
  lemma SuspendLetsEnqueuerIn(threads: nat, capacity: nat, before: seq<(nat, Choice)>, s: State)
    returns (schedule: seq<(nat, Choice)>, t: State)
    requires Run(Init(threads, capacity), before, s) && s.m.refusals > 0
    requires threads > 0 && capacity > 0
    ensures Leads(s, schedule, t)
    ensures |t.threads| > 0 && t.threads[0].EnqEntered? && t.m.todo > 0
  {
    EverySchedule(threads, capacity, before, s);
    SizesAreFixed(Init(threads, capacity), before, s);
    var q;
    schedule, q := CallsCanFinish(s);
    QuietFacts(q);
    assert q.threads[0 := Idle] == q.threads;
    var m := q.m;
    if m.todo == 0 {
      if m.sent == 0 {
        schedule := EnqueueOne(s, schedule, q, m);
        m := m.(alloc := m.alloc + 1, sent := m.sent + 1);
      }
      schedule, m := SuspendOne(s, schedule, q, m);
    }
    schedule := FirstStep(s, schedule, q, Idle, m, CallEnqueue);
    t := First(q, EnqEntered, m.(sem := m.sem - 1));
  }

  lemma {:induction false} SizesAreFixed(s: State, schedule: seq<(nat, Choice)>, t: State)
    requires Run(s, schedule, t)
    ensures |t.threads| == |s.threads| && t.m.capacity == s.m.capacity
    decreases schedule
  {
    if schedule != [] {
      var (thread, c) := schedule[0];
      SizesAreFixed(Step(s, thread, c), schedule[1..], t);
    }
  }

  /** One refused frame is enough, with any number of threads and any capacity. */
  lemma RefusalBreaksTheAssertion(threads: nat, capacity: nat) returns (schedule: seq<(nat, Choice)>, t: State)
    requires threads > 0 && capacity > 0
    ensures Run(Init(threads, capacity), schedule, t) && t.m.refusals == 1
    ensures |t.threads| > 0 && t.threads[0].EnqEntered? && t.m.todo > 0
  {
    var s := Init(threads, capacity);
    assert First(s, Idle, s.m) == s;
    schedule := FirstStep(s, [], s, Idle, s.m, CallEnqueue);
    var m := s.m.(sem := 0);
    schedule := FirstStep(s, schedule, s, EnqEntered, m, Go);
    schedule := FirstStep(s, schedule, s, EnqAlloced, m.(alloc := 1), DriverRefuses);
    var refused := First(s, EnqFailed, m.(alloc := 1, refusals := 1));
    var more;
    more, t := SuspendLetsEnqueuerIn(threads, capacity, schedule, refused);
    RunConcat(s, schedule, refused, more, t);
    schedule := schedule + more;
  }
}
