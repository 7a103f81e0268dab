/**
  The interleavings of `DceThreads`, with the data in them: the ring of work
  units, the flags, what the hardware has answered, and the log.

  Beside the shared memory runs a session of `DceSession`, `a`, which takes one
  whole step at one instant of each call: when the driver takes a frame, when the
  dequeuer has accounted for an op, when an op is discarded or a suspend
  acknowledged. It is proved that each of these is a legal step, and how the
  memory relates to `a` at every instant.
 */
module DceLinear {
  import opened DceSession
  import DceRuns
  import Th = DceThreads

  /** What a thread keeps to itself: its op, the bits it took for the frame, the
      number of its work unit; whether it aborts the stream or continues it; how
      many ops it wants to dequeue and how many it has. */
  datatype Local = Local(op: Op, rec: bool, ini: bool, slot: nat, aborts: bool, max: nat, count: nat)

  /** Memory; unit `k` of the ring has number `base + k`. */
  datatype Data = Data(
    ring: seq<Unit>, base: nat, answers: seq<Reply>, hwSuspended: bool,
    recycle: bool, streamEnd: bool, inFlight: nat, log: seq<Event>)

  datatype Whole = Whole(threads: seq<Th.Pc>, locals: seq<Local>, m: Th.Shared, x: Data, a: State)

  function Threads(w: Whole): Th.State { Th.State(w.threads, w.m) }

  const NO_OP := Op(Fd(0, 0), Fd(0, 0), NoFlush, 0)

  function Start(threads: nat, capacity: nat): Whole {
    var s := Th.Init(threads, capacity);
    Whole(s.threads, seq(threads, _ => Local(NO_OP, false, false, 0, false, 0, 0)), s.m,
          Data([], 0, [], false, false, true, 0, []), Init(capacity))
  }

  // ----- steps -----

  datatype Move =
    | Thread(t: nat, c: Th.Choice, op: Op, aborts: bool, max: nat)
    | Answers(r: Reply)
    | CallsBack(k: nat)

  predicate HeadFinished(x: Data) { x.ring != [] && x.ring[0].state.Done? }

  /** The choice of the dequeuer is what the head says: it goes on while it wants
      more and the head is DONE. */
  predicate HeadSays(x: Data, l: Local, c: Th.Choice) {
    match c
    case Go => l.count >= l.max || !HeadFinished(x)
    case _ => l.count < l.max && HeadHas(x, c)
  }

  predicate HeadHas(x: Data, c: Th.Choice) {
    match c
    case HeadProcessed => HeadIs(x, Processed) || HeadIs(x, Skip)
    case HeadSuspended => HeadIs(x, Suspend)
    case HeadTerminal => HeadIs(x, Terminal)
    case _ => true
  }

  predicate HeadIs(x: Data, cls: StatusClass) {
    HeadFinished(x) && Classify(x.ring[0].reply.status) == cls
  }

  predicate Enabled(w: Whole, v: Move) {
    match v
    case Thread(t, c, _, _, _) =>
      && t < |w.locals| && Th.Enabled(Threads(w), t, c) && !c.DriverRefuses?
      && (w.threads[t].DeqLoop? ==> HeadSays(w.x, w.locals[t], c))
    case Answers(r) =>
      // the hardware knows the frames that were sent
      && |w.x.answers| < w.m.sent <= |w.x.ring|
      && Accepts(w.x.hwSuspended, w.x.ring[|w.x.answers|].recycle, r)
    case CallsBack(k) =>
      // a callback comes after the TODO mark
      k < |w.x.answers| <= |w.x.ring| && w.x.ring[k].state.Todo? && w.x.inFlight > 0
  }

  /** The tail unit, filled but not marked. */
  function Filled(x: Data, op: Op): Unit {
    FilledUnit(op, x.recycle, x.streamEnd).(state := Free)
  }

  function Fill(x: Data, op: Op): Data {
    x.(ring := x.ring + [Filled(x, op)], recycle := false, streamEnd := op.flush.Finish?)
  }

  function Mark(x: Data, slot: nat, state: UnitState): Data {
    if x.base <= slot < x.base + |x.ring|
    then x.(ring := x.ring[slot - x.base := x.ring[slot - x.base].(state := state)])
    else x
  }

  /** The part of the dequeuer: the head is marked FREE when it is looked at, and
      leaves the ring at the end. */
  function Pop(x: Data): Data {
    if x.ring == [] || x.answers == [] then x
    else x.(ring := x.ring[1..], answers := x.answers[1..], base := x.base + 1)
  }

  /** What a thread does to memory and to its locals. The log says what it put on
      the wire and what it handed back, as memory has it. */
  function Effect(pc: Th.Pc, c: Th.Choice, m: Th.Shared, x: Data, l: Local, op: Op, aborts: bool, max: nat)
    : (Data, Local)
  {
    match pc
    case Idle => (x, l.(op := op, aborts := aborts, max := max, count := 0))
    case EnqEntered => if m.alloc >= m.capacity then (x, l) else FillsTail(x, l)
    case EnqAlloced => Sends(x, l, false)
    case EnqPosted => (Mark(x, l.slot, Todo), l)
    case DeqLoop => (Looks(x, c), l)
    case DeqCount(_) => (HandsOut(x, x), l)
    case DeqFree => (Pop(x), l.(count := l.count + 1))
    case RecLocked => if !m.allowed || m.alloc >= m.capacity then (x, l) else FillsTail(x, l)
    case RecAlloced => Sends(x, l, true)
    case RecSent => (Mark(x, l.slot, Todo), l)
    case DisLocked => (if !m.allowed then x else x.(log := x.log + [Discarded]), l)
    case AckLocked =>
      (if m.todo == 0 || m.allowed then x
       else x.(recycle := true, streamEnd := l.aborts, log := x.log + [if l.aborts then Aborted else Continued]), l)
    case _ => (x, l)
  }

  function FillsTail(x: Data, l: Local): (Data, Local) {
    (Fill(x, l.op), l.(rec := x.recycle, ini := x.streamEnd))
  }

  /** The driver takes the frame of the tail unit. */
  function Sends(x: Data, l: Local, viaRecycle: bool): (Data, Local) {
    (x.(inFlight := x.inFlight + 1, log := x.log + [Sent(l.op, l.rec, l.ini, viaRecycle)]),
     l.(slot := if |x.ring| > 0 then x.base + |x.ring| - 1 else 0))
  }

  /** The op at the head of `x` goes to the client. */
  function HandsOut(x: Data, y: Data): Data {
    if x.ring == [] then y else y.(log := y.log + [Returned(OpOf(x.ring[0]), RxOf(x.ring[0]))])
  }

  function Looks(x: Data, c: Th.Choice): Data {
    var y := Mark(x, x.base, Free);
    match c
    case HeadProcessed => HandsOut(x, y)
    case HeadSuspended => y
    case HeadTerminal => HandsOut(x, y)
    case _ => x
  }

  /** The session's dequeue at this instant. */
  function Dequeued(a: State): State {
    if HeadDone(a) && Unblocked(a) then DequeueOne(a) else a
  }

  /** The step of the session beside it. */
  function Shadow(pc: Th.Pc, c: Th.Choice, m: Th.Shared, l: Local, a: State): State {
    match pc
    case EnqAlloced => Enqueue(a, l.op).0
    case DeqLoop => if c.HeadProcessed? || c.HeadTerminal? then Dequeued(a) else a
    case DeqCount(_) => Dequeued(a)
    case RecAlloced => Recycle(a, l.op).0
    case DisLocked => if !m.allowed then a else Discard(a).0
    case AckLocked => if m.todo == 0 || m.allowed then a else if l.aborts then Abort(a) else Continue(a)
    case _ => a
  }

  /** The position in `a` of unit `k`: the head is gone from `a` once it has been
      accounted for, although it is still in the ring. */
  function Popped(pc: Th.Pc): nat { if pc.DeqFree? || pc.DeqPost? then 1 else 0 }

  function P(w: Whole): nat { Th.Sum(w.threads, Popped) }

  function WithAnswer(x: Data, r: Reply): Data {
    x.(answers := x.answers + [r],
       hwSuspended := NextSuspended(x.hwSuspended, r.status),
       log := x.log + [Answered(r)])
  }

  function Take(w: Whole, v: Move): Whole
    requires Enabled(w, v)
  {
    match v
    case Thread(t, c, op, aborts, max) =>
      var (x, l) := Effect(w.threads[t], c, w.m, w.x, w.locals[t], op, aborts, max);
      var s := Th.Step(Threads(w), t, c);
      Whole(s.threads, w.locals[t := l], s.m, x, Shadow(w.threads[t], c, w.m, w.locals[t], w.a))
    case Answers(r) => w.(x := WithAnswer(w.x, r), a := Answer(w.a, r))
    case CallsBack(k) =>
      var i := k - P(w);
      w.(x := w.x.(ring := w.x.ring[k := CompletedUnit(w.x.ring[k], w.x.answers[k])], inFlight := w.x.inFlight - 1),
         a := if i >= 0 && MayComplete(w.a, i) then Complete(w.a, i) else w.a)
  }

  predicate Run(w: Whole, moves: seq<Move>, v: Whole)
    decreases moves
  {
    if moves == [] then w == v
    else Enabled(w, moves[0]) && Run(Take(w, moves[0]), moves[1..], v)
  }

  // ----- memory and session -----

  /** Unit `r` in memory stands for unit `u` of the session: the same, or marked
      FREE because its TODO mark is due or the dequeuer has it in hand. */
  predicate Match(r: Unit, u: Unit) { r == u || r == u.(state := Free) }

  function Releasing(pc: Th.Pc): nat { if pc.RecSent? then 1 else 0 }

  function R(w: Whole): nat { Th.Sum(w.threads, Releasing) }
  function U(w: Whole): nat { Th.Sum(w.threads, Th.Unsent) }

  predicate Counts(m: Th.Shared, x: Data, a: State, p: nat) {
    && a.capacity == m.capacity && |x.ring| == m.alloc <= m.capacity && m.sent <= m.alloc
    && p <= m.sent && |a.ring| == m.sent - p
    && p <= |x.answers| && a.answers == x.answers[p..]
    && x.log == a.log && x.hwSuspended == a.hwSuspended && x.inFlight == a.inFlight
  }

  predicate RingOk(m: Th.Shared, x: Data, a: State, p: nat)
    requires Counts(m, x, a, p)
  {
    forall k :: p <= k < m.sent ==> Match(x.ring[k], a.ring[k - p])
  }

  /** The recycle fields; a recycler that has sent its frame has yet to take it
      off the account. */
  predicate FieldsOk(m: Th.Shared, a: State, r: nat) {
    && a.todo + r == m.todo
    && a.allowed == if r > 0 then m.todo > 1 else m.allowed
  }

  predicate FlagsOk(x: Data, a: State, u: nat) {
    u == 0 ==> x.recycle == a.recycle && x.streamEnd == a.streamEnd
  }

  /** What a thread knows. */
  predicate Knows(pc: Th.Pc, l: Local, m: Th.Shared, x: Data, a: State, p: nat)
    requires Counts(m, x, a, p)
  {
    && !pc.EnqFailed? && !pc.EnqFailedPosted? && !pc.EnqFailedUndone?
    && (pc.EnqAlloced? || pc.RecAlloced? ==> HoldsTail(l, x, a))
    && (pc.RecAlloced? ==> m.allowed)
    && (pc.DeqFree? || pc.DeqPost? ==> p == 1 && |x.ring| > 0 && x.ring[0].state.Free?)
    && (pc.EnqSent? || pc.EnqPosted? || pc.RecSent? ==> Unmarked(l, m, x, a, p))
    && (pc.DeqWaitSem? || pc.DeqCount? ==>
          p == 0 && HeadDone(a) && Classify(a.ring[0].reply.status).Suspend? && x.ring[0].state.Free?)
  }

  predicate HoldsTail(l: Local, x: Data, a: State) {
    && l.rec == a.recycle && l.ini == a.streamEnd
    && !x.recycle && x.streamEnd == l.op.flush.Finish?
    && |x.ring| > 0 && x.ring[|x.ring| - 1] == FilledUnit(l.op, l.rec, l.ini).(state := Free)
  }

  predicate Unmarked(l: Local, m: Th.Shared, x: Data, a: State, p: nat)
    requires Counts(m, x, a, p)
  {
    && x.base + p <= l.slot < x.base + m.sent
    && x.ring[l.slot - x.base].state.Free? && a.ring[l.slot - x.base - p].state.Todo?
  }

  predicate Marks(pc: Th.Pc) { pc.EnqSent? || pc.EnqPosted? || pc.RecSent? }
  predicate Handles(pc: Th.Pc) { pc.DeqWaitSem? || pc.DeqCount? }

  ghost predicate Global(w: Whole) {
    && Inv(w.a) && Th.Inv(Threads(w)) && w.m.refusals == 0 && |w.locals| == |w.threads|
    && Counts(w.m, w.x, w.a, P(w)) && RingOk(w.m, w.x, w.a, P(w))
    && FieldsOk(w.m, w.a, R(w)) && FlagsOk(w.x, w.a, U(w))
  }

  ghost predicate Everyone(w: Whole)
    requires Global(w)
  {
    forall t :: 0 <= t < |w.threads| ==> Knows(w.threads[t], w.locals[t], w.m, w.x, w.a, P(w))
  }

  /** Two threads never have the same unit to mark. */
  ghost predicate Apart(w: Whole)
    requires |w.locals| == |w.threads|
  {
    forall t, u :: 0 <= t < u < |w.threads| && Marks(w.threads[t]) && Marks(w.threads[u]) ==>
        w.locals[t].slot != w.locals[u].slot
  }

  ghost predicate Linked(w: Whole) {
    Global(w) && Everyone(w) && Apart(w)
  }

  // ----- who can be where at the same time -----

  lemma {:induction false} SumZero(threads: seq<Th.Pc>, weight: Th.Pc -> nat)
    requires forall u :: 0 <= u < |threads| ==> weight(threads[u]) == 0
    ensures Th.Sum(threads, weight) == 0
  {
    if threads != [] { SumZero(threads[1..], weight); }
  }

  /** Only thread `t` counts. */
  lemma SumSingle(threads: seq<Th.Pc>, t: nat, weight: Th.Pc -> nat)
    requires t < |threads| && weight(Th.Idle) == 0
    requires forall u :: 0 <= u < |threads| && u != t ==> weight(threads[u]) == 0
    ensures Th.Sum(threads, weight) == weight(threads[t])
  {
    Th.SumUpdate(threads, t, Th.Idle, weight);
    SumZero(threads[t := Th.Idle], weight);
  }

  /** The thread that holds the mutex. */
  lemma HolderFacts(w: Whole, t: nat)
    requires Th.Inv(Threads(w)) && t < |w.threads| && Th.HoldsMutex(w.threads[t])
    ensures w.m.owner == t && forall u :: 0 <= u < |w.threads| && u != t ==> !Th.HoldsMutex(w.threads[u])
    ensures P(w) == Popped(w.threads[t]) && R(w) == Releasing(w.threads[t])
  {
    assert Th.HoldsMutex(w.threads[t]) <==> w.m.owner == t;
    forall u | 0 <= u < |w.threads| && u != t ensures !Th.HoldsMutex(w.threads[u]) {
      assert Th.HoldsMutex(w.threads[u]) <==> w.m.owner == u;
    }
    SumSingle(w.threads, t, Popped);
    SumSingle(w.threads, t, Releasing);
  }

  predicate InCritical(pc: Th.Pc) { pc.EnqEntered? || pc.EnqAlloced? || pc.EnqSent? }

  /** Whoever owes a token is the only one, and nothing is to be recycled. */
  lemma OwnerOfTokenFacts(w: Whole, t: nat)
    requires Th.Inv(Threads(w)) && w.m.refusals == 0 && t < |w.threads| && Th.Owed(w.threads[t]) > 0
    ensures w.m.todo == 0 && w.m.sem == 0
    ensures forall u :: 0 <= u < |w.threads| && u != t ==> Th.Owed(w.threads[u]) == 0
  {
    Th.SumUpdate(w.threads, t, Th.Idle, Th.Owed);
    forall u | 0 <= u < |w.threads| && u != t ensures Th.Owed(w.threads[u]) == 0 {
      Th.SumOfTwo(w.threads, t, u, Th.Owed);
    }
  }

  lemma RecycleModeFacts(w: Whole)
    requires Th.Inv(Threads(w)) && w.m.refusals == 0 && w.m.todo > 0
    ensures forall u :: 0 <= u < |w.threads| ==> Th.Owed(w.threads[u]) == 0
  {
    forall u | 0 <= u < |w.threads| ensures Th.Owed(w.threads[u]) == 0 {
      Th.SumUpdate(w.threads, u, Th.Idle, Th.Owed);
    }
  }

  ghost predicate NoneFailed(w: Whole) {
    forall u :: 0 <= u < |w.threads| ==>
      !w.threads[u].EnqFailed? && !w.threads[u].EnqFailedPosted? && !w.threads[u].EnqFailedUndone?
  }

  /** An enqueuer in its critical section has the tail for itself. */
  lemma EnqueuerFacts(w: Whole, t: nat)
    requires Th.Inv(Threads(w)) && w.m.refusals == 0 && NoneFailed(w) && t < |w.threads| && InCritical(w.threads[t])
    ensures w.m.todo == 0 && U(w) == Th.Unsent(w.threads[t])
    ensures forall u :: 0 <= u < |w.threads| && u != t ==> Th.Unsent(w.threads[u]) == 0 && !w.threads[u].RecSent?
  {
    OwnerOfTokenFacts(w, t);
    forall u | 0 <= u < |w.threads| && u != t ensures Th.Unsent(w.threads[u]) == 0 && !w.threads[u].RecSent? {
      assert Th.Local(w.m, w.threads[u]) && Th.Owed(w.threads[u]) == 0;
    }
    SumSingle(w.threads, t, Th.Unsent);
  }

  /** In recycle mode only the holder of the mutex can have an unsent unit. */
  lemma RecyclerFacts(w: Whole, t: nat)
    requires Th.Inv(Threads(w)) && w.m.refusals == 0 && NoneFailed(w) && w.m.todo > 0
    requires t < |w.threads| && Th.HoldsMutex(w.threads[t])
    ensures U(w) == Th.Unsent(w.threads[t])
    ensures forall u :: 0 <= u < |w.threads| && u != t ==> Th.Unsent(w.threads[u]) == 0 && !InCritical(w.threads[u])
  {
    RecycleModeFacts(w);
    HolderFacts(w, t);
    forall u | 0 <= u < |w.threads| && u != t ensures Th.Unsent(w.threads[u]) == 0 && !InCritical(w.threads[u]) {
      assert Th.Owed(w.threads[u]) == 0 && !Th.HoldsMutex(w.threads[u]);
    }
    SumSingle(w.threads, t, Th.Unsent);
  }

  /** When the dequeuer counts, every unit of the ring has been sent. */
  lemma CounterFacts(w: Whole, t: nat)
    requires Th.Inv(Threads(w)) && w.m.refusals == 0 && NoneFailed(w) && t < |w.threads| && w.threads[t].DeqCount?
    ensures U(w) == 0
  {
    HolderFacts(w, t);
    assert Th.Local(w.m, w.threads[t]);
    if w.m.todo > 0 { RecycleModeFacts(w); } else { OwnerOfTokenFacts(w, t); }
    forall u | 0 <= u < |w.threads| ensures Th.Unsent(w.threads[u]) == 0 {
      assert u != t ==> Th.Owed(w.threads[u]) == 0 && !Th.HoldsMutex(w.threads[u]);
    }
    SumZero(w.threads, Th.Unsent);
  }

  lemma LinkedMeansNoneFailed(w: Whole)
    requires Linked(w)
    ensures NoneFailed(w)
  {
    forall u | 0 <= u < |w.threads|
      ensures !w.threads[u].EnqFailed? && !w.threads[u].EnqFailedPosted? && !w.threads[u].EnqFailedUndone?
    {
      assert Knows(w.threads[u], w.locals[u], w.m, w.x, w.a, P(w));
    }
  }

  // ----- what a thread's step does, apart from the data -----

  function NextPc(w: Whole, t: nat, c: Th.Choice): Th.Pc
    requires Th.Enabled(Threads(w), t, c)
  {
    Th.Move(w.m, w.threads[t], t, c).0
  }

  lemma StepBasics(w: Whole, v: Move)
    requires Linked(w) && v.Thread? && Enabled(w, v)
    ensures var n := Take(w, v);
            var pc' := NextPc(w, v.t, v.c);
            && n.threads == w.threads[v.t := pc'] && n.m == Th.Move(w.m, w.threads[v.t], v.t, v.c).1
            && |n.locals| == |n.threads| == |w.threads| && Th.Inv(Threads(n)) && n.m.refusals == 0
            && n.m.capacity == w.m.capacity
            && P(n) + Popped(w.threads[v.t]) == P(w) + Popped(pc')
            && R(n) + Releasing(w.threads[v.t]) == R(w) + Releasing(pc')
            && U(n) + Th.Unsent(w.threads[v.t]) == U(w) + Th.Unsent(pc')
  {
    Th.StepKeeps(Threads(w), v.t, v.c);
    Th.SumUpdate(w.threads, v.t, NextPc(w, v.t, v.c), Popped);
    Th.SumUpdate(w.threads, v.t, NextPc(w, v.t, v.c), Releasing);
    Th.SumUpdate(w.threads, v.t, NextPc(w, v.t, v.c), Th.Unsent);
    LinkedMeansNoneFailed(w);
  }

  /** The others keep what they know if the memory they rely on is left alone. */
  ghost predicate OthersKnow(w: Whole, n: Whole, t: nat)
    requires |w.locals| == |w.threads| == |n.threads| == |n.locals| && Counts(n.m, n.x, n.a, P(n))
  {
    forall u :: 0 <= u < |w.threads| && u != t ==> Knows(w.threads[u], w.locals[u], n.m, n.x, n.a, P(n))
  }

  lemma Conclude(w: Whole, v: Move)
    requires Linked(w) && v.Thread? && Enabled(w, v) && Global(Take(w, v))
    requires OthersKnow(w, Take(w, v), v.t)
    requires var n := Take(w, v); Knows(n.threads[v.t], n.locals[v.t], n.m, n.x, n.a, P(n))
    requires var n := Take(w, v);
             Marks(n.threads[v.t]) ==> forall u :: 0 <= u < |w.threads| && u != v.t && Marks(w.threads[u]) ==>
                 w.locals[u].slot != n.locals[v.t].slot
    ensures Linked(Take(w, v))
  {
    StepBasics(w, v);
    var n := Take(w, v);
    forall u | 0 <= u < |n.threads| ensures Knows(n.threads[u], n.locals[u], n.m, n.x, n.a, P(n)) {
      if u != v.t { assert Knows(w.threads[u], w.locals[u], n.m, n.x, n.a, P(n)); }
    }
    forall u, u' | 0 <= u < u' < |n.threads| && Marks(n.threads[u]) && Marks(n.threads[u'])
      ensures n.locals[u].slot != n.locals[u'].slot
    {
      if u != v.t && u' != v.t { assert w.threads[u] == n.threads[u] && w.threads[u'] == n.threads[u']; }
    }
  }

  // ----- steps that touch no data -----

  predicate Plain(w: Whole, v: Move)
    requires Enabled(w, v)
  {
    && v.Thread? && Take(w, v).x == w.x && Take(w, v).a == w.a
    && !w.threads[v.t].EnqAlloced? && !w.threads[v.t].RecAlloced? && !w.threads[v.t].RecSent?
    && !w.threads[v.t].DeqFree? && !w.threads[v.t].DeqCount? && !w.threads[v.t].EnqPosted?
    && !NextPc(w, v.t, v.c).EnqAlloced? && !NextPc(w, v.t, v.c).RecAlloced?
    && (w.threads[v.t].DeqLoop? ==> !v.c.HeadProcessed? && !v.c.HeadSuspended? && !v.c.HeadTerminal?)
    && (w.threads[v.t].DisLocked? ==> !w.m.allowed)
    && (w.threads[v.t].AckLocked? ==> w.m.todo == 0 || w.m.allowed)
  }

  lemma PlainShared(w: Whole, v: Move)
    requires Linked(w) && Enabled(w, v) && Plain(w, v)
    ensures var n := Take(w, v);
            && n.m.alloc == w.m.alloc && n.m.sent == w.m.sent && n.m.todo == w.m.todo && n.m.allowed == w.m.allowed
            && P(n) == P(w) && R(n) == R(w) && U(n) == U(w)
  {
    StepBasics(w, v);
    assert Th.Local(w.m, w.threads[v.t]);
  }

  lemma PlainOther(pc: Th.Pc, l: Local, m: Th.Shared, n: Th.Shared, x: Data, a: State, p: nat)
    requires Counts(m, x, a, p) && Knows(pc, l, m, x, a, p) && Counts(n, x, a, p)
    requires n.sent == m.sent && n.allowed == m.allowed
    ensures Knows(pc, l, n, x, a, p)
  {
  }

  lemma PlainGlobal(w: Whole, v: Move)
    requires Linked(w) && Enabled(w, v) && Plain(w, v)
    ensures Global(Take(w, v))
  {
    StepBasics(w, v);
    PlainShared(w, v);
  }

  predicate Failing(pc: Th.Pc) { pc.EnqFailed? || pc.EnqFailedPosted? || pc.EnqFailedUndone? }

  /** Where a thread that touches no data can come to. */
  lemma PlainMove(m: Th.Shared, pc: Th.Pc, t: nat, c: Th.Choice)
    requires Th.MayMove(m, pc, c) && !Failing(pc)
    requires !pc.EnqAlloced? && !pc.RecAlloced? && !pc.DeqFree? && !pc.DeqCount?
    requires pc.DeqLoop? ==> !c.HeadProcessed? && !c.HeadSuspended? && !c.HeadTerminal?
    ensures var pc' := Th.Move(m, pc, t, c).0;
            && (Marks(pc') ==> pc.EnqSent?) && (Handles(pc') ==> Handles(pc)) && Popped(pc') == Popped(pc)
            && !Failing(pc')
  {
  }

  /** The thread itself knows what it knew. */
  lemma PlainSelf(w: Whole, v: Move)
    requires Linked(w) && Enabled(w, v) && Plain(w, v)
    ensures var pc' := NextPc(w, v.t, v.c);
            && (Marks(pc') ==> Marks(w.threads[v.t]) && Take(w, v).locals[v.t] == w.locals[v.t])
            && (Handles(pc') ==> Handles(w.threads[v.t]))
            && (Popped(pc') == Popped(w.threads[v.t])) && Th.Unsent(pc') == 0
            && !pc'.EnqFailed? && !pc'.EnqFailedPosted? && !pc'.EnqFailedUndone?
  {
    assert Knows(w.threads[v.t], w.locals[v.t], w.m, w.x, w.a, P(w));
    PlainMove(w.m, w.threads[v.t], v.t, v.c);
  }

  lemma PlainKnows(pc: Th.Pc, pc': Th.Pc, l: Local, l': Local, m: Th.Shared, x: Data, a: State, p: nat)
    requires Counts(m, x, a, p) && Knows(pc, l, m, x, a, p)
    requires (Marks(pc') ==> Marks(pc) && l' == l) && (Handles(pc') ==> Handles(pc)) && Popped(pc') == Popped(pc)
    requires Th.Unsent(pc') == 0 && !pc'.EnqFailed? && !pc'.EnqFailedPosted? && !pc'.EnqFailedUndone?
    ensures Knows(pc', l', m, x, a, p)
  {
  }

  lemma PlainKeeps(w: Whole, v: Move)
    requires Linked(w) && Enabled(w, v) && Plain(w, v)
    ensures Linked(Take(w, v)) && Take(w, v).a == w.a
  {
    StepBasics(w, v);
    PlainShared(w, v);
    PlainGlobal(w, v);
    PlainSelf(w, v);
    var n := Take(w, v);
    assert Knows(w.threads[v.t], w.locals[v.t], w.m, w.x, w.a, P(w));
    PlainOther(w.threads[v.t], w.locals[v.t], w.m, n.m, w.x, w.a, P(w));
    PlainKnows(w.threads[v.t], n.threads[v.t], w.locals[v.t], n.locals[v.t], n.m, n.x, n.a, P(n));
    forall u | 0 <= u < |w.threads| && u != v.t ensures Knows(w.threads[u], w.locals[u], n.m, n.x, n.a, P(n)) {
      assert Knows(w.threads[u], w.locals[u], w.m, w.x, w.a, P(w));
      PlainOther(w.threads[u], w.locals[u], w.m, n.m, w.x, w.a, P(w));
    }
    Conclude(w, v);
  }

  // ----- a unit is allocated and filled -----

  lemma FillData(m: Th.Shared, n: Th.Shared, x: Data, op: Op, a: State, p: nat)
    requires Counts(m, x, a, p) && RingOk(m, x, a, p) && m.alloc < m.capacity
    requires n.capacity == m.capacity && n.alloc == m.alloc + 1 && n.sent == m.sent
    ensures Counts(n, Fill(x, op), a, p) && RingOk(n, Fill(x, op), a, p)
  {
  }

  lemma FillOther(pc: Th.Pc, l: Local, m: Th.Shared, n: Th.Shared, x: Data, op: Op, a: State, p: nat)
    requires Counts(m, x, a, p) && Knows(pc, l, m, x, a, p) && Th.Unsent(pc) == 0
    requires Counts(n, Fill(x, op), a, p) && n.sent == m.sent
    ensures Knows(pc, l, n, Fill(x, op), a, p)
  {
  }

  predicate Fills(w: Whole, v: Move) {
    && v.Thread? && Enabled(w, v) && w.m.alloc < w.m.capacity
    && (w.threads[v.t].EnqEntered? || (w.threads[v.t].RecLocked? && w.m.allowed))
  }

  lemma FillTake(w: Whole, v: Move)
    requires Linked(w) && Fills(w, v)
    ensures var n, l := Take(w, v), w.locals[v.t];
            && n.x == Fill(w.x, l.op) && n.a == w.a && n.locals[v.t] == l.(rec := w.x.recycle, ini := w.x.streamEnd)
            && n.m.alloc == w.m.alloc + 1 && n.m.sent == w.m.sent && n.m.todo == w.m.todo && n.m.allowed == w.m.allowed
            && P(n) == P(w) && R(n) == R(w) && U(w) == 0 && U(n) == 1
            && (n.threads[v.t].EnqAlloced? || (n.threads[v.t].RecAlloced? && w.m.allowed))
    ensures forall u :: 0 <= u < |w.threads| && u != v.t ==> Th.Unsent(w.threads[u]) == 0
  {
    StepBasics(w, v);
    LinkedMeansNoneFailed(w);
    assert Th.Local(w.m, w.threads[v.t]);
    if w.threads[v.t].EnqEntered? { EnqueuerFacts(w, v.t); } else { RecyclerFacts(w, v.t); }
  }

  lemma FillKeeps(w: Whole, v: Move)
    requires Linked(w) && Fills(w, v)
    ensures Linked(Take(w, v)) && Take(w, v).a == w.a
  {
    StepBasics(w, v);
    FillTake(w, v);
    var n, l := Take(w, v), w.locals[v.t];
    FillData(w.m, n.m, w.x, l.op, w.a, P(w));
    forall u | 0 <= u < |w.threads| && u != v.t ensures Knows(w.threads[u], w.locals[u], n.m, n.x, n.a, P(n)) {
      assert Knows(w.threads[u], w.locals[u], w.m, w.x, w.a, P(w)) && Th.Unsent(w.threads[u]) == 0;
      FillOther(w.threads[u], w.locals[u], w.m, n.m, w.x, l.op, w.a, P(w));
    }
    Conclude(w, v);
  }

  // ----- the driver takes the frame -----

  /** The session gets the unit that is the tail of the ring. */
  predicate GetsTail(a: State, b: State, op: Op, via: bool) {
    && b.ring == a.ring + [FilledUnit(op, a.recycle, a.streamEnd)]
    && b.answers == a.answers && b.hwSuspended == a.hwSuspended && b.capacity == a.capacity
    && b.inFlight == a.inFlight + 1 && !b.recycle && b.streamEnd == op.flush.Finish?
    && b.log == a.log + [Sent(op, a.recycle, a.streamEnd, via)]
  }

  lemma SendData(m: Th.Shared, n: Th.Shared, x: Data, l: Local, a: State, b: State, via: bool, p: nat)
    requires Counts(m, x, a, p) && RingOk(m, x, a, p) && HoldsTail(l, x, a) && m.alloc == m.sent + 1
    requires n.capacity == m.capacity && n.alloc == m.alloc && n.sent == m.sent + 1
    requires GetsTail(a, b, l.op, via)
    ensures var (y, l') := Sends(x, l, via);
            Counts(n, y, b, p) && RingOk(n, y, b, p) && Unmarked(l', n, y, b, p) && l'.slot == x.base + m.sent
  {
  }

  lemma SendOther(pc: Th.Pc, l: Local, m: Th.Shared, n: Th.Shared, x: Data, y: Data, a: State, b: State,
                  op: Op, via: bool, p: nat)
    requires Counts(m, x, a, p) && Knows(pc, l, m, x, a, p) && Th.Unsent(pc) == 0 && Counts(n, y, b, p)
    requires n.sent == m.sent + 1 && y.ring == x.ring && y.base == x.base && GetsTail(a, b, op, via)
    ensures Knows(pc, l, n, y, b, p)
    ensures Marks(pc) ==> l.slot < x.base + m.sent
  {
  }

  /** The call that takes effect when the driver takes the frame. */
  function SendAction(w: Whole, t: nat): Action
    requires t < |w.threads| && t < |w.locals|
  {
    if w.threads[t].EnqAlloced? then EnqueueOp(w.locals[t].op) else RecycleOp(w.locals[t].op)
  }

  lemma SendTake(w: Whole, v: Move)
    requires Linked(w) && v.Thread? && Enabled(w, v)
    requires w.threads[v.t].EnqAlloced? || w.threads[v.t].RecAlloced?
    ensures var n := Take(w, v);
            var b := Step(w.a, SendAction(w, v.t));
            && (n.x, n.locals[v.t]) == Sends(w.x, w.locals[v.t], w.threads[v.t].RecAlloced?) && n.a == b
            && n.m.alloc == w.m.alloc && n.m.sent == w.m.sent + 1 && n.m.todo == w.m.todo && n.m.allowed == w.m.allowed
            && P(n) == P(w) && U(n) == 0
            && R(w) == 0 && R(n) == (if w.threads[v.t].EnqAlloced? then 0 else 1)
            && (n.threads[v.t].EnqSent? || n.threads[v.t].RecSent?)
    ensures forall u :: 0 <= u < |w.threads| && u != v.t ==> Th.Unsent(w.threads[u]) == 0
  {
    StepBasics(w, v);
    LinkedMeansNoneFailed(w);
    assert Th.Local(w.m, w.threads[v.t]);
    if w.threads[v.t].EnqAlloced? {
      EnqueuerFacts(w, v.t);
      SumZero(w.threads, Releasing);
    } else {
      RecyclerFacts(w, v.t);
      HolderFacts(w, v.t);
    }
  }

  lemma SendGlobal(w: Whole, v: Move)
    requires Linked(w) && v.Thread? && Enabled(w, v)
    requires w.threads[v.t].EnqAlloced? || w.threads[v.t].RecAlloced?
    ensures var n := Take(w, v);
            && Global(n) && Knows(n.threads[v.t], n.locals[v.t], n.m, n.x, n.a, P(n))
            && n.locals[v.t].slot == w.x.base + w.m.sent
  {
    StepBasics(w, v);
    SendTake(w, v);
    SendIsStep(w, v.t);
    var n := Take(w, v);
    assert Knows(w.threads[v.t], w.locals[v.t], w.m, w.x, w.a, P(w));
    DceRuns.StepKeeps(w.a, SendAction(w, v.t));
    SendData(w.m, n.m, w.x, w.locals[v.t], w.a, n.a, w.threads[v.t].RecAlloced?, P(w));
  }

  lemma SendKeeps(w: Whole, v: Move)
    requires Linked(w) && v.Thread? && Enabled(w, v)
    requires w.threads[v.t].EnqAlloced? || w.threads[v.t].RecAlloced?
    ensures Linked(Take(w, v)) && Take(w, v).a == Step(w.a, SendAction(w, v.t))
  {
    SendTake(w, v);
    SendIsStep(w, v.t);
    SendGlobal(w, v);
    var n := Take(w, v);
    forall u | 0 <= u < |w.threads| && u != v.t
      ensures Knows(w.threads[u], w.locals[u], n.m, n.x, n.a, P(n))
          && (Marks(w.threads[u]) ==> w.locals[u].slot != n.locals[v.t].slot)
    {
      assert Knows(w.threads[u], w.locals[u], w.m, w.x, w.a, P(w)) && Th.Unsent(w.threads[u]) == 0;
      SendOther(w.threads[u], w.locals[u], w.m, n.m, w.x, n.x, w.a, n.a, w.locals[v.t].op,
                w.threads[v.t].RecAlloced?, P(w));
    }
    Conclude(w, v);
  }

  /** The session accepts the op at this instant. */
  lemma SendIsStep(w: Whole, t: nat)
    requires Linked(w) && t < |w.threads| && (w.threads[t].EnqAlloced? || w.threads[t].RecAlloced?)
    ensures w.m.alloc == w.m.sent + 1
    ensures var op := w.locals[t].op;
            var b := if w.threads[t].EnqAlloced? then Enqueue(w.a, op).0 else Recycle(w.a, op).0;
            && GetsTail(w.a, b, op, w.threads[t].RecAlloced?)
            && b.todo + (if w.threads[t].EnqAlloced? then 0 else 1) == w.a.todo
            && b.allowed == if w.threads[t].EnqAlloced? then w.a.allowed else w.a.todo > 1
  {
    LinkedMeansNoneFailed(w);
    assert Th.Local(w.m, w.threads[t]) && Knows(w.threads[t], w.locals[t], w.m, w.x, w.a, P(w));
    if w.threads[t].EnqAlloced? {
      EnqueuerFacts(w, t);
    } else {
      RecyclerFacts(w, t);
      HolderFacts(w, t);
    }
  }
}
