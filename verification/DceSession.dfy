/**
  One stateful-recycle DCE session, one atomic step per API call, hardware
  answer or completion callback.

  `State` holds the session fields, the allocated window of the work-unit ring
  (oldest first), the hardware's view of the flow, and a log of everything that
  happened. The laws are stated against the log, never against the fields that
  the code itself maintains.
 */
module DceSession {
  import opened Errno

  datatype Flush = NoFlush | PartialFlush | SyncFlush | FullFlush | Finish | Block | Trees
  datatype Fd = Fd(addr: nat, len: nat)
  datatype Op = Op(input: Fd, output: Fd, flush: Flush, context: nat)

  /** What the hardware writes back: status and flush in the FRC, the length of
      the output frame, and the bytes-processed count in the SCF. */
  datatype Reply = Reply(status: nat, flush: Flush, outputLen: nat, consumed: nat)

  /** What the dequeuer hands to the client. */
  datatype Rx = Rx(input: Fd, output: Fd, flush: Flush, status: nat, consumed: nat, context: nat)

  const FULLY_PROCESSED := 0x00
  const STREAM_END := 0x01
  const SKIPPED := 0x30

  datatype StatusClass = Processed | Suspend | Skip | Terminal

  /** The four arms of the dequeue switch; every unlisted code, INPUT_STARVED
      included, takes the default arm. */
  function Classify(status: nat): StatusClass {
    if status == FULLY_PROCESSED || status == STREAM_END then Processed
    else if status in {0x11, 0x12, 0x14, 0x15, 0x16, 0x17} then Suspend
    else if status == SKIPPED then Skip
    else Terminal
  }

  datatype UnitState = Free | Todo | Done

  /** A work unit. `output.len` is overwritten by the hardware; `outputLength`
      is the software copy taken at enqueue. */
  datatype Unit = Unit(
    state: UnitState, input: Fd, output: Fd, flush: Flush, context: nat,
    outputLength: nat, recycle: bool, initial: bool, reply: Reply)

  const NO_REPLY := Reply(0, NoFlush, 0, 0)
  const ZERO_UNIT := Unit(Free, Fd(0, 0), Fd(0, 0), NoFlush, 0, 0, false, false, NO_REPLY)

  /** The op a unit was filled from. */
  function OpOf(u: Unit): Op {
    Op(u.input, Fd(u.output.addr, u.outputLength), u.flush, u.context)
  }

  datatype Event =
    | Sent(op: Op, recycleBit: bool, initialBit: bool, viaRecycle: bool)
    | Returned(op: Op, rx: Rx)
    | Discarded
    | Continued
    | Aborted
    | Answered(reply: Reply)

  datatype State = State(
    capacity: nat,
    ring: seq<Unit>,
    answers: seq<Reply>,     // hardware answers to the oldest |answers| units
    hwSuspended: bool,       // the flow as the hardware sees it after those answers
    sem: nat,
    todo: nat,               // recycle_todo
    allowed: bool,           // recycler_allowed
    recycle: bool,
    streamEnd: bool,         // state == STREAM_END
    inFlight: nat,           // flow.frames_in_flight
    log: seq<Event>)

  function Init(capacity: nat): State {
    State(capacity, [], [], false, 1, 0, false, false, true, 0, [])
  }

  // ----- hardware -----

  /** A suspended flow answers SKIPPED, and only SKIPPED, until it meets a frame
      with the recycle bit; a flow that is not suspended never answers SKIPPED. */
  predicate Accepts(suspended: bool, recycleBit: bool, reply: Reply) {
    Classify(reply.status).Skip? <==> (suspended && !recycleBit)
  }

  function NextSuspended(suspended: bool, status: nat): bool {
    match Classify(status)
    case Suspend => true
    case Skip => suspended
    case _ => false
  }

  // ----- API calls -----

  function FilledUnit(op: Op, recycleBit: bool, initialBit: bool): Unit {
    Unit(Todo, op.input, op.output, op.flush, op.context, op.output.len, recycleBit, initialBit, NO_REPLY)
  }

  /** The part shared by enqueue and recycle once a unit has been allocated. */
  function Send(s: State, op: Op, viaRecycle: bool): State {
    s.(ring := s.ring + [FilledUnit(op, s.recycle, s.streamEnd)],
       recycle := false,
       streamEnd := op.flush.Finish?,
       inFlight := s.inFlight + 1,
       log := s.log + [Sent(op, s.recycle, s.streamEnd, viaRecycle)])
  }

  function Enqueue(s: State, op: Op): (State, int) {
    if s.sem == 0 then (s, if s.todo > 0 then -EACCES else -EBUSY)
    else if |s.ring| >= s.capacity then (s, -ENOSPC)
    else (Send(s, op, false), 0)
  }

  /** One op leaves the recycle account; the last one gives the token back. */
  function Release(s: State): State
    requires s.todo > 0
  {
    s.(todo := s.todo - 1, allowed := s.todo > 1, sem := if s.todo == 1 then s.sem + 1 else s.sem)
  }

  function Recycle(s: State, op: Op): (State, int) {
    if !s.allowed || s.todo == 0 then (s, -EACCES)
    else if |s.ring| >= s.capacity then (s, -ENOSPC)
    else (Release(Send(s, op, true)), if s.todo == 1 then 1 else 0)
  }

  function Discard(s: State): (State, int) {
    if !s.allowed || s.todo == 0 then (s, -EACCES)
    else (Release(s).(log := s.log + [Discarded]), 0)
  }

  /** What the assertions in stream_continue() and stream_abort() demand. */
  predicate MayAcknowledge(s: State) {
    s.todo > 0 && !s.allowed && !s.recycle
  }

  function Continue(s: State): State {
    s.(recycle := true, allowed := true, streamEnd := false, log := s.log + [Continued])
  }

  function Abort(s: State): State {
    s.(recycle := true, allowed := true, streamEnd := true, log := s.log + [Aborted])
  }

  /** The hardware answers the oldest unanswered frame. */
  predicate MayAnswer(s: State, reply: Reply) {
    |s.answers| < |s.ring| && Accepts(s.hwSuspended, s.ring[|s.answers|].recycle, reply)
  }

  function Answer(s: State, reply: Reply): State {
    s.(answers := s.answers + [reply],
       hwSuspended := NextSuspended(s.hwSuspended, reply.status),
       log := s.log + [Answered(reply)])
  }

  /** The callback for an answered frame; callbacks may run in any order. */
  predicate MayComplete(s: State, i: nat) {
    i < |s.answers| <= |s.ring| && s.ring[i].state.Todo? && s.inFlight > 0
  }

  function CompletedUnit(u: Unit, reply: Reply): Unit {
    u.(state := Done, output := Fd(u.output.addr, reply.outputLen), reply := reply)
  }

  function Complete(s: State, i: nat): State
    requires MayComplete(s, i)
  {
    s.(ring := s.ring[i := CompletedUnit(s.ring[i], s.answers[i])], inFlight := s.inFlight - 1)
  }

  predicate HeadDone(s: State) {
    |s.ring| > 0 && |s.answers| > 0 && s.ring[0].state.Done?
  }

  function RxOf(u: Unit): Rx {
    var cls := Classify(u.reply.status);
    Rx(u.input,
       if cls.Skip? || cls.Terminal? then Fd(u.output.addr, u.outputLength) else u.output,
       u.reply.flush,
       u.reply.status,
       if cls.Processed? then u.input.len else if cls.Suspend? then u.reply.consumed else 0,
       u.context)
  }

  /** The dequeue switch on the recycle fields. */
  function Account(s: State, cls: StatusClass, numAlloc: nat): State
    requires cls.Suspend? && s.todo == 0 ==> s.sem > 0
  {
    match cls
    case Suspend =>
      s.(sem := if s.todo == 0 then s.sem - 1 else s.sem, allowed := false, todo := s.todo + numAlloc)
    case Terminal =>
      if s.todo > 0 then s.(todo := 0, allowed := false, sem := s.sem + 1) else s
    case _ => s
  }

  function DequeueOne(s: State): State
    requires HeadDone(s)
    requires s.todo == 0 ==> s.sem > 0
  {
    var u := s.ring[0];
    Account(s, Classify(u.reply.status), |s.ring|)
      .(ring := s.ring[1..], answers := s.answers[1..], log := s.log + [Returned(OpOf(u), RxOf(u))])
  }

  /** Up to `n` ops, stopping at the first head that is not done. It also stops
      where the semaphore would block, which no run reaches. */
  function DequeueMany(s: State, n: nat): State
    decreases n
  {
    if n == 0 || !HeadDone(s) || (s.todo == 0 && s.sem == 0) then s else DequeueMany(DequeueOne(s), n - 1)
  }

  /** `enqueue_fd` fails: the ring entry is undone and the token posted twice,
      but the recycle and stream flags were already consumed. */
  function EnqueueIoFailure(s: State, op: Op): State {
    s.(recycle := false, streamEnd := op.flush.Finish?, sem := s.sem + 1)
  }

  /** The same failure on the recycle path, which posts nothing. */
  function RecycleIoFailure(s: State, op: Op): State {
    s.(recycle := false, streamEnd := op.flush.Finish?)
  }

  // ----- runs -----

  datatype Action =
    | EnqueueOp(op: Op)
    | RecycleOp(op: Op)
    | DiscardOp
    | ContinueStream
    | AbortStream
    | HardwareAnswer(reply: Reply)
    | Callback(slot: nat)
    | DequeueOps(max: nat)

  predicate Legal(s: State, a: Action) {
    match a
    case ContinueStream => MayAcknowledge(s)
    case AbortStream => MayAcknowledge(s)
    case HardwareAnswer(r) => MayAnswer(s, r)
    case Callback(i) => MayComplete(s, i)
    case _ => true
  }

  function Step(s: State, a: Action): State
    requires Legal(s, a)
  {
    match a
    case EnqueueOp(op) => Enqueue(s, op).0
    case RecycleOp(op) => Recycle(s, op).0
    case DiscardOp => Discard(s).0
    case ContinueStream => Continue(s)
    case AbortStream => Abort(s)
    case HardwareAnswer(r) => Answer(s, r)
    case Callback(i) => Complete(s, i)
    case DequeueOps(n) => DequeueMany(s, n)
  }

  /** `actions` is a run from `s` to `t`. */
  predicate Run(s: State, actions: seq<Action>, t: State)
    decreases actions
  {
    if actions == [] then s == t
    else Legal(s, actions[0]) && Run(Step(s, actions[0]), actions[1..], t)
  }

  // ----- what the log says -----

  /** Is the flow suspended, as far as the replies handed back tell? */
  function Suspended(log: seq<Event>): bool {
    if log == [] then false
    else
      var e := log[|log| - 1];
      var before := Suspended(log[..|log| - 1]);
      if e.Returned? then NextSuspended(before, e.rx.status) else before
  }

  /** Suspended and skipped ops in the client's hands: handed back, and since
      then neither recycled nor discarded. A terminal error forgets them. An op
      given up before it was handed back makes the balance negative. */
  function Held(log: seq<Event>): int {
    if log == [] then 0
    else
      var e := log[|log| - 1];
      var before := Held(log[..|log| - 1]);
      match e
      case Returned(_, rx) =>
        (match Classify(rx.status)
         case Processed => before
         case Terminal => 0
         case _ => before + 1)
      case Discarded => before - 1
      case Sent(_, _, _, viaRecycle) => if viaRecycle then before - 1 else before
      case _ => before
  }

  function Accepted(log: seq<Event>): seq<Op> {
    if log == [] then []
    else
      var e := log[|log| - 1];
      Accepted(log[..|log| - 1]) + if e.Sent? then [e.op] else []
  }

  function ReturnedOps(log: seq<Event>): seq<Op> {
    if log == [] then []
    else
      var e := log[|log| - 1];
      ReturnedOps(log[..|log| - 1]) + if e.Returned? then [e.op] else []
  }

  /** What the client has received, in order. */
  function Received(log: seq<Event>): seq<Rx> {
    if log == [] then []
    else
      var e := log[|log| - 1];
      Received(log[..|log| - 1]) + if e.Returned? then [e.rx] else []
  }

  /** What the hardware has answered, in order. */
  function Replies(log: seq<Event>): seq<Reply> {
    if log == [] then []
    else
      var e := log[|log| - 1];
      Replies(log[..|log| - 1]) + if e.Answered? then [e.reply] else []
  }

  function Acknowledgements(log: seq<Event>): nat {
    if log == [] then 0
    else Acknowledgements(log[..|log| - 1]) + if log[|log| - 1].Continued? || log[|log| - 1].Aborted? then 1 else 0
  }

  function RecycleBitsSent(log: seq<Event>): nat {
    if log == [] then 0
    else RecycleBitsSent(log[..|log| - 1]) + if log[|log| - 1].Sent? && log[|log| - 1].recycleBit then 1 else 0
  }

  function SuspendsReturned(log: seq<Event>): nat {
    if log == [] then 0
    else
      var e := log[|log| - 1];
      SuspendsReturned(log[..|log| - 1]) + if e.Returned? && Classify(e.rx.status).Suspend? then 1 else 0
  }

  /** The stream starts afresh: creation, a FINISH frame or an abort is more
      recent than every other frame and every continue. */
  ghost predicate FreshStream(log: seq<Event>) {
    forall j :: 0 <= j < |log| && Continues(log[j]) ==> exists k :: j < k < |log| && Restarts(log[k])
  }

  predicate Continues(e: Event) {
    e.Continued? || (e.Sent? && !e.op.flush.Finish?)
  }

  predicate Restarts(e: Event) {
    e.Aborted? || (e.Sent? && e.op.flush.Finish?)
  }

  // ----- what the ring says -----

  function RecycleBits(ring: seq<Unit>): (bits: seq<bool>)
    ensures |bits| == |ring|
  {
    seq(|ring|, i requires 0 <= i < |ring| => ring[i].recycle)
  }

  function Ops(ring: seq<Unit>): (ops: seq<Op>)
    ensures |ops| == |ring|
  {
    seq(|ring|, i requires 0 <= i < |ring| => OpOf(ring[i]))
  }

  function Count(bits: seq<bool>): nat {
    if bits == [] then 0 else (if bits[0] then 1 else 0) + Count(bits[1..])
  }

  /** Frames still in the ring that the hardware skips because of a suspend that
      has already been handed back. */
  function Doomed(suspended: bool, bits: seq<bool>): nat {
    if !suspended || bits == [] || bits[0] then 0 else 1 + Doomed(suspended, bits[1..])
  }

  /** `answers` is what the hardware says to the oldest frames, starting from
      `suspended` and ending in `final`. */
  predicate HardwareRun(suspended: bool, bits: seq<bool>, answers: seq<Reply>, final: bool)
    decreases answers
  {
    if answers == [] then suspended == final
    else
      && bits != []
      && Accepts(suspended, bits[0], answers[0])
      && HardwareRun(NextSuspended(suspended, answers[0].status), bits[1..], answers[1..], final)
  }

  function NotDone(ring: seq<Unit>): nat {
    if ring == [] then 0 else (if ring[0].state.Done? then 0 else 1) + NotDone(ring[1..])
  }

  function BoolToInt(b: bool): nat { if b then 1 else 0 }

  /** A suspend was handed back and nobody has called continue or abort yet. */
  predicate Unacknowledged(s: State) { s.todo > 0 && !s.allowed }

  // ----- the invariant -----

  /** The account law. */
  predicate AccountLaw(s: State) {
    s.todo == Held(s.log) + Doomed(Suspended(s.log), RecycleBits(s.ring))
  }

  /** A suspended flow is waiting for exactly one of: the client's continue or
      abort, the next frame to carry the recycle bit, the hardware to meet it. */
  predicate ResumeLaw(s: State) {
    Count(RecycleBits(s.ring)) + BoolToInt(s.recycle) + BoolToInt(Unacknowledged(s))
    == BoolToInt(Suspended(s.log))
  }

  predicate TokenLaw(s: State) {
    && s.sem == (if s.todo > 0 then 0 else 1)
    && (s.allowed ==> s.todo > 0)
  }

  /** What sem_wait and the assertions on the recycle fields rely on. It holds in
      every run, and still after a failed `enqueue_fd` left a token too many. */
  predicate Unblocked(s: State) { s.todo == 0 ==> s.sem > 0 }

  predicate AllowedLaw(s: State) { s.allowed ==> s.todo > 0 }

  /** No unit in the ring is FREE, and a DONE unit holds the hardware's answer. */
  predicate RingMatches(ring: seq<Unit>, answers: seq<Reply>) {
    forall i :: 0 <= i < |ring| ==>
      && !ring[i].state.Free?
      && (ring[i].state.Done? ==>
            i < |answers| && ring[i].reply == answers[i] && ring[i].output.len == answers[i].outputLen)
  }

  predicate HardwareLaw(s: State) {
    && |s.answers| <= |s.ring| <= s.capacity
    && HardwareRun(Suspended(s.log), RecycleBits(s.ring), s.answers, s.hwSuspended)
    && RingMatches(s.ring, s.answers)
  }

  predicate InFlightLaw(s: State) {
    s.inFlight == NotDone(s.ring)
  }

  predicate QueueLaw(s: State) {
    Accepted(s.log) == ReturnedOps(s.log) + Ops(s.ring)
  }

  predicate AcknowledgeLaw(s: State) {
    && Acknowledgements(s.log) == RecycleBitsSent(s.log) + BoolToInt(s.recycle)
    && SuspendsReturned(s.log) == Acknowledgements(s.log) + BoolToInt(Unacknowledged(s))
  }

  ghost predicate StreamLaw(s: State) {
    && s.streamEnd == FreshStream(s.log)
    && forall i :: 0 <= i < |s.log| && s.log[i].Sent? ==> s.log[i].initialBit == FreshStream(s.log[..i])
  }

  ghost predicate ReturnLaw(s: State) {
    forall i :: 0 <= i < |s.log| && s.log[i].Returned? ==> FaithfulReturn(s.log[i].op, s.log[i].rx)
  }

  /** The client is told what the hardware answered. */
  predicate Delivers(rx: Rx, reply: Reply) {
    && rx.status == reply.status && rx.flush == reply.flush
    && (Classify(reply.status).Suspend? ==> rx.consumed == reply.consumed)
    && (Classify(reply.status).Suspend? || Classify(reply.status).Processed? ==> rx.output.len == reply.outputLen)
  }

  /** The k-th op handed back carries the k-th answer of the hardware; the
      answers not yet handed back are those of the ring. */
  predicate AnswerLaw(s: State) {
    && |Received(s.log)| <= |Replies(s.log)|
    && s.answers == Replies(s.log)[|Received(s.log)|..]
    && forall k :: 0 <= k < |Received(s.log)| ==> Delivers(Received(s.log)[k], Replies(s.log)[k])
  }

  /** The client gets its own input and context back, and the original output
      length whenever the op was skipped or failed. */
  predicate FaithfulReturn(op: Op, rx: Rx) {
    && rx.input == op.input
    && rx.context == op.context
    && rx.output.addr == op.output.addr
    && (Classify(rx.status).Skip? || Classify(rx.status).Terminal? ==> rx.output == op.output && rx.consumed == 0)
    && (Classify(rx.status).Processed? ==> rx.consumed == op.input.len)
  }

  ghost predicate Inv(s: State) {
    && HardwareLaw(s)
    && TokenLaw(s)
    && AccountLaw(s)
    && ResumeLaw(s)
    && InFlightLaw(s)
    && QueueLaw(s)
    && AcknowledgeLaw(s)
    && StreamLaw(s)
    && ReturnLaw(s)
    && AnswerLaw(s)
  }
}
