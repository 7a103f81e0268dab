/** What the calls return, over every interleaving. */
module DceLinearResults {
  import opened Errno
  import opened DceSession
  import DceRuns
  import Th = DceThreads
  import opened DceLinear
  import DceLinearRing
  import opened DceLinearRuns

  // ----- return values -----

  /** What memory shows at one instant. */
  datatype Glimpse = Glimpse(
    mutexFree: bool, token: bool, full: bool, todo: nat, allowed: bool, headFinished: bool)

  function Seen(m: Th.Shared, x: Data): Glimpse {
    Glimpse(m.owner == -1, m.sem > 0, |x.ring| == m.capacity, m.todo, m.allowed, HeadFinished(x))
  }

  /** The call a thread is in, or made last: its steps of the session, the
      variable it returns, and what the session returns to the same call at the
      instant that decided it; what memory showed at the call and where the code
      last looked. */
  datatype Record = Record(
    api: Th.Choice, steps: seq<Action>, ret: int, due: int, call: Glimpse, last: Glimpse)

  const NOTHING := Glimpse(false, false, false, 0, false, false)
  const NO_CALL := Record(Th.Go, [], 0, 0, NOTHING, NOTHING)

  /** The variable that is returned, as the code assigns it from memory; for the
      dequeuer it is the loop counter. */
  function Ret(pc: Th.Pc, c: Th.Choice, m: Th.Shared, ret: int): int {
    match pc
    case Idle => if c.CallRecycle? && m.owner != -1 then -EBUSY else ret
    case EnqReport => if m.todo > 0 then -EACCES else -EBUSY
    case EnqEntered => if m.alloc >= m.capacity then -ENOSPC else ret
    case DeqFree => ret + 1
    case RecLocked => if !m.allowed then -EACCES else if m.alloc >= m.capacity then -ENOSPC else ret
    case RecPost => 1
    case DisLocked => if !m.allowed then -EACCES else ret
    case _ => ret
  }

  function Due(pc: Th.Pc, a: State, op: Op, due: int): int {
    match pc
    case EnqReport => Enqueue(a, op).1
    case EnqEntered => Enqueue(a, op).1
    case EnqAlloced => Enqueue(a, op).1
    case RecLocked => Recycle(a, op).1
    case RecAlloced => Recycle(a, op).1
    case DisLocked => Discard(a).1
    case _ => due
  }

  /** The code looks at memory and decides what to do. */
  predicate LooksAt(pc: Th.Pc) {
    || pc.Idle? || pc.EnqReport? || pc.EnqEntered? || pc.DeqLoop? || pc.RecLocked? || pc.DisLocked?
    || pc.AckLocked?
  }

  /** The record after a step that has the effects `e`. */
  function Next(pc: Th.Pc, c: Th.Choice, m: Th.Shared, x: Data, a: State, op: Op, e: seq<Action>, r: Record): Record {
    var s := if pc.Idle? then NO_CALL.(api := c, call := Seen(m, x)) else r;
    Record(s.api, s.steps + e, Ret(pc, c, m, s.ret), Due(pc, a, op, s.due), s.call,
           if LooksAt(pc) then Seen(m, x) else s.last)
  }

  function Noted(w: Whole, v: Move, r: Record): Record
    requires v.Thread? && Enabled(w, v)
  {
    Next(w.threads[v.t], v.c, w.m, w.x, w.a, w.locals[v.t].op, Effects(w, v), r)
  }

  function NoteAll(w: Whole, v: Move, records: seq<Record>): seq<Record>
    requires Enabled(w, v)
  {
    if v.Thread? && v.t < |records| then records[v.t := Noted(w, v, records[v.t])] else records
  }

  /** The records at the end of a run. */
  function Records(w: Whole, moves: seq<Move>, v: Whole, records: seq<Record>): seq<Record>
    requires DceLinear.Run(w, moves, v)
    decreases moves
  {
    if moves == [] then records else Records(Take(w, moves[0]), moves[1..], v, NoteAll(w, moves[0], records))
  }

  // ----- what a finished call was told -----

  /** What a finished call did and what it returned, by what it found in memory. */
  predicate Told(r: Record, l: Local) {
    && (r.api.CallEnqueue? ==> ToldEnqueue(r, l.op))
    && (r.api.CallRecycle? ==> ToldRecycle(r, l.op))
    && (r.api.CallDequeue? ==> ToldDequeue(r, l.max))
    && (r.api.CallDiscard? ==> ToldDiscard(r))
    && (r.api.CallAcknowledge? ==> ToldAcknowledge(r, l.aborts))
  }

  /** No token: recycle mode, as the session says, or another enqueuer. A token
      but no room: nothing happens, though the session has room if a dequeuer has
      a head to free. Otherwise the op is sent, once. */
  predicate ToldEnqueue(r: Record, op: Op) {
    if !r.call.token then
      && r.steps == [] && r.ret == (if r.last.todo > 0 then -EACCES else -EBUSY)
      && if r.last.todo > 0 then r.due == -EACCES else r.due in {0, -ENOSPC}
    else if r.last.full then r.steps == [] && r.ret == -ENOSPC && r.due in {0, -ENOSPC}
    else r.steps == [EnqueueOp(op)] && r.ret == 0 && r.due == 0
  }

  /** With the mutex, what is allowed and what is left decide, as for the session. */
  predicate ToldRecycle(r: Record, op: Op) {
    if !r.call.mutexFree then r.steps == [] && r.ret == -EBUSY
    else
      && r.ret == r.due && r.steps == (if r.ret < 0 then [] else [RecycleOp(op)])
      && r.ret == RecycleCode(r.last)
  }

  function RecycleCode(g: Glimpse): int {
    if !g.allowed then -EACCES else if g.full then -ENOSPC else if g.todo <= 1 then 1 else 0
  }

  /** With the mutex, one op after the other, until it has enough or the head is
      not DONE. */
  predicate ToldDequeue(r: Record, max: nat) {
    && Dequeues(r.steps) && r.ret == |r.steps| <= max
    && if r.call.mutexFree then r.ret < max ==> !r.last.headFinished else r.ret == 0
  }

  predicate ToldDiscard(r: Record) {
    && r.ret == r.due && r.steps == (if r.ret < 0 then [] else [DiscardOp])
    && r.ret == if r.last.allowed then 0 else -EACCES
  }

  /** The assertions: recycle mode, and no acknowledgement yet. */
  predicate ToldAcknowledge(r: Record, aborts: bool) {
    && r.ret == 0
    && r.steps == if r.last.todo == 0 || r.last.allowed then [] else [if aborts then AbortStream else ContinueStream]
  }

  predicate Dequeues(steps: seq<Action>) {
    forall i :: 0 <= i < |steps| ==> steps[i] == DequeueOps(1)
  }

  predicate InEnqueue(pc: Th.Pc) {
    || pc.EnqWaitLock? || pc.EnqReport? || pc.EnqEntered? || pc.EnqFull? || pc.EnqAlloced? || pc.EnqSent?
    || pc.EnqPosted?
  }

  predicate InDequeue(pc: Th.Pc) {
    pc.DeqLoop? || pc.DeqWaitSem? || pc.DeqCount? || pc.DeqPost? || pc.DeqFree?
  }

  predicate InRecycle(pc: Th.Pc) { pc.RecLocked? || pc.RecAlloced? || pc.RecSent? || pc.RecPost? }
  predicate InDiscard(pc: Th.Pc) { pc.DisWaitLock? || pc.DisLocked? || pc.DisPost? }
  predicate InAcknowledge(pc: Th.Pc) { pc.AckWaitLock? || pc.AckLocked? }

  /** A call on its way. */
  predicate OnTheWay(pc: Th.Pc, r: Record, l: Local, m: Th.Shared) {
    && (pc.Idle? || pc.Unlocking? ==> Told(r, l))
    && (InEnqueue(pc) ==> Enqueuing(pc, r, l.op))
    && (InDequeue(pc) ==> Dequeuing(pc, r, l))
    && (InRecycle(pc) ==> Recycling(pc, r, l.op, m))
    && (InDiscard(pc) ==> Discarding(pc, r))
    && (InAcknowledge(pc) ==> Acknowledging(r))
  }

  predicate Enqueuing(pc: Th.Pc, r: Record, op: Op) {
    && r.api.CallEnqueue? && r.call.token == !(pc.EnqWaitLock? || pc.EnqReport?)
    && (pc.EnqFull? ==> r.last.full && ToldEnqueue(r, op))
    && (pc.EnqSent? || pc.EnqPosted? ==> !r.last.full && ToldEnqueue(r, op))
    && (pc.EnqAlloced? ==> !r.last.full)
    && (pc.EnqWaitLock? || pc.EnqReport? || pc.EnqEntered? || pc.EnqAlloced? ==> r.ret == 0 && r.steps == [])
  }

  /** The dequeuer wants more until it is back at the head of the loop. */
  predicate Dequeuing(pc: Th.Pc, r: Record, l: Local) {
    && r.api.CallDequeue? && r.call.mutexFree && Dequeues(r.steps)
    && r.ret == l.count <= l.max && r.ret + Popped(pc) == |r.steps| && (!pc.DeqLoop? ==> l.count < l.max)
  }

  /** A recycler that has sent its frame knows what is left to recycle. */
  predicate Recycling(pc: Th.Pc, r: Record, op: Op, m: Th.Shared) {
    && r.api.CallRecycle? && r.call.mutexFree && r.ret == 0
    && r.steps == (if pc.RecSent? || pc.RecPost? then [RecycleOp(op)] else [])
    && (!pc.RecLocked? ==> r.last.allowed && !r.last.full)
    && (pc.RecAlloced? || pc.RecSent? ==> r.last.todo == m.todo)
    && (pc.RecSent? ==> r.due == if m.todo <= 1 then 1 else 0)
    && (pc.RecPost? ==> r.due == 1 && r.last.todo <= 1)
  }

  predicate Discarding(pc: Th.Pc, r: Record) {
    && r.api.CallDiscard? && r.ret == 0 == r.due && r.steps == (if pc.DisPost? then [DiscardOp] else [])
    && (pc.DisPost? ==> r.last.allowed)
  }

  predicate Acknowledging(r: Record) { r.api.CallAcknowledge? && r.ret == 0 && r.steps == [] }

  ghost predicate Tracked(w: Whole, records: seq<Record>) {
    && |records| == |w.threads| == |w.locals|
    && forall t :: 0 <= t < |w.threads| ==> OnTheWay(w.threads[t], records[t], w.locals[t], w.m)
  }

  // ----- what the session returns at the deciding instant -----

  /** The instants that decide an enqueue. */
  predicate EnqueueDecided(pc: Th.Pc, m: Th.Shared, due: int) {
    && (pc.EnqAlloced? ==> due == 0)
    && (pc.EnqReport? ==> if m.todo > 0 then due == -EACCES else due in {0, -ENOSPC})
    && (pc.EnqEntered? && m.alloc >= m.capacity ==> due in {0, -ENOSPC})
  }

  /** A full ring is full for the session too, unless a dequeuer has a head to
      free. */
  lemma EnqueueDue(w: Whole, t: nat)
    requires Linked(w) && t < |w.threads|
    ensures var (pc, due) := (w.threads[t], Enqueue(w.a, w.locals[t].op).1);
            && EnqueueDecided(pc, w.m, due)
            && (pc.EnqEntered? && w.m.alloc >= w.m.capacity ==> (due == -ENOSPC <==> P(w) == 0))
  {
    LinkedMeansNoneFailed(w);
    if w.threads[t].EnqAlloced? { SendIsStep(w, t); }
    if w.threads[t].EnqReport? { HolderFacts(w, t); }
    if w.threads[t].EnqEntered? {
      EnqueuerFacts(w, t);
      SumZero(w.threads, Releasing);
    }
  }

  /** The instants that decide a recycle. */
  predicate RecycleDecided(pc: Th.Pc, m: Th.Shared, due: int) {
    && (pc.RecLocked? && !m.allowed ==> due == -EACCES)
    && (pc.RecLocked? && m.allowed && m.alloc >= m.capacity ==> due == -ENOSPC)
    && (pc.RecAlloced? ==> due == if m.todo <= 1 then 1 else 0)
  }

  lemma RecycleDue(w: Whole, t: nat)
    requires Linked(w) && t < |w.threads|
    ensures RecycleDecided(w.threads[t], w.m, Recycle(w.a, w.locals[t].op).1)
  {
    LinkedMeansNoneFailed(w);
    assert Th.Local(w.m, w.threads[t]);
    if w.threads[t].RecAlloced? {
      SendIsStep(w, t);
      HolderFacts(w, t);
    }
    if w.threads[t].RecLocked? {
      HolderFacts(w, t);
      if w.m.allowed { RecyclerFacts(w, t); }
    }
  }

  lemma DiscardDue(w: Whole, t: nat)
    requires Linked(w) && t < |w.threads| && w.threads[t].DisLocked?
    ensures Discard(w.a).1 == if w.m.allowed then 0 else -EACCES
  {
    HolderFacts(w, t);
    assert Th.Local(w.m, w.threads[t]);
  }

  // ----- every step -----

  /** What a call was given stays; only the dequeuer counts. */
  predicate KeepsArguments(pc: Th.Pc, l: Local, k: Local) {
    k.op == l.op && k.aborts == l.aborts && k.max == l.max && k.count == if pc.DeqFree? then l.count + 1 else l.count
  }

  /** The thread that moves, with locals `l` before and `k` after. */
  predicate Proceeds(m: Th.Shared, pc: Th.Pc, t: nat, c: Th.Choice, x: Data, a: State, l: Local, k: Local,
                     e: seq<Action>, r: Record)
    requires Th.MayMove(m, pc, c)
  {
    OnTheWay(Th.Move(m, pc, t, c).0, Next(pc, c, m, x, a, l.op, e, r), k, Th.Move(m, pc, t, c).1)
  }

  predicate Ends(pc: Th.Pc) { pc.Idle? || pc.Unlocking? }

  /** The same, call by call. */
  predicate EnqueueGoesOn(pc: Th.Pc, r: Record, l: Local) {
    r.api.CallEnqueue? && if Ends(pc) then ToldEnqueue(r, l.op) else InEnqueue(pc) && Enqueuing(pc, r, l.op)
  }

  predicate DequeueGoesOn(pc: Th.Pc, r: Record, l: Local) {
    r.api.CallDequeue? && if Ends(pc) then ToldDequeue(r, l.max) else InDequeue(pc) && Dequeuing(pc, r, l)
  }

  predicate RecycleGoesOn(pc: Th.Pc, r: Record, l: Local, m: Th.Shared) {
    r.api.CallRecycle? && if Ends(pc) then ToldRecycle(r, l.op) else InRecycle(pc) && Recycling(pc, r, l.op, m)
  }

  predicate DiscardGoesOn(pc: Th.Pc, r: Record) {
    r.api.CallDiscard? && if Ends(pc) then ToldDiscard(r) else InDiscard(pc) && Discarding(pc, r)
  }

  predicate AcknowledgeGoesOn(pc: Th.Pc, r: Record, l: Local) {
    r.api.CallAcknowledge? && if Ends(pc) then ToldAcknowledge(r, l.aborts) else InAcknowledge(pc) && Acknowledging(r)
  }

  lemma SettlingGoesOn(pc: Th.Pc, r: Record, l: Local, m: Th.Shared)
    requires DiscardGoesOn(pc, r) || AcknowledgeGoesOn(pc, r, l)
    ensures OnTheWay(pc, r, l, m)
  {
  }

  lemma GoesOn(pc: Th.Pc, r: Record, l: Local, m: Th.Shared)
    requires EnqueueGoesOn(pc, r, l) || DequeueGoesOn(pc, r, l) || RecycleGoesOn(pc, r, l, m)
    ensures OnTheWay(pc, r, l, m)
  {
  }

  lemma CallProceeds(m: Th.Shared, t: nat, c: Th.Choice, x: Data, a: State, l: Local, k: Local, r: Record)
    requires Th.MayMove(m, Th.Idle, c) && k.count == 0
    ensures Proceeds(m, Th.Idle, t, c, x, a, l, k, [], r)
  {
    var (pc, m') := Th.Move(m, Th.Idle, t, c);
    if c.CallEnqueue? || c.CallDequeue? || c.CallRecycle? {
      QueueCallGoesOn(m, t, c, x, a, l, k, r);
      GoesOn(pc, Next(Th.Idle, c, m, x, a, l.op, [], r), k, m');
    }
  }

  lemma QueueCallGoesOn(m: Th.Shared, t: nat, c: Th.Choice, x: Data, a: State, l: Local, k: Local, r: Record)
    requires (c.CallEnqueue? || c.CallDequeue? || c.CallRecycle?) && k.count == 0
    ensures var (pc, m') := Th.Move(m, Th.Idle, t, c);
            var n := Next(Th.Idle, c, m, x, a, l.op, [], r);
            EnqueueGoesOn(pc, n, k) || DequeueGoesOn(pc, n, k) || RecycleGoesOn(pc, n, k, m')
  {
  }

  lemma UnlockProceeds(m: Th.Shared, t: nat, c: Th.Choice, x: Data, a: State, l: Local, k: Local, r: Record)
    requires Th.MayMove(m, Th.Unlocking, c) && OnTheWay(Th.Unlocking, r, l, m) && KeepsArguments(Th.Unlocking, l, k)
    ensures Proceeds(m, Th.Unlocking, t, c, x, a, l, k, [], r)
  {
  }

  lemma EnqueueProceeds(m: Th.Shared, pc: Th.Pc, t: nat, c: Th.Choice, x: Data, a: State, l: Local, k: Local, r: Record)
    requires Th.MayMove(m, pc, c) && !c.DriverRefuses? && InEnqueue(pc) && Enqueuing(pc, r, l.op)
    requires KeepsArguments(pc, l, k) && EnqueueDecided(pc, m, Enqueue(a, l.op).1) && |x.ring| == m.alloc <= m.capacity
    ensures var e := if pc.EnqAlloced? then [EnqueueOp(l.op)] else [];
            EnqueueGoesOn(Th.Move(m, pc, t, c).0, Next(pc, c, m, x, a, l.op, e, r), k)
  {
  }

  lemma RecycleProceeds(m: Th.Shared, pc: Th.Pc, t: nat, c: Th.Choice, x: Data, a: State, l: Local, k: Local, r: Record)
    requires Th.MayMove(m, pc, c) && !c.DriverRefuses? && InRecycle(pc) && Recycling(pc, r, l.op, m)
    requires KeepsArguments(pc, l, k) && RecycleDecided(pc, m, Recycle(a, l.op).1)
    requires |x.ring| == m.alloc <= m.capacity
    ensures var e := if pc.RecAlloced? then [RecycleOp(l.op)] else [];
            RecycleGoesOn(Th.Move(m, pc, t, c).0, Next(pc, c, m, x, a, l.op, e, r), k, Th.Move(m, pc, t, c).1)
  {
  }

  predicate Accounts(pc: Th.Pc, c: Th.Choice) {
    pc.DeqCount? || (pc.DeqLoop? && (c.HeadProcessed? || c.HeadTerminal?))
  }

  lemma DequeueProceeds(m: Th.Shared, pc: Th.Pc, t: nat, c: Th.Choice, x: Data, a: State, l: Local, k: Local, r: Record)
    requires Th.MayMove(m, pc, c) && InDequeue(pc) && Dequeuing(pc, r, l)
    requires KeepsArguments(pc, l, k) && (pc.DeqLoop? ==> HeadSays(x, l, c))
    ensures var e := if Accounts(pc, c) then [DequeueOps(1)] else [];
            DequeueGoesOn(Th.Move(m, pc, t, c).0, Next(pc, c, m, x, a, l.op, e, r), k)
  {
  }

  lemma DiscardProceeds(m: Th.Shared, pc: Th.Pc, t: nat, c: Th.Choice, x: Data, a: State, l: Local, r: Record)
    requires Th.MayMove(m, pc, c) && InDiscard(pc) && Discarding(pc, r)
    requires pc.DisLocked? ==> Discard(a).1 == if m.allowed then 0 else -EACCES
    ensures var e := if pc.DisLocked? && m.allowed then [DiscardOp] else [];
            DiscardGoesOn(Th.Move(m, pc, t, c).0, Next(pc, c, m, x, a, l.op, e, r))
  {
  }

  function Acknowledgement(pc: Th.Pc, m: Th.Shared, l: Local): seq<Action> {
    if pc.AckLocked? && m.todo > 0 && !m.allowed then [if l.aborts then AbortStream else ContinueStream] else []
  }

  lemma AcknowledgeProceeds(m: Th.Shared, pc: Th.Pc, t: nat, c: Th.Choice, x: Data, a: State, l: Local, k: Local,
                            r: Record)
    requires Th.MayMove(m, pc, c) && InAcknowledge(pc) && Acknowledging(r) && KeepsArguments(pc, l, k)
    ensures AcknowledgeGoesOn(Th.Move(m, pc, t, c).0, Next(pc, c, m, x, a, l.op, Acknowledgement(pc, m, l), r), k)
  {
  }

  /** What takes effect at this program counter. */
  lemma EffectsByCall(w: Whole, v: Move)
    requires Linked(w) && v.Thread? && Enabled(w, v)
    ensures var (pc, l, e) := (w.threads[v.t], w.locals[v.t], Effects(w, v));
            && (pc.Idle? || pc.Unlocking? ==> e == [])
            && (InEnqueue(pc) ==> e == if pc.EnqAlloced? then [EnqueueOp(l.op)] else [])
            && (InRecycle(pc) ==> e == if pc.RecAlloced? then [RecycleOp(l.op)] else [])
            && (InDequeue(pc) ==> e == if Accounts(pc, v.c) then [DequeueOps(1)] else [])
            && (InDiscard(pc) ==> e == if pc.DisLocked? && w.m.allowed then [DiscardOp] else [])
            && (InAcknowledge(pc) ==> e == Acknowledgement(pc, w.m, l))
  {
  }

  /** The arguments come with the call, and are kept. */
  lemma ArgumentsAreKept(w: Whole, v: Move)
    requires v.Thread? && Enabled(w, v)
    ensures var (pc, l, k) := (w.threads[v.t], w.locals[v.t], Take(w, v).locals[v.t]);
            if pc.Idle? then k.count == 0 else KeepsArguments(pc, l, k)
  {
  }

  /** The calls that move ops. */
  lemma QueueingTracked(w: Whole, v: Move, r: Record)
    requires Linked(w) && v.Thread? && Enabled(w, v) && OnTheWay(w.threads[v.t], r, w.locals[v.t], w.m)
    requires var pc := w.threads[v.t]; InEnqueue(pc) || InRecycle(pc) || InDequeue(pc)
    ensures Proceeds(w.m, w.threads[v.t], v.t, v.c, w.x, w.a, w.locals[v.t], Take(w, v).locals[v.t], Effects(w, v), r)
  {
    var pc, l, k := w.threads[v.t], w.locals[v.t], Take(w, v).locals[v.t];
    ArgumentsAreKept(w, v);
    EffectsByCall(w, v);
    if InEnqueue(pc) {
      EnqueueDue(w, v.t);
      EnqueueProceeds(w.m, pc, v.t, v.c, w.x, w.a, l, k, r);
    } else if InRecycle(pc) {
      RecycleDue(w, v.t);
      RecycleProceeds(w.m, pc, v.t, v.c, w.x, w.a, l, k, r);
    } else {
      DequeueProceeds(w.m, pc, v.t, v.c, w.x, w.a, l, k, r);
    }
    GoesOn(Th.Move(w.m, pc, v.t, v.c).0, Noted(w, v, r), k, Th.Move(w.m, pc, v.t, v.c).1);
  }

  lemma OwnTracked(w: Whole, v: Move, r: Record)
    requires Linked(w) && v.Thread? && Enabled(w, v) && OnTheWay(w.threads[v.t], r, w.locals[v.t], w.m)
    ensures Proceeds(w.m, w.threads[v.t], v.t, v.c, w.x, w.a, w.locals[v.t], Take(w, v).locals[v.t], Effects(w, v), r)
  {
    var pc, l, k := w.threads[v.t], w.locals[v.t], Take(w, v).locals[v.t];
    LinkedMeansNoneFailed(w);
    ArgumentsAreKept(w, v);
    EffectsByCall(w, v);
    if pc.Idle? {
      CallProceeds(w.m, v.t, v.c, w.x, w.a, l, k, r);
    } else if pc.Unlocking? {
      UnlockProceeds(w.m, v.t, v.c, w.x, w.a, l, k, r);
    } else if InEnqueue(pc) || InRecycle(pc) || InDequeue(pc) {
      QueueingTracked(w, v, r);
    } else {
      if InDiscard(pc) {
        if pc.DisLocked? { DiscardDue(w, v.t); }
        DiscardProceeds(w.m, pc, v.t, v.c, w.x, w.a, l, r);
      } else {
        AcknowledgeProceeds(w.m, pc, v.t, v.c, w.x, w.a, l, k, r);
      }
      SettlingGoesOn(Th.Move(w.m, pc, v.t, v.c).0, Noted(w, v, r), k, Th.Move(w.m, pc, v.t, v.c).1);
    }
  }

  /** A recycler holds the mutex, so nobody else changes the account. */
  lemma OtherTracked(w: Whole, v: Move, t: nat, r: Record)
    requires Linked(w) && v.Thread? && Enabled(w, v) && t < |w.threads| && t != v.t
    requires OnTheWay(w.threads[t], r, w.locals[t], w.m)
    ensures OnTheWay(w.threads[t], r, w.locals[t], Th.Move(w.m, w.threads[v.t], v.t, v.c).1)
  {
    if w.threads[t].RecSent? || w.threads[t].RecAlloced? {
      HolderFacts(w, t);
      assert Th.HoldsMutex(w.threads[v.t]) <==> w.m.owner == v.t;
      Th.MoveRespectsMutex(w.m, w.threads[v.t], v.t, v.c);
    }
  }

  lemma TakeTracked(w: Whole, v: Move, records: seq<Record>)
    requires Linked(w) && Enabled(w, v) && Tracked(w, records)
    ensures Tracked(Take(w, v), NoteAll(w, v, records))
  {
    if v.Thread? {
      var n, after := Take(w, v), NoteAll(w, v, records);
      OwnTracked(w, v, records[v.t]);
      StepBasics(w, v);
      forall t | 0 <= t < |w.threads| ensures OnTheWay(n.threads[t], after[t], n.locals[t], n.m) {
        if t != v.t {
          OtherTracked(w, v, t, records[t]);
          assert n.locals[t] == w.locals[t];
        }
      }
    }
  }

  lemma {:induction false} RunTracked(w: Whole, moves: seq<Move>, v: Whole, records: seq<Record>)
    requires Linked(w) && DceLinear.Run(w, moves, v) && Tracked(w, records)
    ensures Tracked(v, Records(w, moves, v, records))
    decreases moves
  {
    if moves != [] {
      TakeSimulates(w, moves[0]);
      TakeTracked(w, moves[0], records);
      RunTracked(Take(w, moves[0]), moves[1..], v, NoteAll(w, moves[0], records));
    }
  }

  function NoCalls(threads: nat): seq<Record> { seq(threads, _ => NO_CALL) }

  lemma StartIsTracked(threads: nat, capacity: nat)
    ensures Tracked(Start(threads, capacity), NoCalls(threads))
  {
  }

  /** Over every interleaving, every call that has returned did and said what the
      memory it met calls for. */
  lemma ResultsAreTrue(threads: nat, capacity: nat, moves: seq<Move>, w: Whole, t: nat)
    requires DceLinear.Run(Start(threads, capacity), moves, w) && t < |w.threads| && w.threads[t].Idle?
    ensures var records := Records(Start(threads, capacity), moves, w, NoCalls(threads));
            |records| == |w.threads| == |w.locals| && Told(records[t], w.locals[t])
  {
    StartIsLinked(threads, capacity);
    StartIsTracked(threads, capacity);
    RunTracked(Start(threads, capacity), moves, w, NoCalls(threads));
    var r := Records(Start(threads, capacity), moves, w, NoCalls(threads))[t];
    assert OnTheWay(w.threads[t], r, w.locals[t], w.m);
  }

  /** A dequeuer at the head of its loop is never stuck: what the head says is a
      move it can make. */
  lemma DequeuerMoves(w: Whole, t: nat) returns (c: Th.Choice)
    requires Linked(w) && t < |w.threads| && w.threads[t].DeqLoop?
    ensures Enabled(w, Thread(t, c, NO_OP, false, 0))
    ensures w.locals[t].count < w.locals[t].max && HeadFinished(w.x) <==> !c.Go?
  {
    if w.locals[t].count >= w.locals[t].max || !HeadFinished(w.x) {
      c := Th.Go;
    } else {
      HolderFacts(w, t);
      FinishedIsSent(w);
      var cls := Classify(w.x.ring[0].reply.status);
      c := if cls.Suspend? then Th.HeadSuspended else if cls.Terminal? then Th.HeadTerminal else Th.HeadProcessed;
    }
  }

  lemma FinishedIsSent(w: Whole)
    requires Linked(w) && HeadFinished(w.x)
    ensures w.m.sent > 0
  {
    if w.m.sent == 0 {
      var u := Th.SumWitness(w.threads, Th.Unsent);
      assert Knows(w.threads[u], w.locals[u], w.m, w.x, w.a, P(w));
      DceLinearRing.UnsentIsLast(w, u);
    }
  }

  // ----- the race for the token -----

  /** No run of the session answers an enqueue with -EBUSY. */
  lemma SessionIsNeverBusy(capacity: nat, actions: seq<Action>, s: State, op: Op)
    requires DceSession.Run(Init(capacity), actions, s)
    ensures Enqueue(s, op).1 != -EBUSY
  {
    DceRuns.EveryRun(capacity, actions, s);
  }

  /** Two threads enqueue; the one that finds the token gone is told so. */
  function TokenRace(): seq<Move> {
    [Thread(0, Th.CallEnqueue, NO_OP, false, 1), Thread(1, Th.CallEnqueue, NO_OP, false, 1),
     Thread(1, Th.Go, NO_OP, false, 1), Thread(1, Th.Go, NO_OP, false, 1)]
  }

  lemma RaceStates(capacity: nat) returns (w1: Whole, w2: Whole, w3: Whole, w: Whole)
    ensures var (s, v) := (Start(2, capacity), TokenRace());
            && Enabled(s, v[0]) && w1 == Take(s, v[0]) && Enabled(w1, v[1]) && w2 == Take(w1, v[1])
            && Enabled(w2, v[2]) && w3 == Take(w2, v[2]) && Enabled(w3, v[3]) && w == Take(w3, v[3])
    ensures w1.threads[1].Idle? && w2.threads[1].EnqWaitLock? && w3.threads[1].EnqReport? && w3.m.todo == 0
    ensures w.threads == [Th.EnqEntered, Th.Idle]
  {
    var s, v := Start(2, capacity), TokenRace();
    w1 := Take(s, v[0]);
    assert w1.threads == [Th.EnqEntered, Th.Idle] && w1.m == s.m.(sem := 0);
    w2 := Take(w1, v[1]);
    assert w2.threads == [Th.EnqEntered, Th.EnqWaitLock] && w2.m == w1.m;
    w3 := Take(w2, v[2]);
    assert w3.threads == [Th.EnqEntered, Th.EnqReport] && w3.m == w1.m.(owner := 1);
    w := Take(w3, v[3]);
  }

  lemma LoserIsToldBusy(capacity: nat) returns (w: Whole)
    ensures DceLinear.Run(Start(2, capacity), TokenRace(), w) && w.threads == [Th.EnqEntered, Th.Idle]
    ensures var r := Records(Start(2, capacity), TokenRace(), w, NoCalls(2));
            |r| == 2 && r[1].api.CallEnqueue? && r[1].ret == -EBUSY
  {
    var s, v := Start(2, capacity), TokenRace();
    var w1, w2, w3;
    w1, w2, w3, w := RaceStates(capacity);
    assert v[1..][1..] == v[2..] && v[2..][1..] == v[3..] && v[3..][1..] == [];
    assert DceLinear.Run(w3, v[3..], w);
    assert DceLinear.Run(w2, v[2..], w);
    assert DceLinear.Run(w1, v[1..], w);
    var r := NoCalls(2);
    assert Records(s, v, w, r)
        == Records(w3, v[3..], w, NoteAll(w2, v[2], NoteAll(w1, v[1], NoteAll(s, v[0], r))));
  }
}
