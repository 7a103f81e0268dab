/** What each call of the atomic session answers and does, by the history of the
    session alone. */
module DceCalls {
  import opened Errno
  import opened DceSession
  import DceRuns

  // ----- enqueue, recycle, discard -----

  /** Ops that the client has to recycle or discard. */
  function Left(s: State): int { Held(s.log) + Doomed(Suspended(s.log), RecycleBits(s.ring)) }

  /** Ops that were sent and not handed back. */
  function OnTheirWay(log: seq<Event>): int { |Accepted(log)| - |ReturnedOps(log)| }

  /** A suspend was handed back, and acknowledged. */
  predicate MayRecycle(s: State) {
    Left(s) > 0 && SuspendsReturned(s.log) == Acknowledgements(s.log)
  }

  /** The frame that is sent now: it carries the recycle bit if an acknowledgement
      has not been passed on, and the initial bit if a stream starts. */
  ghost predicate SendsNow(s: State, t: State, op: Op, viaRecycle: bool) {
    t.log == s.log + [Sent(op, Acknowledgements(s.log) > RecycleBitsSent(s.log), FreshStream(s.log), viaRecycle)]
  }

  /** After every run an enqueue is refused in recycle mode and when the ring is
      full, without effect, and accepted otherwise. */
  lemma EnqueueAnswers(capacity: nat, actions: seq<Action>, s: State, op: Op)
    requires Run(Init(capacity), actions, s)
    ensures var (t, code) := Enqueue(s, op);
            if Left(s) > 0 then code == -EACCES && t == s
            else if OnTheirWay(s.log) == capacity then code == -ENOSPC && t == s
            else code == 0 && SendsNow(s, t, op, false) && Left(t) == 0 && t.inFlight == s.inFlight + 1
  {
    Known(capacity, actions, s);
    var t := Enqueue(s, op).0;
    DceRuns.EnqueueKeeps(s, op);
  }

  /** A recycle is refused before the suspend is acknowledged and when the ring is
      full; otherwise one op less is left, and the last one answers 1. */
  lemma RecycleAnswers(capacity: nat, actions: seq<Action>, s: State, op: Op)
    requires Run(Init(capacity), actions, s)
    ensures var (t, code) := Recycle(s, op);
            if !MayRecycle(s) then code == -EACCES && t == s
            else if OnTheirWay(s.log) == capacity then code == -ENOSPC && t == s
            else
              && code == (if Left(s) == 1 then 1 else 0) && SendsNow(s, t, op, true)
              && Left(t) == Left(s) - 1 && t.inFlight == s.inFlight + 1
  {
    Known(capacity, actions, s);
    DceRuns.RecycleKeeps(s, op);
  }

  lemma DiscardAnswers(capacity: nat, actions: seq<Action>, s: State)
    requires Run(Init(capacity), actions, s)
    ensures var (t, code) := Discard(s);
            if !MayRecycle(s) then code == -EACCES && t == s
            else code == 0 && t.log == s.log + [Discarded] && Left(t) == Left(s) - 1 && t.ring == s.ring
  {
    Known(capacity, actions, s);
    DceRuns.DiscardKeeps(s);
  }

  /** The assertions of continue and abort hold exactly while a suspend that was
      handed back has not been acknowledged; then ops may be recycled again. */
  lemma AcknowledgeAnswers(capacity: nat, actions: seq<Action>, s: State, aborts: bool)
    requires Run(Init(capacity), actions, s)
    ensures MayAcknowledge(s) <==> SuspendsReturned(s.log) > Acknowledgements(s.log)
    ensures var t := if aborts then Abort(s) else Continue(s);
            MayAcknowledge(s) ==>
              MayRecycle(t) && t.log == s.log + [if aborts then Aborted else Continued]
              && Acknowledgements(t.log) > RecycleBitsSent(t.log)
  {
    Known(capacity, actions, s);
    if MayAcknowledge(s) {
      if aborts { DceRuns.AbortKeeps(s); } else { DceRuns.ContinueKeeps(s); }
    }
  }

  /** The fields of the session are what the history says. */
  lemma Known(capacity: nat, actions: seq<Action>, s: State)
    requires Run(Init(capacity), actions, s)
    ensures Inv(s) && s.todo == Left(s) && |s.ring| == OnTheirWay(s.log) && s.capacity == capacity
    ensures s.recycle == (Acknowledgements(s.log) > RecycleBitsSent(s.log)) && s.streamEnd == FreshStream(s.log)
    ensures s.allowed == MayRecycle(s) && s.sem == if s.todo > 0 then 0 else 1
  {
    DceRuns.EveryRun(capacity, actions, s);
    CapacityStays(Init(capacity), actions, s);
  }

  lemma {:induction false} CapacityStays(s: State, actions: seq<Action>, t: State)
    requires Run(s, actions, t)
    ensures t.capacity == s.capacity
    decreases actions
  {
    if actions != [] {
      if actions[0].DequeueOps? { DequeueKeepsCapacity(s, actions[0].max); }
      CapacityStays(Step(s, actions[0]), actions[1..], t);
    }
  }

  lemma {:induction false} DequeueKeepsCapacity(s: State, n: nat)
    ensures DequeueMany(s, n).capacity == s.capacity
    decreases n
  {
    if n > 0 && HeadDone(s) && Unblocked(s) { DequeueKeepsCapacity(DequeueOne(s), n - 1); }
  }

  // ----- dequeue -----

  /** Finished units before the first one that is not. */
  function LeadingDone(ring: seq<Unit>): (n: nat)
    ensures n <= |ring|
    ensures forall i :: 0 <= i < n ==> ring[i].state.Done?
    ensures n < |ring| ==> !ring[n].state.Done?
  {
    if ring == [] || !ring[0].state.Done? then 0 else 1 + LeadingDone(ring[1..])
  }

  /** `t` is `s` with `k` ops handed back, oldest first. */
  ghost predicate HandedBack(s: State, t: State, k: nat) {
    && k <= |s.ring| && k <= |s.answers| && t.ring == s.ring[k..] && t.answers == s.answers[k..]
    && |t.log| == |s.log| + k && t.log[..|s.log|] == s.log
    && forall i :: 0 <= i < k ==> t.log[|s.log| + i] == Returned(OpOf(s.ring[i]), RxOf(s.ring[i]))
  }

  /** A dequeue of up to `n` ops hands back as many as are finished, in recycle
      mode or not, and leaves the others; a token too many does not matter. */
  lemma {:induction false} DequeueTakesAll(s: State, n: nat)
    requires Unblocked(s) && RingMatches(s.ring, s.answers)
    ensures HandedBack(s, DequeueMany(s, n), Taken(s.ring, n))
    decreases n
  {
    if n > 0 && LeadingDone(s.ring) > 0 {
      FinishedHead(s);
      DceRuns.DequeueAdvances(s, n);
      var m := DequeueOne(s);
      DequeueTakesAll(m, n - 1);
      HandedBackStep(s, DequeueMany(m, n - 1), Taken(m.ring, n - 1));
    } else {
      NothingTaken(s, n);
    }
  }

  /** Out of `n` ops that are wanted. */
  function Taken(ring: seq<Unit>, n: nat): nat {
    if n <= LeadingDone(ring) then n else LeadingDone(ring)
  }

  lemma FinishedHead(s: State)
    requires Unblocked(s) && RingMatches(s.ring, s.answers) && LeadingDone(s.ring) > 0
    ensures HeadDone(s) && DequeueOne(s).ring == s.ring[1..]
  {
    assert s.ring[0].state.Done?;
  }

  lemma NothingTaken(s: State, n: nat)
    requires n == 0 || LeadingDone(s.ring) == 0
    ensures DequeueMany(s, n) == s && Taken(s.ring, n) == 0 && HandedBack(s, s, 0)
  {
  }

  lemma HandedBackStep(s: State, t: State, k: nat)
    requires HeadDone(s) && Unblocked(s) && HandedBack(DequeueOne(s), t, k)
    ensures HandedBack(s, t, k + 1)
  {
    var m := DequeueOne(s);
    assert m.log == s.log + [Returned(OpOf(s.ring[0]), RxOf(s.ring[0]))];
    assert t.log[..|s.log|] == t.log[..|m.log|][..|s.log|];
    assert t.log[|s.log|] == t.log[..|m.log|][|s.log|];
    forall i | 0 <= i < k + 1 ensures t.log[|s.log| + i] == Returned(OpOf(s.ring[i]), RxOf(s.ring[i])) {
      if i > 0 {
        assert t.log[|m.log| + (i - 1)] == Returned(OpOf(m.ring[i - 1]), RxOf(m.ring[i - 1]));
      }
    }
  }
}
