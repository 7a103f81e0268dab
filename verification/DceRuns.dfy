/**
  Every step of a DCE session keeps `Inv`, so every run does.
  No hypothesis is made about the client beyond the assertions of
  stream_continue() and stream_abort(); `enqueue_fd` is taken to succeed, and
  what a failure does is stated separately.
 */
module DceRuns {
  import opened DceSession

  // ----- one more event in the log -----

  lemma LogStep(log: seq<Event>, e: Event)
    ensures Suspended(log + [e]) == (if e.Returned? then NextSuspended(Suspended(log), e.rx.status) else Suspended(log))
    ensures Held(log + [e]) ==
            (match e
             case Returned(_, rx) =>
               (match Classify(rx.status)
                case Processed => Held(log)
                case Terminal => 0
                case _ => Held(log) + 1)
             case Discarded => Held(log) - 1
             case Sent(_, _, _, viaRecycle) => if viaRecycle then Held(log) - 1 else Held(log)
             case _ => Held(log))
    ensures Accepted(log + [e]) == Accepted(log) + (if e.Sent? then [e.op] else [])
    ensures ReturnedOps(log + [e]) == ReturnedOps(log) + (if e.Returned? then [e.op] else [])
    ensures Received(log + [e]) == Received(log) + (if e.Returned? then [e.rx] else [])
    ensures Replies(log + [e]) == Replies(log) + (if e.Answered? then [e.reply] else [])
    ensures Acknowledgements(log + [e]) == Acknowledgements(log) + BoolToInt(e.Continued? || e.Aborted?)
    ensures RecycleBitsSent(log + [e]) == RecycleBitsSent(log) + BoolToInt(e.Sent? && e.recycleBit)
    ensures SuspendsReturned(log + [e]) ==
            SuspendsReturned(log) + BoolToInt(e.Returned? && Classify(e.rx.status).Suspend?)
  {
    assert (log + [e])[..|log|] == log;
  }

  lemma FreshStreamStep(log: seq<Event>, e: Event)
    ensures FreshStream(log + [e]) == (if Continues(e) then false else if Restarts(e) then true else FreshStream(log))
  {
    var l := log + [e];
    if Continues(e) {
      assert l[|log|] == e;
    } else if Restarts(e) {
      forall j | 0 <= j < |l| && Continues(l[j]) ensures exists k :: j < k < |l| && Restarts(l[k]) {
        assert Restarts(l[|log|]);
      }
    } else {
      if FreshStream(log) {
        forall j | 0 <= j < |l| && Continues(l[j]) ensures exists k :: j < k < |l| && Restarts(l[k]) {
          assert Continues(log[j]);
          var k :| j < k < |log| && Restarts(log[k]);
          assert Restarts(l[k]);
        }
      }
      if FreshStream(l) {
        forall j | 0 <= j < |log| && Continues(log[j]) ensures exists k :: j < k < |log| && Restarts(log[k]) {
          assert Continues(l[j]);
          var k :| j < k < |l| && Restarts(l[k]);
          assert Restarts(log[k]);
        }
      }
    }
  }

  /** How an event moves the answers. */
  predicate AnswersFollow(s: State, t: State, e: Event) {
    match e
    case Answered(r) => t.answers == s.answers + [r]
    case Returned(_, rx) => s.answers != [] && t.answers == s.answers[1..] && Delivers(rx, s.answers[0])
    case _ => t.answers == s.answers
  }

  lemma AnswerLawStep(s: State, t: State, e: Event)
    requires AnswerLaw(s) && t.log == s.log + [e] && AnswersFollow(s, t, e)
    ensures AnswerLaw(t)
  {
    LogStep(s.log, e);
    var got, said := Received(s.log), Replies(s.log);
    if e.Answered? {
      assert (said + [e.reply])[|got|..] == said[|got|..] + [e.reply];
    } else if e.Returned? {
      assert said[|got|..][1..] == said[|got| + 1..];
      assert said[|got|] == s.answers[0];
    }
  }

  /** The stream, return and answer laws only look at the log, `streamEnd` and
      the answers. */
  lemma LogLawsStep(s: State, t: State, e: Event)
    requires StreamLaw(s) && ReturnLaw(s) && AnswerLaw(s)
    requires t.log == s.log + [e] && AnswersFollow(s, t, e)
    requires t.streamEnd == (if Continues(e) then false else if Restarts(e) then true else s.streamEnd)
    requires e.Sent? ==> e.initialBit == s.streamEnd
    requires e.Returned? ==> FaithfulReturn(e.op, e.rx)
    ensures StreamLaw(t) && ReturnLaw(t) && AnswerLaw(t)
  {
    AnswerLawStep(s, t, e);
    FreshStreamStep(s.log, e);
    forall i | 0 <= i < |t.log| && t.log[i].Sent? ensures t.log[i].initialBit == FreshStream(t.log[..i]) {
      assert t.log[..i] == s.log[..i];
      if i == |s.log| { assert s.log[..i] == s.log; }
    }
  }

  // ----- one more frame at the tail -----

  lemma {:induction false} CountAppend(bits: seq<bool>, b: bool)
    ensures Count(bits + [b]) == Count(bits) + BoolToInt(b)
  {
    if bits != [] {
      assert (bits + [b])[1..] == bits[1..] + [b];
      CountAppend(bits[1..], b);
    }
  }

  lemma {:induction false} DoomedAppend(suspended: bool, bits: seq<bool>, b: bool)
    ensures Doomed(suspended, bits + [b]) ==
            Doomed(suspended, bits) + BoolToInt(suspended && Count(bits) == 0 && !b)
  {
    if bits != [] {
      assert (bits + [b])[1..] == bits[1..] + [b];
      DoomedAppend(suspended, bits[1..], b);
    }
  }

  lemma {:induction false} HardwareRunAppendFrame(suspended: bool, bits: seq<bool>, answers: seq<Reply>,
      final: bool, b: bool)
    requires HardwareRun(suspended, bits, answers, final)
    ensures HardwareRun(suspended, bits + [b], answers, final)
    decreases answers
  {
    if answers != [] {
      assert (bits + [b])[1..] == bits[1..] + [b];
      HardwareRunAppendFrame(NextSuspended(suspended, answers[0].status), bits[1..], answers[1..], final, b);
    }
  }

  lemma {:induction false} HardwareRunAppendAnswer(suspended: bool, bits: seq<bool>, answers: seq<Reply>,
      final: bool, r: Reply)
    requires HardwareRun(suspended, bits, answers, final)
    requires |answers| < |bits| && Accepts(final, bits[|answers|], r)
    ensures HardwareRun(suspended, bits, answers + [r], NextSuspended(final, r.status))
    decreases answers
  {
    if answers == [] {
      assert (answers + [r])[1..] == [];
    } else {
      assert (answers + [r])[1..] == answers[1..] + [r];
      HardwareRunAppendAnswer(NextSuspended(suspended, answers[0].status), bits[1..], answers[1..], final, r);
    }
  }

  lemma {:induction false} NotDoneAppend(ring: seq<Unit>, u: Unit)
    ensures NotDone(ring + [u]) == NotDone(ring) + BoolToInt(!u.state.Done?)
  {
    if ring != [] {
      assert (ring + [u])[1..] == ring[1..] + [u];
      NotDoneAppend(ring[1..], u);
    }
  }

  lemma {:induction false} NotDoneComplete(ring: seq<Unit>, i: nat, u: Unit)
    requires i < |ring| && !ring[i].state.Done? && u.state.Done?
    ensures NotDone(ring[i := u]) == NotDone(ring) - 1
  {
    if i > 0 {
      assert ring[i := u][1..] == ring[1..][i - 1 := u];
      NotDoneComplete(ring[1..], i - 1, u);
    } else {
      assert ring[i := u][1..] == ring[1..];
    }
  }

  /** With no recycle bit anywhere, a suspended flow skips every frame. */
  lemma {:induction false} AllDoomed(bits: seq<bool>)
    requires Count(bits) == 0
    ensures Doomed(true, bits) == |bits|
  {
    if bits != [] { AllDoomed(bits[1..]); }
  }

  // ----- each step keeps the invariant -----

  /** `Inv` with `owed` ops still to be taken off the recycle account. */
  ghost predicate InvOwing(s: State, owed: nat) {
    && HardwareLaw(s) && TokenLaw(s) && ResumeLaw(s) && InFlightLaw(s)
    && QueueLaw(s) && AcknowledgeLaw(s) && StreamLaw(s) && ReturnLaw(s) && AnswerLaw(s)
    && s.todo == Held(s.log) + Doomed(Suspended(s.log), RecycleBits(s.ring)) + owed
  }

  lemma SendKeepsCounts(s: State, op: Op, viaRecycle: bool)
    requires TokenLaw(s) && AccountLaw(s) && ResumeLaw(s) && AcknowledgeLaw(s) && !Unacknowledged(s)
    ensures
      var t := Send(s, op, viaRecycle);
      && TokenLaw(t) && ResumeLaw(t) && AcknowledgeLaw(t)
      && t.todo == Held(t.log) + Doomed(Suspended(t.log), RecycleBits(t.ring)) + BoolToInt(viaRecycle)
  {
    var bits := RecycleBits(s.ring);
    LogStep(s.log, Sent(op, s.recycle, s.streamEnd, viaRecycle));
    assert RecycleBits(Send(s, op, viaRecycle).ring) == bits + [s.recycle];
    CountAppend(bits, s.recycle);
    DoomedAppend(Suspended(s.log), bits, s.recycle);
  }

  lemma SendKeepsQueues(s: State, op: Op, viaRecycle: bool)
    requires HardwareLaw(s) && InFlightLaw(s) && QueueLaw(s) && |s.ring| < s.capacity
    ensures var t := Send(s, op, viaRecycle); HardwareLaw(t) && InFlightLaw(t) && QueueLaw(t)
  {
    var t := Send(s, op, viaRecycle);
    var bits := RecycleBits(s.ring);
    LogStep(s.log, Sent(op, s.recycle, s.streamEnd, viaRecycle));
    assert RecycleBits(t.ring) == bits + [s.recycle];
    HardwareRunAppendFrame(Suspended(s.log), bits, s.answers, s.hwSuspended, s.recycle);
    NotDoneAppend(s.ring, FilledUnit(op, s.recycle, s.streamEnd));
    assert Ops(t.ring) == Ops(s.ring) + [op];
  }

  lemma SendKeeps(s: State, op: Op, viaRecycle: bool)
    requires Inv(s) && |s.ring| < s.capacity && !Unacknowledged(s)
    ensures InvOwing(Send(s, op, viaRecycle), BoolToInt(viaRecycle))
  {
    SendKeepsCounts(s, op, viaRecycle);
    SendKeepsQueues(s, op, viaRecycle);
    LogLawsStep(s, Send(s, op, viaRecycle), Sent(op, s.recycle, s.streamEnd, viaRecycle));
  }

  lemma ReleaseKeeps(s: State)
    requires InvOwing(s, 1) && s.allowed
    ensures Inv(Release(s))
  {
  }

  lemma EnqueueKeeps(s: State, op: Op)
    requires Inv(s)
    ensures Inv(Enqueue(s, op).0)
  {
    if s.sem > 0 && |s.ring| < s.capacity {
      SendKeeps(s, op, false);
    }
  }

  lemma RecycleKeeps(s: State, op: Op)
    requires Inv(s)
    ensures Inv(Recycle(s, op).0)
  {
    if s.allowed && |s.ring| < s.capacity {
      SendKeeps(s, op, true);
      ReleaseKeeps(Send(s, op, true));
    }
  }

  lemma DiscardKeeps(s: State)
    requires Inv(s)
    ensures Inv(Discard(s).0)
  {
    if s.allowed {
      var m := s.(log := s.log + [Discarded]);
      DiscardOwes(s, m);
      ReleaseKeeps(m);
    }
  }

  lemma DiscardOwes(s: State, m: State)
    requires Inv(s) && m == s.(log := s.log + [Discarded])
    ensures InvOwing(m, 1)
  {
    LogStep(s.log, Discarded);
    LogLawsStep(s, m, Discarded);
  }

  lemma ContinueKeeps(s: State)
    requires Inv(s) && MayAcknowledge(s)
    ensures Inv(Continue(s))
  {
    LogStep(s.log, Continued);
    LogLawsStep(s, Continue(s), Continued);
  }

  lemma AbortKeeps(s: State)
    requires Inv(s) && MayAcknowledge(s)
    ensures Inv(Abort(s))
  {
    LogStep(s.log, Aborted);
    LogLawsStep(s, Abort(s), Aborted);
  }

  lemma AnswerKeepsHardware(s: State, r: Reply)
    requires HardwareLaw(s) && MayAnswer(s, r)
    ensures HardwareLaw(Answer(s, r))
  {
    LogStep(s.log, Answered(r));
    HardwareRunAppendAnswer(Suspended(s.log), RecycleBits(s.ring), s.answers, s.hwSuspended, r);
  }

  lemma AnswerKeeps(s: State, r: Reply)
    requires Inv(s) && MayAnswer(s, r)
    ensures Inv(Answer(s, r))
  {
    AnswerKeepsHardware(s, r);
    LogStep(s.log, Answered(r));
    LogLawsStep(s, Answer(s, r), Answered(r));
  }

  lemma CompleteKeepsQueues(s: State, i: nat)
    requires HardwareLaw(s) && InFlightLaw(s) && QueueLaw(s) && MayComplete(s, i)
    ensures var t := Complete(s, i);
            HardwareLaw(t) && InFlightLaw(t) && QueueLaw(t) && RecycleBits(t.ring) == RecycleBits(s.ring)
  {
    var t := Complete(s, i);
    assert RecycleBits(t.ring) == RecycleBits(s.ring);
    assert Ops(t.ring) == Ops(s.ring);
    NotDoneComplete(s.ring, i, t.ring[i]);
  }

  lemma CompleteKeeps(s: State, i: nat)
    requires Inv(s) && MayComplete(s, i)
    ensures Inv(Complete(s, i))
  {
    CompleteKeepsQueues(s, i);
  }

  lemma DequeueKeepsCounts(s: State)
    requires HardwareLaw(s) && TokenLaw(s) && AccountLaw(s) && ResumeLaw(s) && AcknowledgeLaw(s) && HeadDone(s)
    ensures var t := DequeueOne(s); TokenLaw(t) && AccountLaw(t) && ResumeLaw(t) && AcknowledgeLaw(t)
  {
    var u := s.ring[0];
    var bits := RecycleBits(s.ring);
    assert RecycleBits(DequeueOne(s).ring) == bits[1..];
    assert u.reply == s.answers[0];
    LogStep(s.log, Returned(OpOf(u), RxOf(u)));
    if Classify(u.reply.status).Suspend? { AllDoomed(bits[1..]); }
  }

  lemma RingMatchesTail(ring: seq<Unit>, answers: seq<Reply>)
    requires RingMatches(ring, answers) && ring != [] && answers != []
    ensures RingMatches(ring[1..], answers[1..])
  {
  }

  lemma DequeueKeepsHardware(s: State)
    requires HardwareLaw(s) && HeadDone(s)
    requires s.todo == 0 ==> s.sem > 0
    ensures HardwareLaw(DequeueOne(s))
  {
    var u := s.ring[0];
    assert RecycleBits(s.ring[1..]) == RecycleBits(s.ring)[1..];
    assert u.reply == s.answers[0];
    LogStep(s.log, Returned(OpOf(u), RxOf(u)));
    RingMatchesTail(s.ring, s.answers);
  }

  lemma DequeueKeepsUnblocked(s: State)
    requires Unblocked(s) && HeadDone(s)
    ensures Unblocked(DequeueOne(s))
  {
  }

  lemma DequeueKeepsQueues(s: State)
    requires HardwareLaw(s) && InFlightLaw(s) && QueueLaw(s) && HeadDone(s)
    requires s.todo == 0 ==> s.sem > 0
    ensures var t := DequeueOne(s); HardwareLaw(t) && InFlightLaw(t) && QueueLaw(t)
  {
    var u := s.ring[0];
    DequeueKeepsHardware(s);
    assert Ops(s.ring) == [OpOf(u)] + Ops(DequeueOne(s).ring);
    LogStep(s.log, Returned(OpOf(u), RxOf(u)));
  }

  lemma DequeueOneKeeps(s: State)
    requires Inv(s) && HeadDone(s)
    ensures Inv(DequeueOne(s))
  {
    var u := s.ring[0];
    DequeueKeepsCounts(s);
    DequeueKeepsQueues(s);
    assert RingMatches(s.ring, s.answers);
    LogLawsStep(s, DequeueOne(s), Returned(OpOf(u), RxOf(u)));
  }

  lemma DequeueAdvances(s: State, n: nat)
    requires n > 0 && HeadDone(s) && Unblocked(s) && RingMatches(s.ring, s.answers)
    ensures var t := DequeueOne(s);
            Unblocked(t) && RingMatches(t.ring, t.answers) && DequeueMany(s, n) == DequeueMany(t, n - 1)
  {
    RingMatchesTail(s.ring, s.answers);
  }

  lemma {:induction false} DequeueManyKeeps(s: State, n: nat)
    requires Inv(s)
    ensures Inv(DequeueMany(s, n))
    decreases n
  {
    if n > 0 && HeadDone(s) {
      DequeueOneKeeps(s);
      DequeueManyKeeps(DequeueOne(s), n - 1);
    }
  }

  lemma StepKeeps(s: State, a: Action)
    requires Inv(s) && Legal(s, a)
    ensures Inv(Step(s, a))
  {
    match a
    case EnqueueOp(op) => EnqueueKeeps(s, op);
    case RecycleOp(op) => RecycleKeeps(s, op);
    case DiscardOp => DiscardKeeps(s);
    case ContinueStream => ContinueKeeps(s);
    case AbortStream => AbortKeeps(s);
    case HardwareAnswer(r) => AnswerKeeps(s, r);
    case Callback(i) => CompleteKeeps(s, i);
    case DequeueOps(n) => DequeueManyKeeps(s, n);
  }

  lemma {:induction false} RunKeeps(s: State, actions: seq<Action>, t: State)
    requires Inv(s) && Run(s, actions, t)
    ensures Inv(t)
    decreases actions
  {
    if actions != [] {
      StepKeeps(s, actions[0]);
      RunKeeps(Step(s, actions[0]), actions[1..], t);
    }
  }

  lemma EveryRun(capacity: nat, actions: seq<Action>, s: State)
    requires Run(Init(capacity), actions, s)
    ensures Inv(s)
  {
    RunKeeps(Init(capacity), actions, s);
  }

  // ----- what every run guarantees -----

  /** `recycle_todo` is exact for every client and every order of callbacks:
      no suspend, first or repeated, loses or double-counts an op. */
  lemma RecycleAccountIsExact(capacity: nat, actions: seq<Action>, s: State)
    requires Run(Init(capacity), actions, s)
    ensures s.todo == Held(s.log) + Doomed(Suspended(s.log), RecycleBits(s.ring))
    ensures s.sem == (if s.todo > 0 then 0 else 1)
  {
    EveryRun(capacity, actions, s);
  }

  /** A SKIPPED op reaches the dequeuer with `recycle_todo == 0` exactly when
      the client has given up, unseen, every op the hardware is still skipping.
      A client that gives up only what it was handed never sees it. */
  lemma SkippedIsAccountedFor(capacity: nat, actions: seq<Action>, s: State)
    requires Run(Init(capacity), actions, s)
    requires HeadDone(s) && Classify(s.ring[0].reply.status).Skip?
    ensures Doomed(Suspended(s.log), RecycleBits(s.ring)) >= 1
    ensures s.todo == 0 <==> -Held(s.log) == Doomed(Suspended(s.log), RecycleBits(s.ring))
    ensures Held(s.log) >= 0 ==> s.todo > 0
  {
    EveryRun(capacity, actions, s);
    assert s.ring[0].reply == s.answers[0];
  }

  lemma {:induction false} RunExtends(s: State, actions: seq<Action>, m: State, a: Action)
    requires Run(s, actions, m) && Legal(m, a)
    ensures Run(s, actions + [a], Step(m, a))
    decreases actions
  {
    if actions == [] {
      assert ([a])[1..] == [];
    } else {
      assert (actions + [a])[1..] == actions[1..] + [a];
      RunExtends(Step(s, actions[0]), actions[1..], m, a);
    }
  }

  /** A reachable state: two ops in the ring, the first suspended, the second
      skipped, both called back, nothing dequeued. */
  lemma SuspendThenSkip() returns (actions: seq<Action>, s: State)
    ensures Run(Init(2), actions, s)
    ensures HeadDone(s) && |s.ring| == |s.answers| == 2 && s.sem == 1 && s.todo == 0 && !s.recycle
    ensures Classify(s.ring[0].reply.status).Suspend?
    ensures s.ring[1].state.Done? && Classify(s.ring[1].reply.status).Skip?
  {
    var s0;
    actions, s0 := TwoInFlight();
    var blocked := HardwareAnswer(Reply(0x14, NoFlush, 1, 0));
    var skipped := HardwareAnswer(Reply(SKIPPED, NoFlush, 0, 0));
    RunExtends(Init(2), actions, s0, blocked);
    var s1 := Step(s0, blocked);
    actions := actions + [blocked];
    RunExtends(Init(2), actions, s1, skipped);
    var s2 := Step(s1, skipped);
    actions := actions + [skipped];
    RunExtends(Init(2), actions, s2, Callback(0));
    var s3 := Step(s2, Callback(0));
    actions := actions + [Callback(0)];
    RunExtends(Init(2), actions, s3, Callback(1));
    s := Step(s3, Callback(1));
    actions := actions + [Callback(1)];
  }

  lemma TwoInFlight() returns (actions: seq<Action>, s: State)
    ensures Run(Init(2), actions, s)
    ensures |s.ring| == 2 && s.answers == [] && !s.hwSuspended && s.sem == 1 && s.todo == 0 && !s.recycle
    ensures s.inFlight == 2 && forall i :: 0 <= i < 2 ==> s.ring[i].state.Todo? && !s.ring[i].recycle
  {
    var a := EnqueueOp(Op(Fd(0, 1), Fd(8, 1), NoFlush, 7));
    RunExtends(Init(2), [], Init(2), a);
    var s1 := Step(Init(2), a);
    RunExtends(Init(2), [a], s1, a);
    s := Step(s1, a);
    actions := [a] + [a];
  }

  /** The over-eager client exists: it dequeues the suspended op, continues, and
      discards twice before the skipped op is dequeued. */
  lemma OverEagerClientTripsTheAssertion() returns (actions: seq<Action>, s: State)
    ensures Run(Init(2), actions, s)
    ensures HeadDone(s) && Classify(s.ring[0].reply.status).Skip? && s.todo == 0
  {
    var s0;
    actions, s0 := SuspendThenSkip();
    assert DequeueMany(DequeueOne(s0), 0) == DequeueOne(s0);
    var s1 := Step(s0, DequeueOps(1));
    RunExtends(Init(2), actions, s0, DequeueOps(1));
    actions := actions + [DequeueOps(1)];
    var s2 := Step(s1, ContinueStream);
    RunExtends(Init(2), actions, s1, ContinueStream);
    actions := actions + [ContinueStream];
    var s3 := Step(s2, DiscardOp);
    RunExtends(Init(2), actions, s2, DiscardOp);
    actions := actions + [DiscardOp];
    s := Step(s3, DiscardOp);
    RunExtends(Init(2), actions, s3, DiscardOp);
    actions := actions + [DiscardOp];
  }

  /** Over every run the returned ops followed by the ring are the accepted ops
      in order; every return is faithful to its op, and the k-th one carries the
      k-th answer of the hardware. */
  lemma SessionIsAQueue(capacity: nat, actions: seq<Action>, s: State)
    requires Run(Init(capacity), actions, s)
    ensures Accepted(s.log) == ReturnedOps(s.log) + Ops(s.ring)
    ensures forall i :: 0 <= i < |s.log| && s.log[i].Returned? ==> FaithfulReturn(s.log[i].op, s.log[i].rx)
    ensures |Received(s.log)| + |s.answers| == |Replies(s.log)|
    ensures forall k :: 0 <= k < |Received(s.log)| ==> Delivers(Received(s.log)[k], Replies(s.log)[k])
  {
    EveryRun(capacity, actions, s);
  }

  /** Every suspend handed back is acknowledged at most once, each acknowledgement
      puts exactly one recycle bit on the wire, and none is ever lost. */
  lemma AcknowledgementsAreConserved(capacity: nat, actions: seq<Action>, s: State)
    requires Run(Init(capacity), actions, s)
    ensures Acknowledgements(s.log) - RecycleBitsSent(s.log) == (if s.recycle then 1 else 0)
    ensures SuspendsReturned(s.log) - Acknowledgements(s.log) == (if s.todo > 0 && !s.allowed then 1 else 0)
    ensures Suspended(s.log) <==> s.recycle || Unacknowledged(s) || Count(RecycleBits(s.ring)) == 1
  {
    EveryRun(capacity, actions, s);
  }

  /** The path where everything was discarded: the flow is still suspended, and
      the next ordinary enqueue is the frame that carries the bit. */
  lemma DiscardedFlowResumesOnEnqueue(capacity: nat, actions: seq<Action>, s: State, op: Op)
    requires Run(Init(capacity), actions, s)
    requires s.todo == 0 && Suspended(s.log) && Count(RecycleBits(s.ring)) == 0 && |s.ring| < capacity
    ensures Enqueue(s, op).1 == 0
    ensures var t := Enqueue(s, op).0;
            t.log == s.log + [Sent(op, true, s.streamEnd, false)] && !t.recycle && t.ring[|s.ring|].recycle
  {
    EveryRun(capacity, actions, s);
    CapacityIsFixed(Init(capacity), actions, s);
  }

  lemma {:induction false} CapacityIsFixed(s: State, actions: seq<Action>, t: State)
    requires Run(s, actions, t)
    ensures t.capacity == s.capacity
    decreases actions
  {
    if actions != [] {
      if actions[0].DequeueOps? { DequeueCapacity(s, actions[0].max); }
      CapacityIsFixed(Step(s, actions[0]), actions[1..], t);
    }
  }

  lemma {:induction false} DequeueCapacity(s: State, n: nat)
    ensures DequeueMany(s, n).capacity == s.capacity
    decreases n
  {
    if n > 0 && HeadDone(s) && (s.todo > 0 || s.sem > 0) { DequeueCapacity(DequeueOne(s), n - 1); }
  }

  /** A frame carries the initial bit exactly when the stream starts afresh. */
  lemma InitialBitFollowsHistory(capacity: nat, actions: seq<Action>, s: State, i: nat)
    requires Run(Init(capacity), actions, s)
    requires i < |s.log| && s.log[i].Sent?
    ensures s.log[i].initialBit <==> FreshStream(s.log[..i])
  {
    EveryRun(capacity, actions, s);
  }

  /** The allocated ring slots are the frames in flight plus the finished ones. */
  lemma {:induction false} InFlightPlusDone(ring: seq<Unit>)
    ensures NotDone(ring) + |set i | 0 <= i < |ring| && ring[i].state.Done?| == |ring|
  {
    var d := set i | 0 <= i < |ring| && ring[i].state.Done?;
    if ring == [] {
      assert d == {};
    } else {
      var n := |ring| - 1;
      InFlightPlusDone(ring[..n]);
      assert ring == ring[..n] + [ring[n]];
      NotDoneAppend(ring[..n], ring[n]);
      var e := set i | 0 <= i < n && ring[..n][i].state.Done?;
      assert d == if ring[n].state.Done? then e + {n} else e;
    }
  }

  // ----- what a failing enqueue_fd does -----

  /** A failed ordinary enqueue always leaves one token too many, and loses the
      recycle bit or the initial bit if the frame would have carried it. */
  lemma FailedEnqueueAddsAToken(s: State, op: Op)
    requires Inv(s) && s.sem > 0
    ensures var t := EnqueueIoFailure(s, op);
            && t.sem == 2
            && !TokenLaw(t)
            && (ResumeLaw(t) <==> !s.recycle)
            && (StreamLaw(t) <==> s.streamEnd == op.flush.Finish?)
  {
  }

  /** A failed recycle is harmless exactly when the frame carried no
      acknowledgement and would not have changed the stream state. */
  lemma FailedRecycleIsHarmlessIff(s: State, op: Op)
    requires Inv(s) && s.allowed
    ensures Inv(RecycleIoFailure(s, op)) <==> !s.recycle && s.streamEnd == op.flush.Finish?
  {
  }

  /** No acknowledgement is pending anywhere although the flow is suspended. */
  predicate Stranded(s: State) {
    && HardwareLaw(s) && InFlightLaw(s) && QueueLaw(s)
    && Suspended(s.log) && Count(RecycleBits(s.ring)) == 0
    && !s.recycle && s.todo == 0 && !s.allowed
  }

  lemma LostBitStrandsTheFlow(s: State, op: Op)
    requires Inv(s) && s.sem > 0 && s.recycle
    ensures Stranded(EnqueueIoFailure(s, op))
  {
  }

  /** Such a state is reached by a client that gives up only what it was handed:
      it dequeues the suspended and the skipped op, continues, and discards both. */
  lemma StrandingIsReachable(op: Op) returns (actions: seq<Action>, s: State)
    ensures Run(Init(2), actions, s)
    ensures Inv(s) && s.sem > 0 && s.recycle && Held(s.log) == 0
    ensures Stranded(EnqueueIoFailure(s, op))
  {
    var s0;
    actions, s0 := SuspendThenSkip();
    EveryRun(2, actions, s0);
    var s1 := Step(s0, DequeueOps(2));
    RunExtends(Init(2), actions, s0, DequeueOps(2));
    actions := actions + [DequeueOps(2)];
    TwoDequeued(s0);
    var s2 := Step(s1, ContinueStream);
    RunExtends(Init(2), actions, s1, ContinueStream);
    actions := actions + [ContinueStream];
    var s3 := Step(s2, DiscardOp);
    RunExtends(Init(2), actions, s2, DiscardOp);
    actions := actions + [DiscardOp];
    s := Step(s3, DiscardOp);
    RunExtends(Init(2), actions, s3, DiscardOp);
    actions := actions + [DiscardOp];
    EveryRun(2, actions, s);
    LostBitStrandsTheFlow(s, op);
  }

  /** Dequeuing a suspended and a skipped op puts both on the account. */
  lemma TwoDequeued(s: State)
    requires Inv(s) && HeadDone(s) && |s.ring| == |s.answers| == 2 && s.sem == 1 && s.todo == 0 && !s.recycle
    requires Classify(s.ring[0].reply.status).Suspend?
    requires s.ring[1].state.Done? && Classify(s.ring[1].reply.status).Skip?
    ensures var t := DequeueMany(s, 2); t.todo == 2 && !t.allowed && !t.recycle && t.ring == [] && t.sem == 0
  {
    var m := DequeueOne(s);
    assert DequeueMany(s, 2) == DequeueMany(m, 1);
    assert DequeueMany(m, 1) == DequeueMany(DequeueOne(m), 0);
  }

  lemma StrandedEnqueue(s: State, op: Op)
    requires Stranded(s)
    ensures Stranded(Enqueue(s, op).0)
  {
    if s.sem > 0 && |s.ring| < s.capacity {
      SendKeepsQueues(s, op, false);
      LogStep(s.log, Sent(op, false, s.streamEnd, false));
      assert RecycleBits(Send(s, op, false).ring) == RecycleBits(s.ring) + [false];
      CountAppend(RecycleBits(s.ring), false);
    }
  }

  lemma StrandedAnswer(s: State, r: Reply)
    requires Stranded(s) && MayAnswer(s, r)
    ensures Stranded(Answer(s, r))
  {
    AnswerKeepsHardware(s, r);
    LogStep(s.log, Answered(r));
  }

  lemma StrandedStep(s: State, a: Action)
    requires Stranded(s) && Legal(s, a) && !a.DequeueOps?
    ensures Stranded(Step(s, a))
  {
    match a
    case EnqueueOp(op) => StrandedEnqueue(s, op);
    case HardwareAnswer(r) => StrandedAnswer(s, r);
    case Callback(i) => CompleteKeepsQueues(s, i);
    case _ =>
  }

  lemma StrandedDequeueOne(s: State)
    requires Stranded(s) && HeadDone(s) && s.sem > 0
    ensures Classify(s.ring[0].reply.status).Skip?
    ensures Stranded(DequeueOne(s))
  {
    var u := s.ring[0];
    assert u.reply == s.answers[0];
    DequeueKeepsQueues(s);
    LogStep(s.log, Returned(OpOf(u), RxOf(u)));
    assert RecycleBits(DequeueOne(s).ring) == RecycleBits(s.ring)[1..];
  }

  lemma {:induction false} StrandedDequeue(s: State, n: nat)
    requires Stranded(s)
    ensures Stranded(DequeueMany(s, n))
    decreases n
  {
    if n > 0 && HeadDone(s) && s.sem > 0 {
      StrandedDequeueOne(s);
      StrandedDequeue(DequeueOne(s), n - 1);
    }
  }

  /** Once a failed enqueue has swallowed the bit, no run resumes the flow: it
      stays suspended, and `recycle_todo` stays 0 under every further SKIPPED. */
  lemma {:induction false} StrandedForever(s: State, actions: seq<Action>, t: State)
    requires Stranded(s) && Run(s, actions, t)
    ensures Stranded(t)
    ensures HeadDone(t) ==> Classify(t.ring[0].reply.status).Skip? && t.todo == 0
    decreases actions
  {
    if actions == [] {
      if HeadDone(t) { assert t.ring[0].reply == t.answers[0]; }
    } else {
      if actions[0].DequeueOps? { StrandedDequeue(s, actions[0].max); } else { StrandedStep(s, actions[0]); }
      StrandedForever(Step(s, actions[0]), actions[1..], t);
    }
  }

  // ----- when a refused frame makes the assertion after sem_trywait fail -----

  /** After a refusal: a token too many, and the flow still in order. */
  predicate Loose(s: State) {
    && HardwareLaw(s) && InFlightLaw(s) && ResumeLaw(s) && s.capacity > 0
    && s.sem >= 2 && s.todo == 0 && !s.allowed && !s.recycle
  }

  lemma LooseAnswer(s: State, r: Reply)
    requires Loose(s) && MayAnswer(s, r)
    ensures Loose(Answer(s, r))
  {
    AnswerKeepsHardware(s, r);
    LogStep(s.log, Answered(r));
  }

  lemma LooseComplete(s: State, i: nat)
    requires Loose(s) && MayComplete(s, i)
    ensures Loose(Complete(s, i))
  {
    var t := Complete(s, i);
    assert RecycleBits(t.ring) == RecycleBits(s.ring);
    NotDoneComplete(s.ring, i, t.ring[i]);
  }

  /** Anything but a suspended head leaves the flow in order. */
  lemma LooseDequeue(s: State)
    requires Loose(s) && HeadDone(s) && !Classify(s.ring[0].reply.status).Suspend?
    ensures Loose(DequeueOne(s))
  {
    var u := s.ring[0];
    assert u.reply == s.answers[0];
    DequeueKeepsHardware(s);
    LogStep(s.log, Returned(OpOf(u), RxOf(u)));
    assert RecycleBits(DequeueOne(s).ring) == RecycleBits(s.ring)[1..];
  }

  lemma LooseEnqueue(s: State, op: Op)
    requires Loose(s) && s.ring == []
    ensures var t := Enqueue(s, op).0; Loose(t) && |t.ring| == 1 && t.answers == [] && !t.hwSuspended
  {
    var t, u := Enqueue(s, op).0, FilledUnit(op, false, s.streamEnd);
    LogStep(s.log, Sent(op, false, s.streamEnd, false));
    assert t.ring == [u];
    assert RecycleBits(s.ring) == [] && RecycleBits(t.ring) == [false];
    assert Count([false]) == 0 by { assert [false][1..] == []; }
    assert NotDone([u]) == 1 by { assert [u][1..] == []; }
  }

  /** What the hardware says to a frame when it suspends the flow as soon as it may. */
  function Unkind(s: State, recycleBit: bool): Reply {
    Reply(if s.hwSuspended && !recycleBit then SKIPPED else 0x14, NoFlush, 0, 0)
  }

  /** An enqueuer would get in although ops are to be recycled. */
  predicate Tripped(s: State) { s.sem > 0 && s.todo > 0 }

  /** How far the head of the ring is from being handed back. */
  function HeadStage(s: State): nat
    requires s.ring != []
  {
    if s.answers == [] then 2 else if s.ring[0].state.Done? then 0 else 1
  }

  /** One step for the head of the ring. */
  function Nudge(s: State): Action
    requires s.ring != []
  {
    if s.answers == [] then HardwareAnswer(Unkind(s, s.ring[0].recycle))
    else if s.ring[0].state.Done? then DequeueOps(1)
    else Callback(0)
  }

  lemma NudgeHelps(s: State)
    requires Loose(s) && s.ring != []
    ensures Legal(s, Nudge(s))
    ensures var t := Step(s, Nudge(s));
            || Tripped(t)
            || (Loose(t) && (|t.ring| < |s.ring| || (|t.ring| == |s.ring| && HeadStage(t) < HeadStage(s))))
  {
    if s.answers == [] {
      LooseAnswer(s, Unkind(s, s.ring[0].recycle));
    } else if s.ring[0].state.Done? {
      assert DequeueMany(DequeueOne(s), 0) == DequeueOne(s);
      if !Classify(s.ring[0].reply.status).Suspend? { LooseDequeue(s); }
    } else {
      assert RingMatches(s.ring, s.answers);
      LooseComplete(s, 0);
    }
  }

  /** The ring can be emptied, unless a suspended head trips the assertion first. */
  lemma {:induction false} DrainOrTrip(s: State) returns (more: seq<Action>, t: State)
    requires Loose(s)
    ensures Run(s, more, t) && (Tripped(t) || (Loose(t) && t.ring == []))
    decreases |s.ring|, if s.ring == [] then 0 else HeadStage(s)
  {
    more, t := [], s;
    if s.ring != [] {
      NudgeHelps(s);
      var n := Step(s, Nudge(s));
      var rest := [];
      t := n;
      if !Tripped(n) { rest, t := DrainOrTrip(n); }
      more := [Nudge(s)] + rest;
      assert more[1..] == rest;
    }
  }

  /** From an empty ring: the next frame is suspended and handed back. */
  lemma TripFromEmpty(s: State) returns (more: seq<Action>, t: State)
    requires Loose(s) && s.ring == []
    ensures Run(s, more, t) && Tripped(t)
  {
    var a := EnqueueOp(Op(Fd(0, 1), Fd(8, 1), NoFlush, 7));
    LooseEnqueue(s, a.op);
    var s1 := Step(s, a);
    var rest;
    rest, t := TripOneFrame(s1);
    more := [a] + rest;
    assert more[1..] == rest;
  }

  lemma TripOneFrame(s: State) returns (more: seq<Action>, t: State)
    requires Loose(s) && |s.ring| == 1 && s.answers == [] && !s.hwSuspended
    ensures Run(s, more, t) && Tripped(t)
  {
    var b := Nudge(s);
    NudgeHelps(s);
    RunExtends(s, [], s, b);
    var s1 := Step(s, b);
    RunExtends(s, [] + [b], s1, Callback(0));
    var s2 := Step(s1, Callback(0));
    RunExtends(s, [] + [b] + [Callback(0)], s2, DequeueOps(1));
    assert DequeueMany(DequeueOne(s2), 0) == DequeueOne(s2);
    more, t := [] + [b] + [Callback(0)] + [DequeueOps(1)], Step(s2, DequeueOps(1));
  }

  lemma {:induction false} RunConcat(s: State, a: seq<Action>, m: State, b: seq<Action>, t: State)
    requires Run(s, a, m) && Run(m, b, t)
    ensures Run(s, a + b, t)
    decreases a
  {
    if a == [] {
      assert a + b == b;
    } else {
      assert (a + b)[1..] == a[1..] + b;
      RunConcat(Step(s, a[0]), a[1..], m, b, t);
    }
  }

  lemma Trip(s: State) returns (more: seq<Action>, t: State)
    requires Loose(s)
    ensures Run(s, more, t) && Tripped(t)
  {
    more, t := DrainOrTrip(s);
    if !Tripped(t) {
      var m, rest := t, [];
      rest, t := TripFromEmpty(m);
      RunConcat(s, more, m, rest, t);
      more := more + rest;
    }
  }

  /** Some run from `s`, without a refusal, trips the assertion after sem_trywait. */
  ghost predicate CanTrip(s: State) {
    exists more, t :: Run(s, more, t) && Tripped(t)
  }

  /** After a refused ordinary enqueue some further run, without another refusal,
      lets an enqueuer in while ops are to be recycled, if and only if the frame
      was not to carry the recycle bit. If it was, the flow is stranded instead. */
  lemma RefusalTripsTheAssertionIff(s: State, op: Op)
    requires Inv(s) && s.sem > 0 && |s.ring| < s.capacity
    ensures CanTrip(EnqueueIoFailure(s, op)) <==> !s.recycle
  {
    var f := EnqueueIoFailure(s, op);
    if s.recycle {
      LostBitStrandsTheFlow(s, op);
      forall more, t | Run(f, more, t) ensures !Tripped(t) { StrandedForever(f, more, t); }
    } else {
      var more, t := Trip(f);
      assert Run(f, more, t) && Tripped(t);
    }
  }
}
