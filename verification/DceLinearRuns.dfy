/** Every interleaving without a refused frame is a run of the session. */
module DceLinearRuns {
  import opened DceSession
  import DceRuns
  import Th = DceThreads
  import opened DceLinear
  import opened DceLinearRing
  import opened DceLinearSteps

  // ----- every run -----

  /** The step of the session that takes effect at this move, if any. */
  function Effects(w: Whole, v: Move): seq<Action>
    requires Enabled(w, v)
  {
    match v
    case Answers(r) => [HardwareAnswer(r)]
    case CallsBack(k) => if k >= P(w) then [Callback(k - P(w))] else []
    case Thread(t, _, _, _, _) =>
      if w.threads[t].EnqAlloced? || w.threads[t].RecAlloced? then [SendAction(w, t)]
      else if AccountsNow(w, v) then [DequeueOps(1)]
      else if SettlesNow(w, v) then [SettleAction(w, v)]
      else []
  }

  predicate Touches(w: Whole, v: Move)
    requires v.Thread? && Enabled(w, v)
  {
    var pc := w.threads[v.t];
    || pc.EnqAlloced? || pc.RecAlloced? || pc.DeqFree? || pc.EnqPosted? || pc.RecSent?
    || (pc.DeqLoop? && v.c.HeadSuspended?) || AccountsNow(w, v) || SettlesNow(w, v) || Fills(w, v)
  }

  lemma OtherwisePlain(w: Whole, v: Move)
    requires Linked(w) && v.Thread? && Enabled(w, v) && !Touches(w, v)
    ensures Plain(w, v)
  {
    assert Th.Local(w.m, w.threads[v.t]);
  }

  lemma ThreadKeeps(w: Whole, v: Move)
    requires Linked(w) && v.Thread? && Enabled(w, v)
    requires !w.threads[v.t].EnqAlloced? && !w.threads[v.t].RecAlloced? && !AccountsNow(w, v) && !SettlesNow(w, v)
    ensures Linked(Take(w, v)) && Take(w, v).a == w.a
  {
    var pc := w.threads[v.t];
    if pc.DeqLoop? && v.c.HeadSuspended? {
      LookKeeps(w, v);
    } else if pc.DeqFree? {
      PopKeeps(w, v);
    } else if pc.EnqPosted? || pc.RecSent? {
      MarkKeeps(w, v);
    } else if Fills(w, v) {
      FillKeeps(w, v);
    } else {
      OtherwisePlain(w, v);
      PlainKeeps(w, v);
    }
  }

  /** `b` is `a`, or one legal step further. */
  predicate AtMostOneStep(a: State, e: seq<Action>, b: State) {
    if e == [] then b == a else |e| == 1 && Legal(a, e[0]) && b == Step(a, e[0])
  }

  lemma ThreadSimulates(w: Whole, v: Move)
    requires Linked(w) && v.Thread? && Enabled(w, v)
    ensures Linked(Take(w, v)) && AtMostOneStep(w.a, Effects(w, v), Take(w, v).a)
  {
    if w.threads[v.t].EnqAlloced? || w.threads[v.t].RecAlloced? {
      SendKeeps(w, v);
    } else if AccountsNow(w, v) {
      AccountKeeps(w, v);
    } else if SettlesNow(w, v) {
      SettleKeeps(w, v);
    } else {
      ThreadKeeps(w, v);
    }
  }

  /** Every move is a legal step of the session, or none, and keeps memory linked
      to it. */
  lemma TakeSimulates(w: Whole, v: Move)
    requires Linked(w) && Enabled(w, v)
    ensures Linked(Take(w, v)) && AtMostOneStep(w.a, Effects(w, v), Take(w, v).a)
  {
    match v
    case Answers(r) => AnswerKeeps(w, r);
    case CallsBack(k) => CallBackKeeps(w, k);
    case Thread(_, _, _, _, _) => ThreadSimulates(w, v);
  }

  lemma Prepend(a: State, b: State, e: seq<Action>, rest: seq<Action>, c: State)
    requires AtMostOneStep(a, e, b) && DceSession.Run(b, rest, c)
    ensures DceSession.Run(a, e + rest, c)
  {
    if e == [] { assert e + rest == rest; } else { assert (e + rest)[1..] == rest; }
  }

  /** Every interleaving without a refused frame is, at the instants where calls
      take effect, a run of the session. */
  lemma {:induction false} RunIsSessionRun(w: Whole, moves: seq<Move>, v: Whole) returns (actions: seq<Action>)
    requires Linked(w) && DceLinear.Run(w, moves, v)
    ensures Linked(v) && DceSession.Run(w.a, actions, v.a)
    decreases moves
  {
    actions := [];
    if moves != [] {
      TakeSimulates(w, moves[0]);
      var n := Take(w, moves[0]);
      actions := RunIsSessionRun(n, moves[1..], v);
      Prepend(w.a, n.a, Effects(w, moves[0]), actions, v.a);
      actions := Effects(w, moves[0]) + actions;
    }
  }

  lemma StartIsLinked(threads: nat, capacity: nat)
    ensures Linked(Start(threads, capacity))
  {
    var w := Start(threads, capacity);
    Th.EverySchedule(threads, capacity, [], Threads(w));
    DceRuns.EveryRun(capacity, [], Init(capacity));
    SumZero(w.threads, Popped);
    SumZero(w.threads, Releasing);
    assert P(w) == 0 && R(w) == 0;
    forall u | 0 <= u < |w.threads| ensures Knows(w.threads[u], w.locals[u], w.m, w.x, w.a, 0) {
      assert w.threads[u].Idle?;
    }
  }
}
