/** The other steps that change the session, the hardware's among them. */
module DceLinearSteps {
  import opened DceSession
  import DceRuns
  import Th = DceThreads
  import opened DceLinear
  import opened DceLinearRing

  // ----- discard and acknowledge -----

  /** Only the recycle fields and the log of the session change. */
  predicate OnlyFields(a: State, b: State) {
    b == a.(sem := b.sem, todo := b.todo, allowed := b.allowed, recycle := b.recycle, streamEnd := b.streamEnd,
        log := b.log)
  }

  lemma FieldsData(m: Th.Shared, n: Th.Shared, x: Data, y: Data, a: State, b: State, p: nat)
    requires Counts(m, x, a, p) && RingOk(m, x, a, p) && OnlyFields(a, b)
    requires n.capacity == m.capacity && n.alloc == m.alloc && n.sent == m.sent
    requires y == x.(recycle := y.recycle, streamEnd := y.streamEnd, log := b.log)
    ensures Counts(n, y, b, p) && RingOk(n, y, b, p)
  {
  }

  lemma FieldsOther(pc: Th.Pc, l: Local, m: Th.Shared, n: Th.Shared, x: Data, y: Data, a: State, b: State, p: nat)
    requires Counts(m, x, a, p) && Knows(pc, l, m, x, a, p) && Counts(n, y, b, p) && OnlyFields(a, b)
    requires n.sent == m.sent && y == x.(recycle := y.recycle, streamEnd := y.streamEnd, log := b.log)
    requires !Th.HoldsMutex(pc) && Th.Unsent(pc) == 0
    ensures Knows(pc, l, n, y, b, p)
  {
  }

  predicate SettlesNow(w: Whole, v: Move) {
    && v.Thread? && Enabled(w, v)
    && ((w.threads[v.t].DisLocked? && w.m.allowed) || (w.threads[v.t].AckLocked? && w.m.todo > 0 && !w.m.allowed))
  }

  function SettleAction(w: Whole, v: Move): Action
    requires SettlesNow(w, v)
  {
    if w.threads[v.t].DisLocked? then DiscardOp else if w.locals[v.t].aborts then AbortStream else ContinueStream
  }

  lemma SettleTake(w: Whole, v: Move)
    requires Linked(w) && SettlesNow(w, v)
    ensures var n := Take(w, v);
            && Legal(w.a, SettleAction(w, v)) && n.a == Step(w.a, SettleAction(w, v)) && OnlyFields(w.a, n.a)
            && n.m.alloc == w.m.alloc && n.m.sent == w.m.sent && P(n) == P(w) && U(n) == U(w) == 0
            && FieldsOk(n.m, n.a, R(n)) && FlagsOk(n.x, n.a, 0)
            && n.x == w.x.(recycle := n.x.recycle, streamEnd := n.x.streamEnd, log := n.a.log)
            && (n.threads[v.t].DisPost? || n.threads[v.t].Unlocking?)
    ensures forall u :: 0 <= u < |w.threads| && u != v.t ==>
              !Th.HoldsMutex(w.threads[u]) && Th.Unsent(w.threads[u]) == 0
  {
    StepBasics(w, v);
    LinkedMeansNoneFailed(w);
    assert Th.Local(w.m, w.threads[v.t]);
    HolderFacts(w, v.t);
    RecyclerFacts(w, v.t);
  }

  lemma SettleGlobal(w: Whole, v: Move)
    requires Linked(w) && SettlesNow(w, v)
    ensures Global(Take(w, v))
  {
    StepBasics(w, v);
    SettleTake(w, v);
    DceRuns.StepKeeps(w.a, SettleAction(w, v));
    FieldsData(w.m, Take(w, v).m, w.x, Take(w, v).x, w.a, Take(w, v).a, P(w));
  }

  lemma SettleKeeps(w: Whole, v: Move)
    requires Linked(w) && SettlesNow(w, v)
    ensures Linked(Take(w, v)) && Legal(w.a, SettleAction(w, v)) && Take(w, v).a == Step(w.a, SettleAction(w, v))
  {
    SettleTake(w, v);
    SettleGlobal(w, v);
    var n := Take(w, v);
    forall u | 0 <= u < |w.threads| && u != v.t ensures Knows(w.threads[u], w.locals[u], n.m, n.x, n.a, P(n)) {
      assert Knows(w.threads[u], w.locals[u], w.m, w.x, w.a, P(w));
      FieldsOther(w.threads[u], w.locals[u], w.m, n.m, w.x, n.x, w.a, n.a, P(w));
    }
    Conclude(w, v);
  }

  // ----- the hardware answers and calls back -----

  lemma AnswerLegal(w: Whole, r: Reply)
    requires Linked(w) && Enabled(w, Answers(r))
    ensures MayAnswer(w.a, r) && Inv(Answer(w.a, r))
  {
    var k := |w.x.answers|;
    assert Match(w.x.ring[k], w.a.ring[k - P(w)]);
    DceRuns.AnswerKeeps(w.a, r);
  }

  /** A step of the hardware: no thread moves, and the fields stay. */
  lemma HardwareKeeps(w: Whole, n: Whole)
    requires Linked(w) && n == w.(x := n.x, a := n.a) && Inv(n.a)
    requires n.x ==
        w.x.(ring := n.x.ring, answers := n.x.answers, hwSuspended := n.x.hwSuspended, inFlight := n.x.inFlight,
            log := n.x.log)
    requires n.a.todo == w.a.todo && n.a.allowed == w.a.allowed && n.a.recycle == w.a.recycle
        && n.a.streamEnd == w.a.streamEnd
    requires Counts(n.m, n.x, n.a, P(w)) && RingOk(n.m, n.x, n.a, P(w))
    requires forall u :: 0 <= u < |w.threads| ==> Knows(w.threads[u], w.locals[u], n.m, n.x, n.a, P(w))
    ensures Linked(n)
  {
    assert P(n) == P(w) && R(n) == R(w) && U(n) == U(w) && Threads(n) == Threads(w);
  }

  lemma AnswerData(m: Th.Shared, x: Data, a: State, p: nat, r: Reply)
    requires Counts(m, x, a, p) && RingOk(m, x, a, p)
    ensures var b := Answer(a, r);
            var y := WithAnswer(x, r);
            Counts(m, y, b, p) && RingOk(m, y, b, p)
  {
    assert (x.answers + [r])[p..] == x.answers[p..] + [r];
  }

  lemma AnswerOther(pc: Th.Pc, l: Local, m: Th.Shared, x: Data, y: Data, a: State, p: nat, r: Reply)
    requires Counts(m, x, a, p) && Knows(pc, l, m, x, a, p) && Counts(m, y, Answer(a, r), p)
    requires y == x.(answers := y.answers, hwSuspended := y.hwSuspended, log := y.log)
    ensures Knows(pc, l, m, y, Answer(a, r), p)
  {
  }

  lemma AnswerKeeps(w: Whole, r: Reply)
    requires Linked(w) && Enabled(w, Answers(r))
    ensures Linked(Take(w, Answers(r))) && Legal(w.a, HardwareAnswer(r))
    ensures Take(w, Answers(r)).a == Step(w.a, HardwareAnswer(r))
  {
    AnswerLegal(w, r);
    var n, p := Take(w, Answers(r)), P(w);
    AnswerData(w.m, w.x, w.a, p, r);
    forall u | 0 <= u < |w.threads| ensures Knows(w.threads[u], w.locals[u], n.m, n.x, n.a, p) {
      assert Knows(w.threads[u], w.locals[u], w.m, w.x, w.a, p);
      AnswerOther(w.threads[u], w.locals[u], w.m, w.x, n.x, w.a, p, r);
    }
    HardwareKeeps(w, n);
  }

  lemma CallBackLegal(w: Whole, k: nat)
    requires Linked(w) && Enabled(w, CallsBack(k))
    ensures P(w) <= k < w.m.sent && MayComplete(w.a, k - P(w)) && w.x.ring[k] == w.a.ring[k - P(w)]
    ensures Inv(Complete(w.a, k - P(w)))
  {
    var p := P(w);
    assert HardwareLaw(w.a);
    if p > 0 {
      var t := Th.SumWitness(w.threads, Popped);
      HolderFacts(w, t);
      assert Knows(w.threads[t], w.locals[t], w.m, w.x, w.a, p);
    }
    assert Match(w.x.ring[k], w.a.ring[k - p]);
    DceRuns.CompleteKeeps(w.a, k - p);
  }

  lemma CallBackOther(pc: Th.Pc, l: Local, m: Th.Shared, x: Data, y: Data, a: State, b: State, k: nat, p: nat)
    requires Counts(m, x, a, p) && Knows(pc, l, m, x, a, p) && p <= k < m.sent && x.ring[k].state.Todo?
    requires MayComplete(a, k - p) && b == Complete(a, k - p) && Counts(m, y, b, p)
    requires y == x.(ring := y.ring, inFlight := y.inFlight) && |y.ring| == |x.ring|
    requires forall i :: 0 <= i < |x.ring| && i != k ==> y.ring[i] == x.ring[i]
    requires Th.Unsent(pc) == 1 ==> m.alloc == m.sent + 1
    ensures Knows(pc, l, m, y, b, p)
  {
  }

  lemma CallBackData(m: Th.Shared, x: Data, a: State, k: nat, p: nat)
    requires Counts(m, x, a, p) && RingOk(m, x, a, p) && p <= k < m.sent && MayComplete(a, k - p)
    requires x.ring[k] == a.ring[k - p] && k < |x.answers|
    ensures var y := x.(ring := x.ring[k := CompletedUnit(x.ring[k], x.answers[k])], inFlight := x.inFlight - 1);
            Counts(m, y, Complete(a, k - p), p) && RingOk(m, y, Complete(a, k - p), p)
  {
    var b := Complete(a, k - p);
    forall i | p <= i < m.sent && i != k ensures Match(x.ring[i], b.ring[i - p]) {
      assert Match(x.ring[i], a.ring[i - p]);
    }
  }

  lemma CallBackKeeps(w: Whole, k: nat)
    requires Linked(w) && Enabled(w, CallsBack(k))
    ensures Linked(Take(w, CallsBack(k))) && k >= P(w) && Legal(w.a, Callback(k - P(w)))
    ensures Take(w, CallsBack(k)).a == Step(w.a, Callback(k - P(w)))
  {
    CallBackLegal(w, k);
    var n, p := Take(w, CallsBack(k)), P(w);
    CallBackData(w.m, w.x, w.a, k, p);
    forall u | 0 <= u < |w.threads| ensures Knows(w.threads[u], w.locals[u], n.m, n.x, n.a, p) {
      assert Knows(w.threads[u], w.locals[u], w.m, w.x, w.a, p);
      if Th.Unsent(w.threads[u]) == 1 { UnsentIsLast(w, u); }
      CallBackOther(w.threads[u], w.locals[u], w.m, w.x, n.x, w.a, n.a, k, p);
    }
    HardwareKeeps(w, n);
  }
}
