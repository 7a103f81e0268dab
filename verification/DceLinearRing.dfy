/** The steps of an interleaving at the ring: the TODO mark and the dequeuer. */
module DceLinearRing {
  import opened DceSession
  import DceRuns
  import Th = DceThreads
  import opened DceLinear

  // ----- the TODO mark -----

  lemma MarkData(m: Th.Shared, n: Th.Shared, x: Data, l: Local, a: State, p: nat)
    requires Counts(m, x, a, p) && RingOk(m, x, a, p) && Unmarked(l, m, x, a, p)
    requires n.capacity == m.capacity && n.alloc == m.alloc && n.sent == m.sent
    ensures var y := Mark(x, l.slot, Todo); Counts(n, y, a, p) && RingOk(n, y, a, p)
  {
  }

  lemma MarkOther(pc: Th.Pc, l: Local, m: Th.Shared, n: Th.Shared, x: Data, k: Local, a: State, p: nat)
    requires Counts(m, x, a, p) && Knows(pc, l, m, x, a, p) && Unmarked(k, m, x, a, p)
    requires Counts(n, Mark(x, k.slot, Todo), a, p) && n.sent == m.sent && n.alloc == m.alloc
    requires Marks(pc) ==> l.slot != k.slot
    requires Th.Unsent(pc) == 1 ==> m.alloc == m.sent + 1
    requires pc.RecAlloced? ==> n.allowed
    ensures Knows(pc, l, n, Mark(x, k.slot, Todo), a, p)
  {
  }

  lemma UnsentIsLast(w: Whole, u: nat)
    requires Linked(w) && u < |w.threads| && Th.Unsent(w.threads[u]) == 1
    ensures w.m.alloc == w.m.sent + 1
  {
    LinkedMeansNoneFailed(w);
    assert Th.Local(w.m, w.threads[u]);
    if w.threads[u].EnqAlloced? { EnqueuerFacts(w, u); } else { RecyclerFacts(w, u); }
  }

  lemma MarkTake(w: Whole, v: Move)
    requires Linked(w) && v.Thread? && Enabled(w, v) && (w.threads[v.t].EnqPosted? || w.threads[v.t].RecSent?)
    ensures var n := Take(w, v);
            && n.x == Mark(w.x, w.locals[v.t].slot, Todo) && n.a == w.a && n.locals[v.t] == w.locals[v.t]
            && n.m.alloc == w.m.alloc && n.m.sent == w.m.sent && P(n) == P(w) && U(n) == U(w)
            && FieldsOk(n.m, n.a, R(n))
            && (n.threads[v.t].Idle? || n.threads[v.t].RecPost? || n.threads[v.t].Unlocking?)
            && (n.m.allowed == w.m.allowed || Th.HoldsMutex(w.threads[v.t]))
  {
    StepBasics(w, v);
    assert Th.Local(w.m, w.threads[v.t]);
    if w.threads[v.t].RecSent? { HolderFacts(w, v.t); }
  }

  lemma MarkGlobal(w: Whole, v: Move)
    requires Linked(w) && v.Thread? && Enabled(w, v) && (w.threads[v.t].EnqPosted? || w.threads[v.t].RecSent?)
    ensures var n := Take(w, v); Global(n) && Knows(n.threads[v.t], n.locals[v.t], n.m, n.x, n.a, P(n))
  {
    StepBasics(w, v);
    MarkTake(w, v);
    var n := Take(w, v);
    assert Knows(w.threads[v.t], w.locals[v.t], w.m, w.x, w.a, P(w));
    MarkData(w.m, n.m, w.x, w.locals[v.t], w.a, P(w));
  }

  lemma MarkKeeps(w: Whole, v: Move)
    requires Linked(w) && v.Thread? && Enabled(w, v) && (w.threads[v.t].EnqPosted? || w.threads[v.t].RecSent?)
    ensures Linked(Take(w, v)) && Take(w, v).a == w.a
  {
    MarkTake(w, v);
    MarkGlobal(w, v);
    var n, l := Take(w, v), w.locals[v.t];
    assert Knows(w.threads[v.t], l, w.m, w.x, w.a, P(w));
    forall u | 0 <= u < |w.threads| && u != v.t ensures Knows(w.threads[u], w.locals[u], n.m, n.x, n.a, P(n)) {
      assert Knows(w.threads[u], w.locals[u], w.m, w.x, w.a, P(w));
      if Th.Unsent(w.threads[u]) == 1 { UnsentIsLast(w, u); }
      if Th.HoldsMutex(w.threads[v.t]) { HolderFacts(w, v.t); }
      MarkOther(w.threads[u], w.locals[u], w.m, n.m, w.x, l, w.a, P(w));
    }
    Conclude(w, v);
  }

  // ----- the dequeuer looks at a suspended head -----

  lemma LookData(m: Th.Shared, n: Th.Shared, x: Data, a: State)
    requires Counts(m, x, a, 0) && RingOk(m, x, a, 0) && m.sent > 0 && x.ring[0].state.Done? && Inv(a)
    requires n.capacity == m.capacity && n.alloc == m.alloc && n.sent == m.sent
    ensures var y := Mark(x, x.base, Free);
            && Counts(n, y, a, 0) && RingOk(n, y, a, 0)
            && a.ring[0] == x.ring[0] && HeadDone(a) && y.ring[0].state.Free?
  {
    assert Match(x.ring[0], a.ring[0 - 0]);
    assert RingMatches(a.ring, a.answers);
  }

  lemma LookOther(pc: Th.Pc, l: Local, m: Th.Shared, n: Th.Shared, x: Data, a: State)
    requires Counts(m, x, a, 0) && Knows(pc, l, m, x, a, 0) && m.sent > 0 && x.ring[0].state.Done?
    requires Counts(n, Mark(x, x.base, Free), a, 0) && n.sent == m.sent
    requires Th.Unsent(pc) == 1 ==> m.alloc == m.sent + 1
    requires !Th.HoldsMutex(pc)
    ensures Knows(pc, l, n, Mark(x, x.base, Free), a, 0)
  {
  }

  lemma LookTake(w: Whole, v: Move)
    requires Linked(w) && v.Thread? && Enabled(w, v) && w.threads[v.t].DeqLoop? && v.c.HeadSuspended?
    ensures var n := Take(w, v);
            && n.x == Mark(w.x, w.x.base, Free) && n.a == w.a && n.m == w.m && P(w) == 0 && P(n) == 0
            && U(n) == U(w) && R(n) == R(w) && Handles(n.threads[v.t])
            && w.m.sent > 0 && w.x.ring[0].state.Done?
    ensures forall u :: 0 <= u < |w.threads| && u != v.t ==> !Th.HoldsMutex(w.threads[u])
  {
    StepBasics(w, v);
    HolderFacts(w, v.t);
  }

  lemma LookKeeps(w: Whole, v: Move)
    requires Linked(w) && v.Thread? && Enabled(w, v) && w.threads[v.t].DeqLoop? && v.c.HeadSuspended?
    ensures Linked(Take(w, v)) && Take(w, v).a == w.a
  {
    StepBasics(w, v);
    LookTake(w, v);
    var n := Take(w, v);
    LookData(w.m, n.m, w.x, w.a);
    forall u | 0 <= u < |w.threads| && u != v.t ensures Knows(w.threads[u], w.locals[u], n.m, n.x, n.a, P(n)) {
      assert Knows(w.threads[u], w.locals[u], w.m, w.x, w.a, P(w));
      if Th.Unsent(w.threads[u]) == 1 { UnsentIsLast(w, u); }
      LookOther(w.threads[u], w.locals[u], w.m, n.m, w.x, w.a);
    }
    Conclude(w, v);
  }

  // ----- the dequeuer accounts for an op -----

  /** The op at the head is handed back; only what a dequeue touches changes. */
  predicate HandsBack(a: State, b: State) {
    && a.ring != [] && a.answers != [] && b.ring == a.ring[1..] && b.answers == a.answers[1..]
    && b.capacity == a.capacity && b.hwSuspended == a.hwSuspended && b.inFlight == a.inFlight
    && b.recycle == a.recycle && b.streamEnd == a.streamEnd
  }

  lemma DequeuedIs(a: State)
    requires Inv(a) && HeadDone(a)
    ensures Legal(a, DequeueOps(1)) && Dequeued(a) == Step(a, DequeueOps(1)) && HandsBack(a, Dequeued(a))
    ensures Inv(Dequeued(a))
    ensures var (b, cls) := (Dequeued(a), Classify(a.ring[0].reply.status));
            match cls
            case Suspend => b.todo == a.todo + |a.ring| && !b.allowed
            case Terminal => b.todo == 0 && !b.allowed
            case _ => b.todo == a.todo && b.allowed == a.allowed
  {
    assert DequeueMany(DequeueOne(a), 0) == DequeueOne(a);
    DceRuns.DequeueOneKeeps(a);
  }

  lemma AccountData(m: Th.Shared, n: Th.Shared, x: Data, y: Data, a: State, b: State)
    requires Counts(m, x, a, 0) && RingOk(m, x, a, 0) && HandsBack(a, b) && m.sent > 0
    requires n.capacity == m.capacity && n.alloc == m.alloc && n.sent == m.sent
    requires |y.ring| == |x.ring| && y.ring[1..] == x.ring[1..] && y.ring[0].state.Free?
    requires y == x.(ring := y.ring, log := b.log)
    ensures Counts(n, y, b, 1) && RingOk(n, y, b, 1)
  {
    forall k | 1 <= k < n.sent ensures Match(y.ring[k], b.ring[k - 1]) {
      assert y.ring[k] == y.ring[1..][k - 1] && Match(x.ring[k], a.ring[k - 0]);
    }
  }

  lemma AccountOther(pc: Th.Pc, l: Local, m: Th.Shared, n: Th.Shared, x: Data, y: Data, a: State, b: State)
    requires Counts(m, x, a, 0) && Knows(pc, l, m, x, a, 0) && HandsBack(a, b) && a.ring[0].state.Done?
    requires |y.ring| == |x.ring| > 0 && y.ring[1..] == x.ring[1..] && y == x.(ring := y.ring, log := b.log)
    requires Counts(n, y, b, 1) && n.sent == m.sent && !Th.HoldsMutex(pc)
    requires Th.Unsent(pc) == 1 ==> m.alloc == m.sent + 1
    ensures Knows(pc, l, n, y, b, 1)
  {
    if Marks(pc) {
      var k := l.slot - x.base;
      assert k != 0;
      assert y.ring[k] == y.ring[1..][k - 1] && x.ring[k] == x.ring[1..][k - 1];
    }
    if pc.EnqAlloced? {
      var k := |x.ring| - 1;
      assert y.ring[k] == y.ring[1..][k - 1] && x.ring[k] == x.ring[1..][k - 1];
    }
  }

  predicate AccountsNow(w: Whole, v: Move) {
    && v.Thread? && Enabled(w, v)
    && (w.threads[v.t].DeqCount? || (w.threads[v.t].DeqLoop? && (v.c.HeadProcessed? || v.c.HeadTerminal?)))
  }

  /** The head is finished, in memory or in hand. */
  lemma AccountHead(w: Whole, v: Move)
    requires Linked(w) && AccountsNow(w, v)
    ensures P(w) == 0 && R(w) == 0 && HeadDone(w.a) && w.m.sent > 0
    ensures w.threads[v.t].DeqCount? ==> Classify(w.a.ring[0].reply.status).Suspend? && w.m.alloc == |w.a.ring|
    ensures w.threads[v.t].DeqLoop? ==> w.a.ring[0] == w.x.ring[0]
    ensures forall u :: 0 <= u < |w.threads| && u != v.t ==> !Th.HoldsMutex(w.threads[u])
  {
    HolderFacts(w, v.t);
    LinkedMeansNoneFailed(w);
    assert Knows(w.threads[v.t], w.locals[v.t], w.m, w.x, w.a, P(w));
    if w.threads[v.t].DeqCount? {
      CounterFacts(w, v.t);
    } else {
      LookData(w.m, w.m, w.x, w.a);
    }
  }

  lemma AccountTake(w: Whole, v: Move)
    requires Linked(w) && AccountsNow(w, v)
    ensures var n := Take(w, v);
            && n.a == Dequeued(w.a) && n.m.alloc == w.m.alloc && n.m.sent == w.m.sent && P(n) == 1 && U(n) == U(w)
                && R(n) == 0
            && Popped(n.threads[v.t]) == 1
            && |n.x.ring| == |w.x.ring| > 0 && n.x.ring[1..] == w.x.ring[1..] && n.x.ring[0].state.Free?
            && n.x == w.x.(ring := n.x.ring, log := n.a.log)
  {
    StepBasics(w, v);
    AccountHead(w, v);
    assert Knows(w.threads[v.t], w.locals[v.t], w.m, w.x, w.a, P(w));
  }

  /** The dequeue switch on the account, and on that of the session. */
  lemma AccountMove(m: Th.Shared, pc: Th.Pc, t: nat, c: Th.Choice, a: State)
    requires Th.MayMove(m, pc, c) && Th.Local(m, pc) && Inv(a) && HeadDone(a) && FieldsOk(m, a, 0)
    requires var cls := Classify(a.ring[0].reply.status);
             || (pc.DeqCount? && cls.Suspend? && m.alloc == |a.ring|)
             || (pc.DeqLoop? && c.HeadProcessed? && (cls.Processed? || cls.Skip?))
             || (pc.DeqLoop? && c.HeadTerminal? && cls.Terminal?)
    ensures FieldsOk(Th.Move(m, pc, t, c).1, Dequeued(a), 0)
  {
    DequeuedIs(a);
  }

  lemma AccountFields(w: Whole, v: Move)
    requires Linked(w) && AccountsNow(w, v)
    ensures FieldsOk(Take(w, v).m, Take(w, v).a, 0)
  {
    AccountHead(w, v);
    AccountMove(w.m, w.threads[v.t], v.t, v.c, w.a);
  }

  lemma AccountKeeps(w: Whole, v: Move)
    requires Linked(w) && AccountsNow(w, v)
    ensures Linked(Take(w, v)) && Legal(w.a, DequeueOps(1)) && Take(w, v).a == Step(w.a, DequeueOps(1))
  {
    StepBasics(w, v);
    AccountHead(w, v);
    AccountTake(w, v);
    AccountFields(w, v);
    DequeuedIs(w.a);
    var n := Take(w, v);
    AccountData(w.m, n.m, w.x, n.x, w.a, n.a);
    forall u | 0 <= u < |w.threads| && u != v.t ensures Knows(w.threads[u], w.locals[u], n.m, n.x, n.a, P(n)) {
      assert Knows(w.threads[u], w.locals[u], w.m, w.x, w.a, P(w));
      if Th.Unsent(w.threads[u]) == 1 { UnsentIsLast(w, u); }
      AccountOther(w.threads[u], w.locals[u], w.m, n.m, w.x, n.x, w.a, n.a);
    }
    Conclude(w, v);
  }

  // ----- the head leaves the ring -----

  lemma PopData(m: Th.Shared, n: Th.Shared, x: Data, a: State)
    requires Counts(m, x, a, 1) && RingOk(m, x, a, 1)
    requires n.capacity == m.capacity && n.alloc + 1 == m.alloc && n.sent + 1 == m.sent
    ensures Counts(n, Pop(x), a, 0) && RingOk(n, Pop(x), a, 0)
    ensures Pop(x) == x.(ring := x.ring[1..], answers := x.answers[1..], base := x.base + 1)
  {
    forall k | 0 <= k < n.sent ensures Match(Pop(x).ring[k], a.ring[k - 0]) {
      assert Match(x.ring[k + 1], a.ring[k + 1 - 1]);
    }
  }

  lemma PopOther(pc: Th.Pc, l: Local, m: Th.Shared, n: Th.Shared, x: Data, a: State)
    requires Counts(m, x, a, 1) && Knows(pc, l, m, x, a, 1) && !Th.HoldsMutex(pc)
    requires n.sent + 1 == m.sent && Counts(n, Pop(x), a, 0)
    requires Pop(x) == x.(ring := x.ring[1..], answers := x.answers[1..], base := x.base + 1)
    requires Th.Unsent(pc) == 1 ==> m.alloc == m.sent + 1
    ensures Knows(pc, l, n, Pop(x), a, 0)
  {
    if Marks(pc) { assert Pop(x).ring[l.slot - x.base - 1] == x.ring[l.slot - x.base]; }
  }

  lemma PopTake(w: Whole, v: Move)
    requires Linked(w) && v.Thread? && Enabled(w, v) && w.threads[v.t].DeqFree?
    ensures var n := Take(w, v);
            && n.x == Pop(w.x) && n.a == w.a && n.m.alloc + 1 == w.m.alloc && n.m.sent + 1 == w.m.sent
            && n.m.todo == w.m.todo && n.m.allowed == w.m.allowed && n.threads[v.t].DeqLoop?
            && P(w) == 1 && P(n) == 0 && R(n) == R(w) && U(n) == U(w) && Global(n)
            && Pop(w.x) == w.x.(ring := w.x.ring[1..], answers := w.x.answers[1..], base := w.x.base + 1)
    ensures forall u :: 0 <= u < |w.threads| && u != v.t ==> !Th.HoldsMutex(w.threads[u])
  {
    StepBasics(w, v);
    HolderFacts(w, v.t);
    assert Th.Local(w.m, w.threads[v.t]);
    PopData(w.m, Take(w, v).m, w.x, w.a);
  }

  lemma PopKeeps(w: Whole, v: Move)
    requires Linked(w) && v.Thread? && Enabled(w, v) && w.threads[v.t].DeqFree?
    ensures Linked(Take(w, v)) && Take(w, v).a == w.a
  {
    PopTake(w, v);
    var n := Take(w, v);
    forall u | 0 <= u < |w.threads| && u != v.t ensures Knows(w.threads[u], w.locals[u], n.m, n.x, n.a, P(n)) {
      assert Knows(w.threads[u], w.locals[u], w.m, w.x, w.a, P(w));
      if Th.Unsent(w.threads[u]) == 1 { UnsentIsLast(w, u); }
      PopOther(w.threads[u], w.locals[u], w.m, n.m, w.x, w.a);
    }
    Conclude(w, v);
  }
}
