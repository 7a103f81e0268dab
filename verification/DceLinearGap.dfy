/** When the gap assertion of the dequeuer is false. */
module DceLinearGap {
  import opened DceSession
  import Th = DceThreads
  import opened DceLinear
  import opened DceLinearRing
  import opened DceLinearRuns
  import opened DceLinearQuiet

  // ----- when the assertion fails -----

  /** A finished head and more than two units: the dequeuer makes the assertion. */
  predicate AssertionMade(w: Whole) {
    |w.x.ring| > 2 && w.x.ring[0].state.Done?
  }

  /** The unit behind the head is FREE. */
  predicate GapSeen(w: Whole) {
    AssertionMade(w) && w.x.ring[1].state.Free?
  }

  lemma AtMostOneUnsent(w: Whole)
    requires Linked(w)
    ensures w.m.alloc <= w.m.sent + 1
  {
    if U(w) > 0 {
      var u := Th.SumWitness(w.threads, Th.Unsent);
      UnsentIsLast(w, u);
    }
  }

  lemma NothingPopped(w: Whole)
    requires Linked(w) && |w.x.ring| > 0 && !w.x.ring[0].state.Free?
    ensures P(w) == 0
  {
    forall u | 0 <= u < |w.threads| ensures Popped(w.threads[u]) == 0 {
      assert Knows(w.threads[u], w.locals[u], w.m, w.x, w.a, P(w));
    }
    SumZero(w.threads, Popped);
  }

  /** A thread whose mark for unit `k` of the ring is due. */
  ghost predicate MarkDueAt(w: Whole, k: nat) {
    && |w.locals| == |w.threads|
    && exists t :: 0 <= t < |w.threads| && Marks(w.threads[t]) && w.locals[t].slot == w.x.base + k
  }

  lemma GapIsDue(w: Whole)
    requires Linked(w) && Excused(w) && GapSeen(w)
    ensures MarkDueAt(w, 1)
  {
    AtMostOneUnsent(w);
    NothingPopped(w);
    assert FreeAt(w.x, P(w), w.m.sent, 1);
    assert HasExcuse(w.threads, w.locals, w.x, 1);
  }

  lemma DueIsGap(w: Whole)
    requires Linked(w) && AssertionMade(w) && MarkDueAt(w, 1)
    ensures GapSeen(w)
  {
    var t :| 0 <= t < |w.threads| && Marks(w.threads[t]) && w.locals[t].slot == w.x.base + 1;
    assert Knows(w.threads[t], w.locals[t], w.m, w.x, w.a, P(w));
  }

  /** The assertion fails exactly when the thread that sent the second unit has
      not marked it yet. */
  lemma GapIff(threads: nat, capacity: nat, moves: seq<Move>, w: Whole)
    requires DceLinear.Run(Start(threads, capacity), moves, w) && AssertionMade(w)
    ensures GapSeen(w) <==> MarkDueAt(w, 1)
  {
    StartIsLinked(threads, capacity);
    RunExcused(Start(threads, capacity), moves, w);
    if GapSeen(w) { GapIsDue(w); }
    if MarkDueAt(w, 1) { DueIsGap(w); }
  }

  // ----- one sender at a time -----

  predicate Sending(pc: Th.Pc) {
    || pc.EnqEntered? || pc.EnqAlloced? || pc.EnqSent? || pc.EnqPosted?
    || pc.RecLocked? || pc.RecAlloced? || pc.RecSent?
  }

  /** At most one thread is between the start of a send and its TODO mark. */
  ghost predicate OneSender(w: Whole) {
    forall t, u :: 0 <= t < u < |w.threads| ==> !Sending(w.threads[t]) || !Sending(w.threads[u])
  }

  ghost predicate OneSenderRun(w: Whole, moves: seq<Move>, v: Whole)
    requires DceLinear.Run(w, moves, v)
    decreases moves
  {
    OneSender(w) && (moves != [] ==> OneSenderRun(Take(w, moves[0]), moves[1..], v))
  }

  /** The unit to be marked is the last of the ring. */
  predicate MarksLast(pc: Th.Pc, l: Local, m: Th.Shared, x: Data) {
    Marks(pc) ==> l.slot + 1 == x.base + m.sent && m.alloc == m.sent
  }

  ghost predicate MarkIsLast(w: Whole) {
    |w.locals| == |w.threads|
    && forall t :: 0 <= t < |w.threads| ==> MarksLast(w.threads[t], w.locals[t], w.m, w.x)
  }

  /** A thread that sends nothing keeps the end of the ring where it is. */
  lemma EndStays(w: Whole, v: Move)
    requires Linked(w) && v.Thread? && Enabled(w, v)
    requires !Sending(w.threads[v.t]) && !Sending(NextPc(w, v.t, v.c))
    ensures var n := Take(w, v);
            n.x.base + n.m.sent == w.x.base + w.m.sent && n.m.alloc + w.m.sent == w.m.alloc + n.m.sent
  {
    if w.threads[v.t].DeqFree? {
      PopTake(w, v);
    }
    assert Th.Local(w.m, w.threads[v.t]) && Knows(w.threads[v.t], w.locals[v.t], w.m, w.x, w.a, P(w));
  }

  /** How a thread comes to have a mark to make. */
  lemma MarkComesFrom(m: Th.Shared, pc: Th.Pc, t: nat, c: Th.Choice)
    requires Th.MayMove(m, pc, c) && Marks(Th.Move(m, pc, t, c).0)
    ensures pc.EnqAlloced? || pc.RecAlloced? || (pc.EnqSent? && Th.Move(m, pc, t, c).1 == Th.Post(m))
  {
  }

  lemma OwnSendIsLast(w: Whole, v: Move)
    requires Linked(w) && v.Thread? && Enabled(w, v)
    requires w.threads[v.t].EnqAlloced? || w.threads[v.t].RecAlloced?
    ensures var n := Take(w, v); MarksLast(n.threads[v.t], n.locals[v.t], n.m, n.x)
  {
    SendIsStep(w, v.t);
    SendTake(w, v);
    SendGlobal(w, v);
  }

  /** The sender itself. */
  lemma OwnMarkIsLast(w: Whole, v: Move)
    requires Linked(w) && MarkIsLast(w) && v.Thread? && Enabled(w, v)
    ensures var n := Take(w, v); MarksLast(n.threads[v.t], n.locals[v.t], n.m, n.x)
  {
    if Marks(NextPc(w, v.t, v.c)) {
      MarkComesFrom(w.m, w.threads[v.t], v.t, v.c);
      if w.threads[v.t].EnqSent? {
        assert MarksLast(w.threads[v.t], w.locals[v.t], w.m, w.x);
      } else {
        OwnSendIsLast(w, v);
      }
    }
  }

  lemma TakeMarksLast(w: Whole, v: Move)
    requires Linked(w) && MarkIsLast(w) && Enabled(w, v) && OneSender(w) && OneSender(Take(w, v))
    ensures MarkIsLast(Take(w, v))
  {
    var n := Take(w, v);
    if v.Thread? {
      StepBasics(w, v);
      OwnMarkIsLast(w, v);
    }
    forall t | 0 <= t < |n.threads| ensures MarksLast(n.threads[t], n.locals[t], n.m, n.x) {
      if !v.Thread? || v.t != t {
        assert MarksLast(w.threads[t], w.locals[t], w.m, w.x) && n.threads[t] == w.threads[t];
        if v.Thread? && Marks(w.threads[t]) {
          assert !Sending(w.threads[v.t]) && !Sending(n.threads[v.t]);
          EndStays(w, v);
        }
      }
    }
  }

  lemma {:induction false} RunMarksLast(w: Whole, moves: seq<Move>, v: Whole)
    requires DceLinear.Run(w, moves, v) && OneSenderRun(w, moves, v) && Linked(w) && MarkIsLast(w)
    ensures MarkIsLast(v)
    decreases moves
  {
    if moves != [] {
      TakeSimulates(w, moves[0]);
      assert OneSender(Take(w, moves[0]));
      TakeMarksLast(w, moves[0]);
      RunMarksLast(Take(w, moves[0]), moves[1..], v);
    }
  }

  /** With one sender at a time the assertion never fails. */
  lemma OneSenderSeesNoGap(threads: nat, capacity: nat, moves: seq<Move>, w: Whole)
    requires DceLinear.Run(Start(threads, capacity), moves, w)
    requires OneSenderRun(Start(threads, capacity), moves, w)
    ensures !GapSeen(w)
  {
    StartIsLinked(threads, capacity);
    RunMarksLast(Start(threads, capacity), moves, w);
    if AssertionMade(w) {
      RunExcused(Start(threads, capacity), moves, w);
      GapIff(threads, capacity, moves, w);
      forall t | 0 <= t < |w.threads| && Marks(w.threads[t]) ensures w.locals[t].slot != w.x.base + 1 {
        assert MarksLast(w.threads[t], w.locals[t], w.m, w.x);
      }
    }
  }

  // ----- a run that fails it -----

  lemma {:induction false} RunExtends(w: Whole, moves: seq<Move>, m: Whole, v: Move)
    requires DceLinear.Run(w, moves, m) && Enabled(m, v)
    ensures DceLinear.Run(w, moves + [v], Take(m, v))
    decreases moves
  {
    if moves == [] {
      assert (moves + [v])[1..] == [];
    } else {
      assert (moves + [v])[1..] == moves[1..] + [v];
      RunExtends(Take(w, moves[0]), moves[1..], m, v);
    }
  }

  lemma EnqueueEntered(s: Whole, before: seq<Move>, w: Whole, t: nat, op: Op) returns (moves: seq<Move>, n: Whole)
    requires DceLinear.Run(s, before, w) && |w.locals| == |w.threads| && t < |w.threads| && w.threads[t].Idle?
    requires w.m.sem > 0
    ensures DceLinear.Run(s, moves, n) && n.threads == w.threads[t := Th.EnqEntered]
    ensures n.locals == w.locals[t := w.locals[t].(op := op, aborts := false, max := 1, count := 0)]
    ensures n.m == w.m.(sem := w.m.sem - 1) && n.x == w.x
  {
    var v := Thread(t, Th.CallEnqueue, op, false, 1);
    RunExtends(s, before, w, v);
    moves, n := before + [v], Take(w, v);
  }

  lemma EnqueueFilled(s: Whole, before: seq<Move>, w: Whole, t: nat, op: Op) returns (moves: seq<Move>, n: Whole)
    requires DceLinear.Run(s, before, w) && |w.locals| == |w.threads| && t < |w.threads| && w.threads[t].Idle?
    requires w.m.sem > 0 && w.m.alloc < w.m.capacity
    ensures DceLinear.Run(s, moves, n) && n.threads == w.threads[t := Th.EnqAlloced]
    ensures |n.locals| == |w.locals| && n.locals == w.locals[t := n.locals[t]]
    ensures n.m == w.m.(sem := w.m.sem - 1, alloc := w.m.alloc + 1) && n.x == Fill(w.x, op)
  {
    var w1;
    moves, w1 := EnqueueEntered(s, before, w, t, op);
    var v := Thread(t, Th.Go, op, false, 1);
    RunExtends(s, moves, w1, v);
    moves, n := moves + [v], Take(w1, v);
    assert n.locals == w.locals[t := n.locals[t]];
  }

  lemma SendFilled(s: Whole, before: seq<Move>, w: Whole, t: nat) returns (moves: seq<Move>, n: Whole)
    requires DceLinear.Run(s, before, w) && |w.locals| == |w.threads| && t < |w.threads| && w.threads[t].EnqAlloced?
        && |w.x.ring| > 0
    ensures DceLinear.Run(s, moves, n) && n.threads == w.threads[t := Th.EnqSent]
    ensures |n.locals| == |w.locals| && n.locals == w.locals[t := n.locals[t]]
    ensures n.locals[t].slot == w.x.base + |w.x.ring| - 1
    ensures n.m == w.m.(sent := w.m.sent + 1) && n.x == w.x.(inFlight := w.x.inFlight + 1, log := n.x.log)
  {
    var v := Thread(t, Th.DriverAccepts, NO_OP, false, 1);
    RunExtends(s, before, w, v);
    moves, n := before + [v], Take(w, v);
  }

  lemma PostSent(s: Whole, before: seq<Move>, w: Whole, t: nat) returns (moves: seq<Move>, n: Whole)
    requires DceLinear.Run(s, before, w) && |w.locals| == |w.threads| && t < |w.threads| && w.threads[t].EnqSent?
    ensures DceLinear.Run(s, moves, n) && n.threads == w.threads[t := Th.EnqPosted] && n.locals == w.locals
    ensures n.m == w.m.(sem := w.m.sem + 1) && n.x == w.x
  {
    var v := Thread(t, Th.Go, NO_OP, false, 1);
    RunExtends(s, before, w, v);
    moves, n := before + [v], Take(w, v);
    assert n.locals == w.locals;
  }

  /** A thread enqueues an op up to the point where its TODO mark is due. */
  lemma EnqueueUnmarked(s: Whole, before: seq<Move>, w: Whole, t: nat, op: Op) returns (moves: seq<Move>, n: Whole)
    requires DceLinear.Run(s, before, w) && |w.locals| == |w.threads| && t < |w.threads| && w.threads[t].Idle?
    requires w.m.sem > 0 && w.m.alloc < w.m.capacity
    ensures DceLinear.Run(s, moves, n) && n.threads == w.threads[t := Th.EnqPosted]
    ensures |n.locals| == |w.locals| && n.locals == w.locals[t := n.locals[t]]
    ensures n.locals[t].slot == w.x.base + |w.x.ring|
    ensures n.m == w.m.(alloc := w.m.alloc + 1, sent := w.m.sent + 1)
    ensures n.x == Fill(w.x, op).(inFlight := w.x.inFlight + 1, log := n.x.log)
  {
    moves, n := EnqueueFilled(s, before, w, t, op);
    moves, n := SendFilled(s, moves, n, t);
    moves, n := PostSent(s, moves, n, t);
  }

  lemma MarkDue(s: Whole, before: seq<Move>, w: Whole, t: nat) returns (moves: seq<Move>, n: Whole)
    requires DceLinear.Run(s, before, w) && |w.locals| == |w.threads| && t < |w.threads| && w.threads[t].EnqPosted?
    ensures DceLinear.Run(s, moves, n) && n.threads == w.threads[t := Th.Idle] && n.locals == w.locals && n.m == w.m
    ensures n.x == Mark(w.x, w.locals[t].slot, Todo)
  {
    var v := Thread(t, Th.Go, NO_OP, false, 1);
    RunExtends(s, before, w, v);
    moves, n := before + [v], Take(w, v);
    assert n.locals == w.locals;
  }

  /** Three units in flight, the TODO marks of the second and third still due. */
  lemma ThreeInFlight() returns (moves: seq<Move>, w: Whole)
    ensures DceLinear.Run(Start(2, 3), moves, w) && w.threads == [Th.EnqPosted, Th.EnqPosted] && |w.locals| == 2
    ensures w.m.sent == 3 && w.m.owner == -1 && w.x.answers == [] && !w.x.hwSuspended && w.x.inFlight == 3
    ensures |w.x.ring| == 3 && w.x.ring[0].state.Todo? && w.x.ring[1].state.Free?
    ensures w.x.base == 0 && w.locals[0].slot == 2
  {
    var s := Start(2, 3);
    moves, w := EnqueueUnmarked(s, [], s, 0, NO_OP);
    moves, w := MarkDue(s, moves, w, 0);
    assert |w.x.ring| == 1 && w.x.ring[0].state.Todo? && w.x.base == 0;
    moves, w := EnqueueUnmarked(s, moves, w, 1, NO_OP);
    assert |w.x.ring| == 2 && w.x.ring[0].state.Todo? && w.x.ring[1].state.Free?;
    moves, w := EnqueueUnmarked(s, moves, w, 0, NO_OP);
  }

  /** The first unit comes back. */
  lemma FirstComesBack(s: Whole, before: seq<Move>, w: Whole) returns (moves: seq<Move>, n: Whole)
    requires DceLinear.Run(s, before, w) && w.m.sent == 3 && w.x.answers == [] && !w.x.hwSuspended
    requires w.x.inFlight > 0 && |w.x.ring| == 3 && w.x.ring[0].state.Todo?
    ensures DceLinear.Run(s, moves, n) && n.threads == w.threads && n.locals == w.locals && n.m == w.m
    ensures n.x.base == w.x.base && |n.x.ring| == 3 && n.x.ring[0].state.Done? && n.x.ring[1..] == w.x.ring[1..]
  {
    var r := Answers(Reply(FULLY_PROCESSED, NoFlush, 0, 0));
    RunExtends(s, before, w, r);
    moves, n := before + [r], Take(w, r);
    RunExtends(s, moves, n, CallsBack(0));
    moves, n := moves + [CallsBack(0)], Take(n, CallsBack(0));
  }

  lemma CallsDequeue(s: Whole, before: seq<Move>, w: Whole, t: nat) returns (moves: seq<Move>, n: Whole)
    requires DceLinear.Run(s, before, w) && |w.locals| == |w.threads| && t < |w.threads| && w.threads[t].Idle?
    requires w.m.owner == -1
    ensures DceLinear.Run(s, moves, n) && n.threads == w.threads[t := Th.DeqLoop] && n.x == w.x
  {
    var v := Thread(t, Th.CallDequeue, NO_OP, false, 1);
    RunExtends(s, before, w, v);
    moves, n := before + [v], Take(w, v);
  }

  /** With two threads that enqueue, a dequeuer can stand before the assertion and
      find it false although nothing is wrong: the mark of the second unit is due. */
  lemma GapAssertionCanFail() returns (moves: seq<Move>, w: Whole)
    ensures DceLinear.Run(Start(2, 3), moves, w) && GapSeen(w)
    ensures |w.threads| == 2 && w.threads[0].DeqLoop? && Marks(w.threads[1])
  {
    var s := Start(2, 3);
    moves, w := ThreeInFlight();
    moves, w := FirstComesBack(s, moves, w);
    assert w.x.ring[1] == w.x.ring[1..][0];
    moves, w := MarkDue(s, moves, w, 0);
    moves, w := CallsDequeue(s, moves, w, 0);
  }
}
