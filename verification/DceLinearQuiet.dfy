/** What memory shows when no call is under way, and what that makes of a run. */
module DceLinearQuiet {
  import opened DceSession
  import Th = DceThreads
  import opened DceLinear
  import opened DceLinearRing
  import opened DceLinearSteps
  import opened DceLinearRuns

  // ----- when no call is under way -----

  /** A FREE unit in the ring is one whose mark is due, or the one in the
      dequeuer's hand. */
  predicate Excuse(pc: Th.Pc, l: Local, x: Data, k: int) {
    (Marks(pc) && l.slot == x.base + k) || (Handles(pc) && k == 0)
  }

  ghost predicate HasExcuse(threads: seq<Th.Pc>, locals: seq<Local>, x: Data, k: int)
    requires |locals| == |threads|
  {
    exists t :: 0 <= t < |threads| && Excuse(threads[t], locals[t], x, k)
  }

  predicate FreeAt(x: Data, from: nat, sent: nat, k: int) {
    from <= k < sent && k < |x.ring| && x.ring[k].state.Free?
  }

  ghost predicate AllExcused(threads: seq<Th.Pc>, locals: seq<Local>, x: Data, from: nat, sent: nat)
    requires |locals| == |threads|
  {
    forall k :: FreeAt(x, from, sent, k) ==> HasExcuse(threads, locals, x, k)
  }

  ghost predicate Excused(w: Whole) {
    |w.locals| == |w.threads| && AllExcused(w.threads, w.locals, w.x, P(w), w.m.sent)
  }

  /** The session state that memory shows. */
  function Memory(w: Whole): State {
    State(w.m.capacity, w.x.ring, w.x.answers, w.x.hwSuspended, w.m.sem, w.m.todo, w.m.allowed,
          w.x.recycle, w.x.streamEnd, w.x.inFlight, w.x.log)
  }

  lemma QuietIsSession(w: Whole)
    requires Linked(w) && Excused(w) && Th.Quiet(Threads(w))
    ensures Memory(w) == w.a
  {
    SumZero(w.threads, Popped);
    SumZero(w.threads, Releasing);
    SumZero(w.threads, Th.Unsent);
    Th.QuietFacts(Threads(w));
    assert RingMatches(w.a.ring, w.a.answers);
    forall k | 0 <= k < |w.x.ring| ensures w.x.ring[k] == w.a.ring[k] {
      assert Match(w.x.ring[k], w.a.ring[k - P(w)]);
      assert !HasExcuse(w.threads, w.locals, w.x, k);
      assert !FreeAt(w.x, 0, w.m.sent, k);
    }
    assert w.x.ring == w.a.ring;
    assert w.x.answers[0..] == w.x.answers;
  }

  /** After a step of thread `t`, which may move the head by `d`: every FREE unit
      is its own, or was there and had another excuse, or the same. */
  lemma ExcusedStep(threads: seq<Th.Pc>, locals: seq<Local>, x: Data, from: nat, sent: nat,
                    t: nat, pc: Th.Pc, l: Local, y: Data, from': nat, sent': nat, d: nat)
    requires |locals| == |threads| && t < |threads| && AllExcused(threads, locals, x, from, sent)
    requires y.base == x.base + d && (d == 0 || forall u :: 0 <= u < |threads| && u != t ==> !Handles(threads[u]))
    requires forall k :: FreeAt(y, from', sent', k) ==>
               || Excuse(pc, l, y, k)
               || (FreeAt(x, from, sent, k + d) && !Excuse(threads[t], locals[t], x, k + d))
    ensures AllExcused(threads[t := pc], locals[t := l], y, from', sent')
  {
    var threads', locals' := threads[t := pc], locals[t := l];
    forall k | FreeAt(y, from', sent', k) ensures HasExcuse(threads', locals', y, k) {
      if Excuse(pc, l, y, k) {
        assert Excuse(threads'[t], locals'[t], y, k);
      } else {
        assert HasExcuse(threads, locals, x, k + d);
        var u :| 0 <= u < |threads| && Excuse(threads[u], locals[u], x, k + d);
        assert Excuse(threads'[u], locals'[u], y, k);
      }
    }
  }

  lemma PlainExcused(w: Whole, v: Move)
    requires Linked(w) && Excused(w) && Enabled(w, v) && Plain(w, v)
    ensures Excused(Take(w, v))
  {
    StepBasics(w, v);
    PlainShared(w, v);
    PlainSelfExcuse(w, v);
    var n := Take(w, v);
    ExcusedStep(w.threads, w.locals, w.x, P(w), w.m.sent, v.t, n.threads[v.t], n.locals[v.t], n.x, P(n), n.m.sent, 0);
  }

  lemma PlainSelfExcuse(w: Whole, v: Move)
    requires Linked(w) && Enabled(w, v) && Plain(w, v)
    ensures forall k :: Excuse(w.threads[v.t], w.locals[v.t], w.x, k) ==>
              Excuse(NextPc(w, v.t, v.c), Take(w, v).locals[v.t], Take(w, v).x, k)
  {
  }

  /** The new unit is the thread's own. */
  lemma ExcusedSend(threads: seq<Th.Pc>, locals: seq<Local>, x: Data, from: nat, sent: nat,
                    t: nat, pc: Th.Pc, l: Local, y: Data)
    requires |locals| == |threads| && t < |threads| && AllExcused(threads, locals, x, from, sent)
    requires y.ring == x.ring && y.base == x.base && !Marks(threads[t]) && !Handles(threads[t])
    requires Marks(pc) && l.slot == x.base + sent
    ensures AllExcused(threads[t := pc], locals[t := l], y, from, sent + 1)
  {
    ExcusedStep(threads, locals, x, from, sent, t, pc, l, y, from, sent + 1, 0);
  }

  /** The units that were sent are left alone, except perhaps the head, which
      no longer counts. */
  lemma ExcusedCalm(threads: seq<Th.Pc>, locals: seq<Local>, x: Data, from: nat, sent: nat,
                    t: nat, pc: Th.Pc, l: Local, y: Data, from': nat)
    requires |locals| == |threads| && t < |threads| && AllExcused(threads, locals, x, from, sent)
    requires y.base == x.base && sent <= |x.ring| <= |y.ring| && from <= from' && !Marks(threads[t])
    requires forall k :: from' <= k < sent ==> y.ring[k] == x.ring[k]
    requires Handles(threads[t]) ==> from' > 0
    ensures AllExcused(threads[t := pc], locals[t := l], y, from', sent)
  {
    ExcusedStep(threads, locals, x, from, sent, t, pc, l, y, from', sent, 0);
  }

  lemma SendExcused(w: Whole, v: Move)
    requires Linked(w) && Excused(w) && v.Thread? && Enabled(w, v)
    requires w.threads[v.t].EnqAlloced? || w.threads[v.t].RecAlloced?
    ensures Excused(Take(w, v))
  {
    SendTake(w, v);
    SendGlobal(w, v);
    var n := Take(w, v);
    ExcusedSend(w.threads, w.locals, w.x, P(w), w.m.sent, v.t, n.threads[v.t], n.locals[v.t], n.x);
  }

  lemma MarkExcused(w: Whole, v: Move)
    requires Linked(w) && Excused(w) && v.Thread? && Enabled(w, v)
        && (w.threads[v.t].EnqPosted? || w.threads[v.t].RecSent?)
    ensures Excused(Take(w, v))
  {
    StepBasics(w, v);
    MarkTake(w, v);
    var n := Take(w, v);
    assert Knows(w.threads[v.t], w.locals[v.t], w.m, w.x, w.a, P(w));
    ExcusedStep(w.threads, w.locals, w.x, P(w), w.m.sent, v.t, n.threads[v.t], n.locals[v.t], n.x, P(n), n.m.sent, 0);
  }

  lemma LookExcused(w: Whole, v: Move)
    requires Linked(w) && Excused(w) && v.Thread? && Enabled(w, v) && w.threads[v.t].DeqLoop? && v.c.HeadSuspended?
    ensures Excused(Take(w, v))
  {
    StepBasics(w, v);
    LookTake(w, v);
    var n := Take(w, v);
    ExcusedStep(w.threads, w.locals, w.x, P(w), w.m.sent, v.t, n.threads[v.t], n.locals[v.t], n.x, P(n), n.m.sent, 0);
  }

  lemma AccountExcused(w: Whole, v: Move)
    requires Linked(w) && Excused(w) && AccountsNow(w, v)
    ensures Excused(Take(w, v))
  {
    StepBasics(w, v);
    AccountHead(w, v);
    AccountTake(w, v);
    var n := Take(w, v);
    forall k | 1 <= k < w.m.sent ensures n.x.ring[k] == w.x.ring[k] {
      assert n.x.ring[k] == n.x.ring[1..][k - 1] && w.x.ring[k] == w.x.ring[1..][k - 1];
    }
    ExcusedCalm(w.threads, w.locals, w.x, 0, w.m.sent, v.t, n.threads[v.t], n.locals[v.t], n.x, 1);
  }

  lemma PopExcused(w: Whole, v: Move)
    requires Linked(w) && Excused(w) && v.Thread? && Enabled(w, v) && w.threads[v.t].DeqFree?
    ensures Excused(Take(w, v))
  {
    StepBasics(w, v);
    PopTake(w, v);
    var n := Take(w, v);
    ExcusedStep(w.threads, w.locals, w.x, P(w), w.m.sent, v.t, n.threads[v.t], n.locals[v.t], n.x, P(n), n.m.sent, 1);
  }

  /** Steps that leave the units that were sent alone. */
  lemma CalmExcused(w: Whole, v: Move)
    requires Linked(w) && Excused(w) && v.Thread? && Enabled(w, v) && (Fills(w, v) || SettlesNow(w, v))
    ensures Excused(Take(w, v))
  {
    StepBasics(w, v);
    var n := Take(w, v);
    if SettlesNow(w, v) { SettleTake(w, v); } else { FillTake(w, v); }
    ExcusedCalm(w.threads, w.locals, w.x, P(w), w.m.sent, v.t, n.threads[v.t], n.locals[v.t], n.x, P(w));
  }

  lemma HardwareExcused(w: Whole, v: Move)
    requires Linked(w) && Excused(w) && Enabled(w, v) && !v.Thread?
    ensures Excused(Take(w, v))
  {
    var n := Take(w, v);
    forall k | FreeAt(n.x, P(n), n.m.sent, k) ensures HasExcuse(n.threads, n.locals, n.x, k) {
      assert FreeAt(w.x, P(w), w.m.sent, k) && HasExcuse(w.threads, w.locals, w.x, k);
      var t :| 0 <= t < |w.threads| && Excuse(w.threads[t], w.locals[t], w.x, k);
      assert Excuse(n.threads[t], n.locals[t], n.x, k);
    }
  }

  lemma TakeExcused(w: Whole, v: Move)
    requires Linked(w) && Excused(w) && Enabled(w, v)
    ensures Excused(Take(w, v))
  {
    if !v.Thread? {
      HardwareExcused(w, v);
    } else if w.threads[v.t].EnqAlloced? || w.threads[v.t].RecAlloced? {
      SendExcused(w, v);
    } else if w.threads[v.t].EnqPosted? || w.threads[v.t].RecSent? {
      MarkExcused(w, v);
    } else if AccountsNow(w, v) {
      AccountExcused(w, v);
    } else if w.threads[v.t].DeqFree? {
      PopExcused(w, v);
    } else if w.threads[v.t].DeqLoop? && v.c.HeadSuspended? {
      LookExcused(w, v);
    } else if Fills(w, v) || SettlesNow(w, v) {
      CalmExcused(w, v);
    } else {
      OtherwisePlain(w, v);
      PlainExcused(w, v);
    }
  }

  lemma {:induction false} RunExcused(w: Whole, moves: seq<Move>, v: Whole)
    requires Linked(w) && Excused(w) && DceLinear.Run(w, moves, v)
    ensures Linked(v) && Excused(v)
    decreases moves
  {
    if moves != [] {
      TakeSimulates(w, moves[0]);
      TakeExcused(w, moves[0]);
      RunExcused(Take(w, moves[0]), moves[1..], v);
    }
  }

  /** The session is linearizable: over every interleaving of any number of
      threads, in which the driver refuses no frame, there is a run of the atomic
      session with the same log at every instant, and with the same memory whenever
      no call is under way. What the calls return is in `DceLinearResults`: an
      enqueuer that loses the race for the token is told -EBUSY, as the session
      never does. */
  lemma Linearizable(threads: nat, capacity: nat, moves: seq<Move>, w: Whole) returns (actions: seq<Action>)
    requires DceLinear.Run(Start(threads, capacity), moves, w)
    ensures DceSession.Run(Init(capacity), actions, w.a)
    ensures w.x.log == w.a.log && w.x.hwSuspended == w.a.hwSuspended && w.x.inFlight == w.a.inFlight
    ensures Th.Quiet(Threads(w)) ==> Memory(w) == w.a
  {
    StartIsLinked(threads, capacity);
    actions := RunIsSessionRun(Start(threads, capacity), moves, w);
    RunExcused(Start(threads, capacity), moves, w);
    if Th.Quiet(Threads(w)) { QuietIsSession(w); }
  }

  lemma SentOps(m: Th.Shared, x: Data, a: State, p: nat)
    requires Counts(m, x, a, p) && RingOk(m, x, a, p)
    ensures Ops(x.ring[p..m.sent]) == Ops(a.ring)
  {
    forall k | 0 <= k < |a.ring| ensures OpOf(x.ring[p..m.sent][k]) == OpOf(a.ring[k]) {
      assert Match(x.ring[k + p], a.ring[k + p - p]);
    }
  }

  /** Over every interleaving, what memory handed out followed by what its ring
      holds is what was sent, in order; every return is faithful to its op, and the
      k-th one carries the k-th answer of the hardware. No suspend is acknowledged
      twice, and no acknowledgement puts two recycle bits on the wire. */
  lemma InterleavingIsAQueue(threads: nat, capacity: nat, moves: seq<Move>, w: Whole)
    requires DceLinear.Run(Start(threads, capacity), moves, w)
    ensures P(w) <= w.m.sent <= |w.x.ring|
    ensures Accepted(w.x.log) == ReturnedOps(w.x.log) + Ops(w.x.ring[P(w)..w.m.sent])
    ensures forall i :: 0 <= i < |w.x.log| && w.x.log[i].Returned? ==> FaithfulReturn(w.x.log[i].op, w.x.log[i].rx)
    ensures |Received(w.x.log)| <= |Replies(w.x.log)|
    ensures forall k :: 0 <= k < |Received(w.x.log)| ==> Delivers(Received(w.x.log)[k], Replies(w.x.log)[k])
    ensures RecycleBitsSent(w.x.log) <= Acknowledgements(w.x.log) <= SuspendsReturned(w.x.log)
  {
    StartIsLinked(threads, capacity);
    RunExcused(Start(threads, capacity), moves, w);
    SentOps(w.m, w.x, w.a, P(w));
  }
}
