/**
  A session and the device under it: the frames of the session's flow, among
  those of other flows, go through one queue and come back in its order.

  The machine is one step per API call, hardware answer, received reply or frame
  of somebody else. It says what each step does to the session, to the device
  queue and to the counters; that these three agree is proved.
 */
module DceStack {
  import opened Errno
  import opened CircFifo
  import opened DceSession
  import DceRuns
  import Frc = FrcFields
  import opened DceDriver

  /** `freer` is the position of the ring's head in memory. */
  datatype Stack = Stack(s: State, device: seq<Frame>, counters: seq<int>, freer: nat)

  /** The address of a work unit's descriptor. */
  function Addr(slot: nat): nat { slot + 1 }

  function FlushCode(f: Flush): (c: nat)
    ensures c < 8
  {
    match f
    case NoFlush => 0
    case PartialFlush => 1
    case SyncFlush => 2
    case FullFlush => 3
    case Finish => 4
    case Block => 5
    case Trees => 6
  }

  /** The flush kinds of zlib, in the order of its numbers. */
  const FLUSHES := [NoFlush, PartialFlush, SyncFlush, FullFlush, Finish, Block, Trees]

  /** The code says which flush was asked for. */
  lemma FlushCodeIsInvertible(f: Flush, c: nat)
    ensures FlushCode(f) < |FLUSHES| && FLUSHES[FlushCode(f)] == f
    ensures c < |FLUSHES| ==> FlushCode(FLUSHES[c]) == c
  {
  }

  ghost predicate CarriesUnit(fd: Frc.Fd, u: Unit) {
    Frc.Carries(fd, true, u.recycle, u.initial, FlushCode(u.flush))
  }

  // ----- steps -----

  datatype Move =
    | Call(a: Action)                     // nothing is sent
    | Sends(a: Action, fd: Frc.Fd)        // enqueue or recycle, with the descriptor built for it
    | Receive                             // the oldest frame comes back
    | OtherSends(q: Frame)                // another flow, or the workaround frame

  /** The unit `a` puts on the ring, if any. */
  function Fresh(s: State, a: Action): seq<Unit>
    requires a.EnqueueOp? || a.RecycleOp?
  {
    var t := Step(s, a);
    if |t.ring| > |s.ring| then t.ring[|s.ring|..] else []
  }

  /** Units that have been called back, if callbacks come in order. */
  function CalledBack(j: Stack, f: nat): int { |j.s.ring| - Counted(j.device, f) }

  ghost predicate LegalMove(j: Stack, f: nat, m: Move) {
    match m
    case Call(a) => Legal(j.s, a) && !a.Callback? && !a.EnqueueOp? && !a.RecycleOp?
    case Sends(a, fd) =>
      && (a.EnqueueOp? || a.RecycleOp?)
      && Frc.Carries(fd, true, j.s.recycle, j.s.streamEnd, FlushCode(a.op.flush))
    case Receive =>
      // the device has answered what it hands back
      j.device != [] && (Belongs(j.device[0], f) ==> CalledBack(j, f) < |j.s.answers|)
    case OtherSends(q) => !Belongs(q, f)
  }

  function Next(n: nat, freer: nat): nat { if freer + 1 == 2 * n then 0 else freer + 1 }

  function Advance(n: nat, freer: nat, k: nat): nat
    decreases k
  {
    if k == 0 then freer else Advance(n, Next(n, freer), k - 1)
  }

  /** The position of a buffer in the lap that starts at the head. */
  function Position(n: nat, freer: nat, slot: int): int {
    var head := At(n, freer, 0);
    if slot >= head then slot - head else slot + n - head
  }

  /** The callback finds the unit by the address of the frame. */
  function CallBack(j: Stack, q: Frame): State {
    var i := Position(j.s.capacity, j.freer, q.addr - 1);
    if i >= 0 && MayComplete(j.s, i) then Complete(j.s, i) else j.s
  }

  ghost function Take(j: Stack, f: nat, m: Move): Stack
    requires LegalMove(j, f, m)
  {
    match m
    case Call(a) =>
      var t := Step(j.s, a);
      j.(s := t, freer := Advance(j.s.capacity, j.freer, if |t.ring| < |j.s.ring| then |j.s.ring| - |t.ring| else 0))
    case Sends(a, fd) =>
      if Fresh(j.s, a) == [] then j.(s := Step(j.s, a))
      else
        Stack(Step(j.s, a),
              j.device + [Frame(fd, f, Addr(At(j.s.capacity, j.freer, |j.s.ring|)))],
              Bump(j.counters, f, 1),
              j.freer)
    case Receive =>
      var q := j.device[0];
      Stack(if Belongs(q, f) then CallBack(j, q) else j.s,
            j.device[1..],
            if Dropped(q) then j.counters else Bump(j.counters, q.flc, -1),
            j.freer)
    case OtherSends(q) =>
      j.(device := j.device + [q], counters := if q.addr == WORKAROUND then j.counters else Bump(j.counters, q.flc, 1))
  }

  ghost predicate Run(j: Stack, f: nat, moves: seq<Move>, k: Stack)
    decreases moves
  {
    if moves == [] then j == k
    else LegalMove(j, f, moves[0]) && Run(Take(j, f, moves[0]), f, moves[1..], k)
  }

  /** A session just created on flow `f`, beside any traffic of other flows. */
  predicate Initial(j: Stack, f: nat, capacity: nat) {
    && capacity > 0 && j.s == Init(capacity) && j.freer < 2 * capacity
    && f < |j.counters| && j.counters[f] == 0 && Of(j.device, f) == []
  }

  // ----- the ring and the frames agree -----

  /** Frame `fr` is the descriptor of unit `k` of the ring. */
  ghost predicate IsFrameOf(fr: Frame, n: nat, freer: nat, ring: seq<Unit>, k: nat) {
    k < |ring| && fr.addr == Addr(At(n, freer, k)) && CarriesUnit(fr.fd, ring[k])
  }

  /** The units still in the device are the newest ones, each with its own frame,
      in order; all older ones are DONE. */
  ghost predicate Coupled(ring: seq<Unit>, frames: seq<Frame>, n: nat, freer: nat) {
    && |frames| <= |ring|
    && (forall i :: 0 <= i < |ring| ==> (ring[i].state.Done? <==> i < |ring| - |frames|))
    && (forall j :: 0 <= j < |frames| ==> FrameAt(ring, frames, n, freer, j))
  }

  ghost predicate FrameAt(ring: seq<Unit>, frames: seq<Frame>, n: nat, freer: nat, j: nat) {
    j < |frames| <= |ring| && IsFrameOf(frames[j], n, freer, ring, |ring| - |frames| + j)
  }

  ghost predicate Placed(ring: seq<Unit>, frames: seq<Frame>, n: nat, freer: nat) {
    InLap(n, freer, |ring|) && Coupled(ring, frames, n, freer)
  }

  /** Ring, device and counter tell the same story. */
  ghost predicate Agrees(j: Stack, f: nat) {
    && f < |j.counters| && j.counters[f] == Counted(j.device, f)
    && Placed(j.s.ring, Of(j.device, f), j.s.capacity, j.freer)
  }

  ghost predicate StackInv(j: Stack, f: nat) {
    DceSession.Inv(j.s) && Agrees(j, f)
  }

  lemma {:induction false} CoupledCount(ring: seq<Unit>, frames: seq<Frame>, n: nat, freer: nat)
    requires Coupled(ring, frames, n, freer)
    ensures NotDone(ring) == |frames|
  {
    NotDoneFrom(ring, |ring| - |frames|);
  }

  lemma {:induction false} NotDoneFrom(ring: seq<Unit>, d: nat)
    requires d <= |ring| && forall i :: 0 <= i < |ring| ==> (ring[i].state.Done? <==> i < d)
    ensures NotDone(ring) == |ring| - d
  {
    if ring != [] {
      assert forall i :: 0 <= i < |ring| - 1 ==> ring[1..][i] == ring[i + 1];
      NotDoneFrom(ring[1..], if d > 0 then d - 1 else 0);
    }
  }

  lemma CoupledSend(ring: seq<Unit>, frames: seq<Frame>, n: nat, freer: nat, u: Unit, fr: Frame)
    requires Coupled(ring, frames, n, freer) && u.state.Todo?
    requires fr.addr == Addr(At(n, freer, |ring|)) && CarriesUnit(fr.fd, u)
    ensures Coupled(ring + [u], frames + [fr], n, freer)
  {
    forall j | 0 <= j < |frames| + 1 ensures FrameAt(ring + [u], frames + [fr], n, freer, j) {
      if j < |frames| { assert FrameAt(ring, frames, n, freer, j); }
    }
  }

  lemma CoupledComplete(ring: seq<Unit>, frames: seq<Frame>, n: nat, freer: nat, u: Unit)
    requires Coupled(ring, frames, n, freer) && frames != [] && u.state.Done?
    ensures Coupled(ring[|ring| - |frames| := u], frames[1..], n, freer)
  {
    var d := |ring| - |frames|;
    var ring', frames' := ring[d := u], frames[1..];
    forall j | 0 <= j < |frames'| ensures FrameAt(ring', frames', n, freer, j) {
      assert FrameAt(ring, frames, n, freer, j + 1);
    }
  }

  lemma CoupledDrop(ring: seq<Unit>, frames: seq<Frame>, n: nat, freer: nat)
    requires Placed(ring, frames, n, freer) && ring != [] && ring[0].state.Done?
    ensures Placed(ring[1..], frames, n, Next(n, freer))
  {
    forall j | 0 <= j < |frames| ensures FrameAt(ring[1..], frames, n, Next(n, freer), j) {
      assert FrameAt(ring, frames, n, freer, j);
    }
  }

  /** A frame too many or a unit too many, and the two no longer agree. */
  lemma CoupledIsTight(ring: seq<Unit>, frames: seq<Frame>, n: nat, freer: nat, u: Unit, fr: Frame)
    requires Coupled(ring, frames, n, freer) && u.state.Todo?
    ensures !Coupled(ring, frames + [fr], n, freer)
    ensures !Coupled(ring + [u], frames, n, freer)
  {
    var d := |ring| - |frames|;
    if Coupled(ring, frames + [fr], n, freer) {
      CoupledCount(ring, frames + [fr], n, freer);
      CoupledCount(ring, frames, n, freer);
    }
    if Coupled(ring + [u], frames, n, freer) {
      CoupledCount(ring + [u], frames, n, freer);
      CoupledCount(ring, frames, n, freer);
      DceRuns.NotDoneAppend(ring, u);
    }
  }

  // ----- every step keeps them in agreement -----

  lemma PositionIs(n: nat, freer: nat, k: nat)
    requires InLap(n, freer, k) && k < n
    ensures Position(n, freer, At(n, freer, k)) == k
  {
    var p := AtIsOnto(n, freer, At(n, freer, k));
  }

  lemma {:induction false} DequeueKeepsCoupled(s: State, n: nat, frames: seq<Frame>, freer: nat)
    requires Unblocked(s) && Placed(s.ring, frames, s.capacity, freer)
    ensures var t := DequeueMany(s, n);
            && t.capacity == s.capacity && |t.ring| <= |s.ring|
            && Placed(t.ring, frames, s.capacity, Advance(s.capacity, freer, |s.ring| - |t.ring|))
    decreases n
  {
    if n > 0 && HeadDone(s) {
      CoupledDrop(s.ring, frames, s.capacity, freer);
      DceRuns.DequeueKeepsUnblocked(s);
      DequeueKeepsCoupled(DequeueOne(s), n - 1, frames, Next(s.capacity, freer));
    }
  }

  lemma CallAgrees(j: Stack, f: nat, a: Action)
    requires Agrees(j, f) && Unblocked(j.s) && LegalMove(j, f, Call(a))
    ensures Agrees(Take(j, f, Call(a)), f)
  {
    if a.DequeueOps? { DequeueKeepsCoupled(j.s, a.max, Of(j.device, f), j.freer); }
  }

  /** What an accepted enqueue or recycle puts on the ring. */
  lemma FreshIs(s: State, a: Action)
    requires a.EnqueueOp? || a.RecycleOp?
    ensures Fresh(s, a) == [] ==> Step(s, a) == s
    ensures Fresh(s, a) != [] ==> Step(s, a).ring == s.ring + [FilledUnit(a.op, s.recycle, s.streamEnd)]
    ensures Fresh(s, a) != [] ==> |s.ring| < s.capacity && Step(s, a).capacity == s.capacity
  {
  }

  lemma SendAgrees(j: Stack, f: nat, a: Action, fd: Frc.Fd)
    requires Agrees(j, f) && LegalMove(j, f, Sends(a, fd))
    ensures Agrees(Take(j, f, Sends(a, fd)), f)
  {
    FreshIs(j.s, a);
    if Fresh(j.s, a) != [] {
      var u := FilledUnit(a.op, j.s.recycle, j.s.streamEnd);
      var fr := Frame(fd, f, Addr(At(j.s.capacity, j.freer, |j.s.ring|)));
      OfAppend(j.device, fr, f);
      CoupledSend(j.s.ring, Of(j.device, f), j.s.capacity, j.freer, u, fr);
    }
  }

  /** The reply to the oldest frame of the flow calls back the oldest unit that
      has not been called back. */
  lemma CallBackIsInOrder(j: Stack, f: nat)
    requires Agrees(j, f) && HardwareLaw(j.s) && InFlightLaw(j.s) && LegalMove(j, f, Receive) && Belongs(j.device[0], f)
    ensures var d := CalledBack(j, f);
            0 <= d && MayComplete(j.s, d) && CallBack(j, j.device[0]) == Complete(j.s, d) && !Dropped(j.device[0])
    ensures Of(j.device, f) == [j.device[0]] + Of(j.device[1..], f)
  {
    var frames, ring, d := Of(j.device, f), j.s.ring, CalledBack(j, f);
    OfHead(j.device, f);
    assert FrameAt(ring, frames, j.s.capacity, j.freer, 0);
    PositionIs(j.s.capacity, j.freer, d);
    CoupledCount(ring, frames, j.s.capacity, j.freer);
    assert RingMatches(ring, j.s.answers);
    assert !ring[d].state.Done? && !ring[d].state.Free?;
  }

  lemma OwnReplyAgrees(j: Stack, f: nat)
    requires Agrees(j, f) && HardwareLaw(j.s) && InFlightLaw(j.s) && LegalMove(j, f, Receive)
    requires Belongs(j.device[0], f)
    ensures Agrees(Take(j, f, Receive), f)
  {
    CallBackIsInOrder(j, f);
    var d := CalledBack(j, f);
    CoupledComplete(j.s.ring, Of(j.device, f), j.s.capacity, j.freer, CompletedUnit(j.s.ring[d], j.s.answers[d]));
    assert Of(j.device, f)[1..] == Of(j.device[1..], f);
  }

  lemma ReceiveAgrees(j: Stack, f: nat)
    requires Agrees(j, f) && HardwareLaw(j.s) && InFlightLaw(j.s) && LegalMove(j, f, Receive)
    ensures Agrees(Take(j, f, Receive), f)
  {
    if Belongs(j.device[0], f) {
      OwnReplyAgrees(j, f);
    } else {
      OfHead(j.device, f);
      assert Of(j.device, f) == Of(j.device[1..], f);
    }
  }

  lemma TakeAgrees(j: Stack, f: nat, m: Move)
    requires StackInv(j, f) && LegalMove(j, f, m)
    ensures Agrees(Take(j, f, m), f)
  {
    match m
    case Call(a) => CallAgrees(j, f, a);
    case Sends(a, fd) => SendAgrees(j, f, a, fd);
    case Receive => ReceiveAgrees(j, f);
    case OtherSends(q) =>
      OfAppend(j.device, q, f);
      assert Of(j.device, f) + [] == Of(j.device, f);
  }

  /** The session's part of a move is a step of the session, or nothing. */
  ghost function SessionStep(j: Stack, f: nat, m: Move): seq<Action>
    requires LegalMove(j, f, m)
  {
    match m
    case Call(a) => [a]
    case Sends(a, _) => [a]
    case Receive => if Belongs(j.device[0], f) && CalledBack(j, f) >= 0 then [Callback(CalledBack(j, f))] else []
    case OtherSends(_) => []
  }

  lemma TakeIsStep(j: Stack, f: nat, m: Move)
    requires StackInv(j, f) && LegalMove(j, f, m)
    ensures var a := SessionStep(j, f, m);
            if a == [] then Take(j, f, m).s == j.s else Legal(j.s, a[0]) && Take(j, f, m).s == Step(j.s, a[0])
  {
    if m.Receive? && Belongs(j.device[0], f) { CallBackIsInOrder(j, f); }
  }

  lemma TakeKeeps(j: Stack, f: nat, m: Move)
    requires StackInv(j, f) && LegalMove(j, f, m)
    ensures StackInv(Take(j, f, m), f)
  {
    TakeAgrees(j, f, m);
    TakeIsStep(j, f, m);
    var a := SessionStep(j, f, m);
    if a != [] { DceRuns.StepKeeps(j.s, a[0]); }
  }

  /** Every run of the stack is, for the session, a run of the session: what is
      proved of those holds here. */
  lemma {:induction false} RunIsSessionRun(j: Stack, f: nat, moves: seq<Move>, k: Stack) returns (actions: seq<Action>)
    requires StackInv(j, f) && Run(j, f, moves, k)
    ensures DceSession.Run(j.s, actions, k.s)
    decreases moves
  {
    actions := [];
    if moves != [] {
      TakeKeeps(j, f, moves[0]);
      TakeIsStep(j, f, moves[0]);
      actions := RunIsSessionRun(Take(j, f, moves[0]), f, moves[1..], k);
      var a := SessionStep(j, f, moves[0]);
      if a != [] {
        var rest := actions;
        actions := [a[0]] + rest;
        assert actions[1..] == rest;
      }
    }
  }

  lemma {:induction false} RunKeeps(j: Stack, f: nat, moves: seq<Move>, k: Stack)
    requires StackInv(j, f) && Run(j, f, moves, k)
    ensures StackInv(k, f)
    decreases moves
  {
    if moves != [] {
      TakeKeeps(j, f, moves[0]);
      RunKeeps(Take(j, f, moves[0]), f, moves[1..], k);
    }
  }

  lemma InitialIsCoupled(j: Stack, f: nat, capacity: nat)
    requires Initial(j, f, capacity)
    ensures StackInv(j, f)
  {
    assert DceSession.Run(Init(capacity), [], j.s);
    DceRuns.EveryRun(capacity, [], j.s);
  }

  /** What dce_session_destroy answers. */
  function DestroyCode(j: Stack, f: nat): int
    requires f < |j.counters|
  {
    if j.counters[f] > 0 then -EBUSY else 0
  }

  /** Over every run, whatever the other flows do: the flow's counter, the frames
      of the flow in the device, the units of the ring not called back, and the
      session's own count are one number; ring slots are that number plus the
      DONE slots; and destroy refuses exactly while the device holds a frame. */
  lemma InFlightIsConserved(j0: Stack, f: nat, capacity: nat, moves: seq<Move>, j: Stack)
    requires Initial(j0, f, capacity) && Run(j0, f, moves, j)
    ensures f < |j.counters|
    ensures j.counters[f] == Counted(j.device, f) == NotDone(j.s.ring) == j.s.inFlight
    ensures |j.s.ring| == j.counters[f] + |set i | 0 <= i < |j.s.ring| && j.s.ring[i].state.Done?|
    ensures DestroyCode(j, f) != 0 <==> exists i :: 0 <= i < |j.device| && Belongs(j.device[i], f)
  {
    InitialIsCoupled(j0, f, capacity);
    RunKeeps(j0, f, moves, j);
    CoupledCount(j.s.ring, Of(j.device, f), j.s.capacity, j.freer);
    DceRuns.InFlightPlusDone(j.s.ring);
    if Counted(j.device, f) == 0 { NoneCounted(j.device, f); } else { var i := SomeCounted(j.device, f); }
  }

  // ----- moves, spelled out -----

  /** A reply to somebody else's frame. */
  lemma TakeOthersReply(j: Stack, f: nat)
    requires LegalMove(j, f, Receive) && !Belongs(j.device[0], f)
    ensures var q := j.device[0];
            Take(j, f, Receive) ==
                j.(device := j.device[1..], counters := if Dropped(q) then j.counters else Bump(j.counters, q.flc, -1))
  {
  }

  lemma TakeOwnReply(j: Stack, f: nat)
    requires Agrees(j, f) && HardwareLaw(j.s) && InFlightLaw(j.s) && LegalMove(j, f, Receive) && Belongs(j.device[0], f)
    ensures var d := CalledBack(j, f);
            && 0 <= d < |j.s.answers| && d < |j.s.ring| && !j.s.ring[d].state.Free? && !Dropped(j.device[0])
                && j.device[0].flc == f
            && j.device[0].addr == Addr(At(j.s.capacity, j.freer, d)) && j.s.inFlight > 0
            && Take(j, f, Receive) ==
               Stack(j.s.(ring := j.s.ring[d := CompletedUnit(j.s.ring[d], j.s.answers[d])],
                   inFlight := j.s.inFlight - 1),
                     j.device[1..], Bump(j.counters, f, -1), j.freer)
  {
    CallBackIsInOrder(j, f);
    assert FrameAt(j.s.ring, Of(j.device, f), j.s.capacity, j.freer, 0);
  }

  /** Frames of others, one after the other. */
  ghost function TakeOthers(j: Stack, f: nat, qs: seq<Frame>): Stack
    requires forall i :: 0 <= i < |qs| ==> !Belongs(qs[i], f)
    decreases |qs|
  {
    if qs == [] then j else TakeOthers(Take(j, f, OtherSends(qs[0])), f, qs[1..])
  }

  /** From `j` to `k` by the call `a`, which sends `fd`, and after it the
      workaround frame, if there is one. */
  ghost predicate IsSend(j: Stack, k: Stack, f: nat, a: Action, fd: Frc.Fd, extras: seq<Frame>) {
    && LegalMove(j, f, Sends(a, fd))
    && (forall i :: 0 <= i < |extras| ==> extras[i].addr == WORKAROUND)
    && k == TakeOthers(Take(j, f, Sends(a, fd)), f, extras)
  }

  lemma SendIs(j: Stack, k: Stack, f: nat, a: Action, fd: Frc.Fd, extras: seq<Frame>)
    requires (a.EnqueueOp? || a.RecycleOp?) && k.s == Step(j.s, a) && |k.s.ring| > |j.s.ring|
    requires Frc.Carries(fd, true, j.s.recycle, j.s.streamEnd, FlushCode(a.op.flush))
    requires |extras| <= 1 && forall i :: 0 <= i < |extras| ==> extras[i].addr == WORKAROUND
    requires k.device == j.device + [Frame(fd, f, Addr(At(j.s.capacity, j.freer, |j.s.ring|)))] + extras
    requires k.counters == Bump(j.counters, f, 1) && k.freer == j.freer
    ensures IsSend(j, k, f, a, fd, extras)
  {
    var m := Take(j, f, Sends(a, fd));
    if extras == [] {
      assert m.device + [] == m.device;
    } else {
      assert extras == [extras[0]] && extras[1..] == [];
      assert TakeOthers(Take(m, f, OtherSends(extras[0])), f, []) == Take(m, f, OtherSends(extras[0]));
    }
  }

  /** What another flow gets into the device, counted if it is not the
      workaround frame. */
  lemma OthersAreTaken(j: Stack, f: nat, q: Frame, workaround: bool, extra: Frc.Fd, first: int, second: int)
    requires q.flc != f && q.addr != WORKAROUND
    ensures var taken := DceDriver.Accepted(q, workaround, extra, first, second);
            && (forall i :: 0 <= i < |taken| ==> !Belongs(taken[i], f))
            && TakeOthers(j, f, taken) ==
               j.(device := j.device + taken, counters := if first >= 0 then Bump(j.counters, q.flc, 1) else j.counters)
  {
    var taken := DceDriver.Accepted(q, workaround, extra, first, second);
    if taken == [] {
      assert j.device + [] == j.device;
    } else {
      var m := Take(j, f, OtherSends(taken[0]));
      assert TakeOthers(j, f, taken) == TakeOthers(m, f, taken[1..]);
      if |taken| == 1 {
        assert taken == [taken[0]];
      } else {
        assert taken == [taken[0], taken[1]] && taken[1..] == [taken[1]] && taken[1..][1..] == [];
        assert TakeOthers(m, f, taken[1..]) == Take(m, f, OtherSends(taken[1]));
        assert j.device + [taken[0]] + [taken[1]] == j.device + taken;
      }
    }
  }
}
