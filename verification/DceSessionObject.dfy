/**
  The session as the source has it: a ring of work units addressed through a
  circular allocator, flags updated in place, and frames sent through the driver
  of the interface its flow belongs to. Every call is proved to be the
  corresponding step of `DceSession`; those that touch the device are also moves
  of `DceStack`.
 */
module DceSessionObject {
  import opened Errno
  import opened DceSession
  import opened CircFifo
  import DceRuns
  import Frc = FrcFields
  import Drv = DceDriver
  import Stk = DceStack

  ghost predicate RestIsFree(mem: seq<Unit>, freer: nat, count: nat)
    requires InLap(|mem|, freer, count)
  {
    forall k: nat :: count <= k < |mem| ==> mem[At(|mem|, freer, k)].state.Free?
  }

  /** A flow's counter as a count. */
  function Counter(counters: seq<int>, flow: nat): nat {
    if flow < |counters| && counters[flow] > 0 then counters[flow] else 0
  }

  lemma CounterBump(counters: seq<int>, flow: nat)
    requires flow < |counters| && counters[flow] >= 0
    ensures Counter(Drv.Bump(counters, flow, 1), flow) == Counter(counters, flow) + 1
  {
  }

  lemma CounterDrop(counters: seq<int>, flow: nat)
    requires flow < |counters| && counters[flow] > 0
    ensures Counter(Drv.Bump(counters, flow, -1), flow) == Counter(counters, flow) - 1
  {
  }

  class Session {
    const fifo: CircFifo
    const units: array<Unit>
    const driver: Drv.Dpdcei
    const flow: nat
    var sem: nat
    var recycleTodo: nat
    var recyclerAllowed: bool
    var recycle: bool
    var streamEnd: bool
    ghost var answers: seq<Reply>
    ghost var hwSuspended: bool
    ghost var log: seq<Event>

    /** The created state: empty ring over zeroed memory, one token, STREAM_END,
        on a flow that was just created. */
    constructor (numBufs: nat, driver: Drv.Dpdcei, flow: nat)
      requires numBufs > 0
      requires driver.Valid() && driver.Live(flow) && Drv.Counted(driver.queue, flow) == 0 && driver.lost[flow] == 0
      ensures Valid() && fresh(fifo) && fresh(units) && this.driver == driver && this.flow == flow
      ensures Abs() == Init(numBufs) && Linked() && Stk.Initial(AbsStack(), flow, numBufs)
    {
      fifo := new CircFifo(numBufs);
      units := new Unit[numBufs](_ => ZERO_UNIT);
      this.driver, this.flow := driver, flow;
      sem, recycleTodo, recyclerAllowed, recycle, streamEnd := 1, 0, false, false, true;
      answers, hwSuspended, log := [], false, [];
    }

    /** Every slot outside the allocated window is FREE. */
    ghost predicate Valid()
      reads fifo, units
    {
      && fifo.Valid()
      && units.Length == fifo.numBufs
      && RestIsFree(units[..], fifo.freer, fifo.Count())
    }

    /** The same on physical slots: a slot that is not at an allocated position
        holds a FREE unit. */
    lemma OutsideIsFree(i: nat)
      requires Valid() && i < fifo.numBufs
      requires forall k: nat :: k < fifo.Count() ==> At(fifo.numBufs, fifo.freer, k) != i
      ensures units[i].state.Free?
    {
      var k := AtIsOnto(fifo.numBufs, fifo.freer, i);
      assert units[..][At(fifo.numBufs, fifo.freer, k)].state.Free?;
    }

    ghost function Window(): seq<Unit>
      requires Valid()
      reads fifo, units
    {
      Lap(units[..], fifo.freer, fifo.Count())
    }

    ghost function Abs(): State
      requires Valid()
      reads this, fifo, units, driver
    {
      State(fifo.numBufs, Window(), answers, hwSuspended, sem, recycleTodo, recyclerAllowed,
            recycle, streamEnd, Counter(driver.counters, flow), log)
    }

    ghost function AbsStack(): Stk.Stack
      requires Valid()
      reads this, fifo, units, driver
    {
      Stk.Stack(Abs(), driver.queue, driver.counters, fifo.freer)
    }

    /** The driver is in order, the flow is live, and the ring and the frames of
        the flow in the device agree. */
    ghost predicate Linked()
      requires Valid()
      reads fifo, units, driver, driver.table
    {
      && driver.Valid() && driver.Live(flow) && driver.lost[flow] == 0
      && Stk.Placed(Window(), Drv.Of(driver.queue, flow), fifo.numBufs, fifo.freer)
    }

    /** Then the flow's counter agrees too. */
    lemma LinkedAgrees()
      requires Valid() && Linked()
      ensures Stk.Agrees(AbsStack(), flow) && InFlightLaw(Abs())
    {
      Stk.CoupledCount(Window(), Drv.Of(driver.queue, flow), fifo.numBufs, fifo.freer);
    }

    /** The ring holds `ring`, and the slot behind it is allocated and filled
        with `u`, but still marked FREE. */
    ghost predicate TailFilled(ring: seq<Unit>, u: Unit, buf: nat)
      reads fifo, units
    {
      && fifo.Valid() && units.Length == fifo.numBufs
      && fifo.Count() == |ring| + 1 && buf == At(fifo.numBufs, fifo.freer, |ring|)
      && units[buf] == u && u.state.Free?
      && Lap(units[..], fifo.freer, |ring|) == ring
      && RestIsFree(units[..], fifo.freer, |ring|)
    }

    /** The frame takes the recycle and initial bits out of the session. */
    method Fill(op: Op) returns (u: Unit)
      modifies this`recycle, this`streamEnd
      ensures u == FilledUnit(op, old(recycle), old(streamEnd)).(state := Free)
      ensures !recycle && streamEnd == op.flush.Finish?
    {
      u := ZERO_UNIT.(input := op.input, output := op.output);
      if recycle {
        u := u.(recycle := true);
        recycle := false;
      }
      if streamEnd {
        u := u.(initial := true);
        streamEnd := false;
      }
      u := u.(flush := op.flush);
      if op.flush.Finish? { streamEnd := true; }
      u := u.(context := op.context, outputLength := op.output.len);
    }

    /** Allocate the tail unit and fill it, as enqueue and recycle both do before
        they hand the frame to the driver. */
    method AllocAndFill(op: Op) returns (ok: bool, buf: nat)
      requires Valid()
      modifies this`recycle, this`streamEnd, fifo`allocer, units
      ensures ok <==> |old(Window())| < fifo.numBufs
      ensures !ok ==> Valid() && Abs() == old(Abs())
      ensures ok ==> TailFilled(old(Window()), FilledUnit(op, old(recycle), old(streamEnd)).(state := Free), buf)
      ensures ok ==> !recycle && streamEnd == op.flush.Finish?
    {
      ghost var mem, count := units[..], fifo.Count();
      ok, buf := fifo.Alloc();
      if !ok { return; }
      var u := Fill(op);
      units[buf] := u;
      assert units[..] == mem[buf := units[buf]];
      LapAppend(mem, fifo.freer, count, units[buf]);
    }

    /** The driver took the frame. */
    method MarkTodo(buf: nat, ghost ring: seq<Unit>, ghost u: Unit)
      requires TailFilled(ring, u, buf)
      modifies units
      ensures Valid() && Window() == ring + [u.(state := Todo)]
    {
      ghost var mem := units[..];
      units[buf] := units[buf].(state := Todo);
      assert units[..] == mem[buf := units[buf]];
      LapAppend(mem, fifo.freer, |ring|, units[buf]);
    }

    /** The driver refused the frame: the tail goes back, the ring is untouched. */
    method UndoTail(buf: nat, ghost ring: seq<Unit>, ghost u: Unit)
      requires TailFilled(ring, u, buf)
      modifies fifo`allocer
      ensures Valid() && Window() == ring
    {
      fifo.AllocUndo();
    }

    /** What the driver sends behind a request of the session. */
    function Workaround(second: int): seq<Drv.Frame> {
      Drv.Extras(driver.hasErratum, driver.workaroundFd, second)
    }

    /** Builds the request for the unit in slot `buf` and hands it to the driver. */
    method Submit(u: Unit, buf: nat, first: int, second: int) returns (code: int, ghost fd: Frc.Fd)
      requires driver.Valid() && driver.Live(flow)
      modifies driver`queue, driver`inFlight, driver`counters
      ensures driver.Valid() && Stk.CarriesUnit(fd, u)
      ensures code == Drv.EnqueueResult(driver.hasErratum, first, second)
      ensures driver.counters == (if first >= 0 then Drv.Bump(old(driver.counters), flow, 1) else old(driver.counters))
      ensures first >= 0 ==>
          driver.queue == old(driver.queue) + [Drv.Frame(fd, flow, Stk.Addr(buf))] + Workaround(second)
      ensures Drv.Of(driver.queue, flow) ==
              if first >= 0 then Drv.Of(old(driver.queue), flow) + [Drv.Frame(fd, flow, Stk.Addr(buf))]
                  else Drv.Of(old(driver.queue), flow)
    {
      var frame := Frc.Request(true, u.recycle, u.initial, Stk.FlushCode(u.flush));
      fd := frame;
      ghost var queue, q := driver.queue, Drv.Frame(fd, flow, Stk.Addr(buf));
      code := driver.EnqueueProcess(flow, frame, Stk.Addr(buf), first, second);
      Drv.AcceptedOfSender(queue, q, driver.hasErratum, driver.workaroundFd, first, second);
      assert queue + ([q] + Workaround(second)) == queue + [q] + Workaround(second);
    }

    /** Hands the filled tail slot to the driver; then it becomes part of the ring,
        or goes back. Ring and frames still agree exactly when the driver told
        the truth about the frame. */
    method Transmit(buf: nat, first: int, second: int, ghost ring: seq<Unit>, ghost u: Unit)
        returns (code: int, ghost fd: Frc.Fd)
      requires TailFilled(ring, u.(state := Free), buf) && u.state.Todo? && |ring| < fifo.numBufs
      requires driver.Valid() && driver.Live(flow) && driver.lost[flow] == 0 && first <= 0 && second <= 0
      requires Stk.Placed(ring, Drv.Of(driver.queue, flow), fifo.numBufs, fifo.freer)
      modifies fifo`allocer, units, driver`queue, driver`inFlight, driver`counters
      ensures Valid() && driver.Valid() && Stk.CarriesUnit(fd, u)
      ensures code == Drv.EnqueueResult(driver.hasErratum, first, second)
      ensures Window() == (if code == 0 then ring + [u] else ring)
      ensures Counter(driver.counters, flow) == Counter(old(driver.counters), flow) + Hit(first)
      ensures first == 0 ==> driver.counters == Drv.Bump(old(driver.counters), flow, 1)
      ensures first == 0 ==>
          driver.queue == old(driver.queue) + [Drv.Frame(fd, flow, Stk.Addr(buf))] + Workaround(second)
      ensures Linked() <==> (first == 0 <==> code == 0)
    {
      ghost var frames, n, freer := Drv.Of(driver.queue, flow), fifo.numBufs, fifo.freer;
      CounterBump(driver.counters, flow);
      code, fd := Submit(units[buf], buf, first, second);
      ghost var agree := first == 0 <==> code == 0;
      AgreeIff(ring, frames, n, freer, u, Drv.Frame(fd, flow, Stk.Addr(buf)), first == 0, code == 0);
      Settle(buf, code, ring, u);
      assert Stk.Placed(Window(), Drv.Of(driver.queue, flow), n, freer) == agree;
    }

    method Settle(buf: nat, code: int, ghost ring: seq<Unit>, ghost u: Unit)
      requires TailFilled(ring, u.(state := Free), buf) && u.state.Todo?
      modifies fifo`allocer, units
      ensures Valid() && Window() == (if code == 0 then ring + [u] else ring)
    {
      if code != 0 {
        UndoTail(buf, ring, u.(state := Free));
      } else {
        MarkTodo(buf, ring, u.(state := Free));
      }
    }

    /** Fill a unit and transmit it. */
    method FillAndTransmit(op: Op, first: int, second: int) returns (full: bool, code: int, ghost fd: Frc.Fd)
      requires Valid() && Linked() && first <= 0 && second <= 0
      modifies this`recycle, this`streamEnd, fifo`allocer, units, driver`queue, driver`inFlight, driver`counters
      ensures Valid() && driver.Valid() && full == (|old(Window())| >= fifo.numBufs)
      ensures full ==> Linked() && AbsStack() == old(AbsStack())
      ensures !full ==> code == Drv.EnqueueResult(driver.hasErratum, first, second)
      ensures !full ==> !recycle && streamEnd == op.flush.Finish?
      ensures !full ==> Stk.CarriesUnit(fd, FilledUnit(op, old(recycle), old(streamEnd)))
      ensures !full ==>
          Window() == if code == 0 then old(Window()) + [FilledUnit(op, old(recycle), old(streamEnd))]
              else old(Window())
      ensures !full ==> Counter(driver.counters, flow) == Counter(old(driver.counters), flow) + Hit(first)
      ensures !full && first == 0 ==> driver.counters == Drv.Bump(old(driver.counters), flow, 1)
      ensures !full && first == 0 ==>
                driver.queue == old(driver.queue)
                  + [Drv.Frame(fd, flow, Stk.Addr(At(fifo.numBufs, fifo.freer, |old(Window())|)))] + Workaround(second)
      ensures !full ==> (Linked() <==> (first == 0 <==> code == 0))
    {
      fd, code := Frc.ZERO_FD, 0;
      ghost var ring, u := Window(), FilledUnit(op, recycle, streamEnd);
      var ok, buf := AllocAndFill(op);
      full := !ok;
      if ok { code, fd := Transmit(buf, first, second, ring, u); }
    }

    /** The part that enqueue and recycle share. */
    method SendOp(op: Op, first: int, second: int) returns (full: bool, code: int, ghost fd: Frc.Fd)
      requires Valid() && Linked() && first <= 0 && second <= 0
      modifies this`recycle, this`streamEnd, fifo`allocer, units, driver`queue, driver`inFlight, driver`counters
      ensures Valid() && driver.Valid() && full == (|old(Window())| >= fifo.numBufs)
      ensures full ==> Linked() && AbsStack() == old(AbsStack())
      ensures !full ==> code == Drv.EnqueueResult(driver.hasErratum, first, second)
      ensures !full ==> Abs() == Transmitted(old(Abs()), op, first, code)
      ensures !full ==> (Linked() <==> (first == 0 <==> code == 0))
      ensures !full && first == 0 ==> Delivered(old(AbsStack()), AbsStack(), flow, op, fd, Workaround(second))
    {
      ghost var s := Abs();
      full, code, fd := FillAndTransmit(op, first, second);
      if !full { TransmittedIs(Abs(), s, op, first, code); }
    }

    /** sem_post, once for a frame that went out or found no room, and twice for
        one that was refused. */
    method PostAfter(op: Op, full: bool, code: int, ghost was: State)
      requires Valid()
      modifies this`sem, this`log
      ensures Valid() && (Linked() <==> old(Linked()))
      ensures sem == old(sem) + if !full && code != 0 then 2 else 1
      ensures log == old(log) + if !full && code == 0 then [Sent(op, was.recycle, was.streamEnd, false)] else []
      ensures Abs() == old(Abs()).(sem := sem, log := log)
    {
      sem := sem + 1;
      if !full && code != 0 { sem := sem + 1; }
      if !full && code == 0 { log := log + [Sent(op, was.recycle, was.streamEnd, false)]; }
    }

    /** The rest of an enqueue, once the token is held. */
    method EnqueueHeld(op: Op, first: int, second: int) returns (full: bool, code: int, ghost fd: Frc.Fd)
      requires Valid() && Linked() && first <= 0 && second <= 0
      modifies this, fifo, units, driver`queue, driver`inFlight, driver`counters
      ensures Valid() && driver.Valid() && full == (|old(Window())| >= fifo.numBufs)
      ensures !full ==> code == Drv.EnqueueResult(driver.hasErratum, first, second)
      ensures Abs() ==
          Posted(if full then old(Abs()) else Transmitted(old(Abs()), op, first, code), op, full, code, old(Abs()))
      ensures Linked() <==> (full || (first == 0 <==> code == 0))
      ensures !full && first == 0 ==> Delivered(old(AbsStack()), AbsStack(), flow, op, fd, Workaround(second))
    {
      ghost var was := Abs();
      full, code, fd := SendOp(op, first, second);
      ghost var s := Abs();
      PostAfter(op, full, code, was);
      PostedIs(Abs(), s, op, full, code, was);
    }

    /** dce_enqueue_fd_pair; `first` and `second` are the results of the hardware
        enqueues, 0 or a negative error. Ring, device and counter still agree
        afterwards exactly when the driver told the truth about the frame. */
    method Enqueue(op: Op, first: int, second: int) returns (code: int, ghost fd: Frc.Fd)
      requires Valid() && Linked() && first <= 0 && second <= 0
      requires sem > 0 ==> recycleTodo == 0
      modifies this, fifo, units, driver`queue, driver`inFlight, driver`counters
      ensures Valid() && driver.Valid()
      ensures (Abs(), code) ==
          EnqueueOutcome(old(Abs()), op, first, Drv.EnqueueResult(driver.hasErratum, first, second))
      ensures var sent := DceSession.Enqueue(old(Abs()), op).1 == 0;
              && (Linked() <==> (sent ==> (first == 0 <==> code == 0)))
              && (sent && first == 0 && code >= 0 ==>
                    Stk.IsSend(old(AbsStack()), AbsStack(), flow, EnqueueOp(op), fd, Workaround(second)))
    {
      ghost var j := AbsStack();
      fd := Frc.ZERO_FD;
      if sem == 0 {
        code := if recycleTodo > 0 then -EACCES else -EBUSY;
        return;
      }
      sem := sem - 1;
      assert recycleTodo == 0;
      assert AbsStack() == j.(s := j.s.(sem := j.s.sem - 1));
      var full;
      full, code, fd := EnqueueHeld(op, first, second);
      EnqueueIs(j, AbsStack(), op, first, full, code, flow, fd, Workaround(second));
      if full { code := -ENOSPC; }
    }

    /** One op leaves the recycle account; 1 says that it was the last. */
    method ReleaseOne() returns (code: int)
      requires Valid() && recycleTodo > 0
      modifies this`recycleTodo, this`recyclerAllowed, this`sem
      ensures Valid() && code == (if old(recycleTodo) == 1 then 1 else 0)
      ensures AbsStack() == old(AbsStack()).(s := Release(old(Abs())))
    {
      code := 0;
      recycleTodo := recycleTodo - 1;
      recyclerAllowed := recycleTodo > 0;
      if !recyclerAllowed {
        sem := sem + 1;
        code := 1;
      }
    }

    /** The last op gives the token back. */
    method ReleaseAfter(op: Op, full: bool, ret: int, ghost was: State) returns (code: int)
      requires Valid() && driver.Valid() && recycleTodo > 0
      modifies this`recycleTodo, this`recyclerAllowed, this`sem, this`log
      ensures Valid() && driver.Valid() && (Linked() <==> old(Linked()))
      ensures AbsStack() == old(AbsStack()).(s := Released(old(Abs()), op, full, ret, was))
      ensures code == if full then -ENOSPC else if ret != 0 then ret else if old(recycleTodo) == 1 then 1 else 0
    {
      if full { return -ENOSPC; }
      if ret != 0 { return ret; }
      code := ReleaseOne();
      log := log + [Sent(op, was.recycle, was.streamEnd, true)];
    }

    /** dce_recycle_fd_pair, with the same results of the hardware enqueues. */
    method Recycle(op: Op, first: int, second: int) returns (code: int, ghost fd: Frc.Fd)
      requires Valid() && Linked() && first <= 0 && second <= 0
      requires recyclerAllowed ==> recycleTodo > 0
      modifies this, fifo, units, driver`queue, driver`inFlight, driver`counters
      ensures Valid() && driver.Valid()
      ensures (Abs(), code) ==
          RecycleOutcome(old(Abs()), op, first, Drv.EnqueueResult(driver.hasErratum, first, second))
      ensures var sent := DceSession.Recycle(old(Abs()), op).1 >= 0;
              && (Linked() <==> (sent ==> (first == 0 <==> code >= 0)))
              && (sent && first == 0 && code >= 0 ==>
                    Stk.IsSend(old(AbsStack()), AbsStack(), flow, RecycleOp(op), fd, Workaround(second)))
    {
      ghost var j := AbsStack();
      fd := Frc.ZERO_FD;
      if !recyclerAllowed { return -EACCES, fd; }
      assert recycleTodo > 0;
      var full, ret;
      full, ret, fd := SendOp(op, first, second);
      code := ReleaseAfter(op, full, ret, j.s);
      RecycleIs(j, AbsStack(), op, first, full, ret, flow, fd, Workaround(second));
    }

    /** Success is always reported as 0, also when the session leaves recycle
        mode: the 1 announced by the header is overwritten by the unlock. */
    method RecycleDiscard() returns (code: int)
      requires Valid() && (recyclerAllowed ==> recycleTodo > 0)
      modifies this
      ensures Valid() && (Abs(), code) == Discard(old(Abs()))
      ensures code <= 0
    {
      if !recyclerAllowed { return -EACCES; }
      assert recycleTodo > 0;
      code := ReleaseOne();
      code := 0;
      log := log + [Discarded];
    }

    method StreamContinue()
      requires Valid() && MayAcknowledge(Abs())
      modifies this
      ensures Valid() && Abs() == Continue(old(Abs()))
    {
      recycle := true;
      recyclerAllowed := true;
      streamEnd := false;
      log := log + [Continued];
    }

    method StreamAbort()
      requires Valid() && MayAcknowledge(Abs())
      modifies this
      ensures Valid() && Abs() == Abort(old(Abs()))
    {
      recycle := true;
      recyclerAllowed := true;
      streamEnd := true;
      log := log + [Aborted];
    }

    /** The hardware answers its oldest frame; nothing in memory changes yet. */
    ghost method HardwareAnswers(reply: Reply)
      requires Valid() && MayAnswer(Abs(), reply)
      modifies this
      ensures Valid() && Abs() == Answer(old(Abs()), reply)
    {
      hwSuspended := NextSuspended(hwSuspended, reply.status);
      answers := answers + [reply];
      log := log + [Answered(reply)];
    }

    /** internal_callback: the frame's address identifies the work unit. */
    method Callback(buf: nat, reply: Reply, ghost k: nat)
      requires Valid() && k < |Window()| && !Window()[k].state.Free?
      requires buf == At(fifo.numBufs, fifo.freer, k)
      modifies units
      ensures Valid() && Window() == old(Window())[k := CompletedUnit(old(Window())[k], reply)]
    {
      ghost var mem := units[..];
      assert fifo.Count() > 0;
      units[buf] := units[buf].(output := Fd(units[buf].output.addr, reply.outputLen), reply := reply);
      units[buf] := units[buf].(state := Done);
      assert units[..] == mem[buf := units[buf]];
      LapUpdate(mem, fifo.freer, fifo.Count(), k, units[buf]);
    }

    /** A reply that is the session's is known by the flow context in it; what the
        driver was told to be the flow's is called back at the frame's address. */
    method ReceiveOwn(reply: Drv.Frame, answer: Reply)
      requires Valid() && Linked() && HardwareLaw(Abs())
      requires driver.queue != [] && Drv.Answers(driver.nextFlc, driver.queue[0], reply)
      requires Stk.LegalMove(AbsStack(), flow, Stk.Receive) && Drv.Belongs(driver.queue[0], flow)
      requires 0 <= Stk.CalledBack(AbsStack(), flow) && answer == answers[Stk.CalledBack(AbsStack(), flow)]
      modifies units, driver`queue, driver`inFlight, driver`counters, driver`lost, driver`lostTotal
      ensures Valid() && Linked() && AbsStack() == Stk.Take(old(AbsStack()), flow, Stk.Receive)
    {
      ghost var j := AbsStack();
      LinkedAgrees();
      Stk.ReceiveAgrees(j, flow);
      Stk.TakeOwnReply(j, flow);
      CounterDrop(driver.counters, flow);
      var called := driver.DispatchOne(reply);
      assert called == flow;
      ghost var s := Abs();
      assert s == j.s.(inFlight := j.s.inFlight - 1);
      Callback(reply.addr - 1, answer, Stk.CalledBack(j, flow));
      assert Abs() == s.(ring := Window());
    }

    method ReceiveOther(reply: Drv.Frame)
      requires Valid() && Linked() && HardwareLaw(Abs())
      requires driver.queue != [] && Drv.Answers(driver.nextFlc, driver.queue[0], reply)
      requires Stk.LegalMove(AbsStack(), flow, Stk.Receive) && !Drv.Belongs(driver.queue[0], flow)
      modifies driver`queue, driver`inFlight, driver`counters, driver`lost, driver`lostTotal
      ensures Valid() && Linked() && AbsStack() == Stk.Take(old(AbsStack()), flow, Stk.Receive)
    {
      ghost var j := AbsStack();
      LinkedAgrees();
      Stk.ReceiveAgrees(j, flow);
      Stk.TakeOthersReply(j, flow);
      var called := driver.DispatchOne(reply);
      assert called != flow;
    }

    /** A frame of another flow of the same interface, and the workaround frame
        behind it: for the session, frames of somebody else. */
    method OtherEnqueue(other: nat, fd: Frc.Fd, addr: nat, first: int, second: int)
      returns (err: int, ghost taken: seq<Drv.Frame>)
      requires Valid() && Linked() && other != flow && driver.Live(other) && addr != Drv.WORKAROUND
      modifies driver`queue, driver`inFlight, driver`counters
      ensures Valid() && Linked() && forall i :: 0 <= i < |taken| ==> !Drv.Belongs(taken[i], flow)
      ensures AbsStack() == Stk.TakeOthers(old(AbsStack()), flow, taken)
    {
      ghost var j, queue := AbsStack(), driver.queue;
      LinkedAgrees();
      err, taken := driver.EnqueueFd(other, fd, addr, first, second);
      ghost var q := Drv.Frame(Drv.Sent(fd, driver.live[other]), other, addr);
      ghost var w := driver.hasErratum && Frc.Field(Frc.CMD, fd) == Frc.CMD_PROCESS && Frc.Field(Frc.SF, fd) == 1;
      Stk.OthersAreTaken(j, flow, q, w, driver.workaroundFd, first, second);
      Drv.OfOthers(queue, taken, flow);
      LinkedAgrees();
    }

    /** The switch of the dequeue loop, on the recycle fields. */
    method AccountFor(status: nat, numAlloc: nat)
      requires recycleTodo == 0 ==> sem > 0
      modifies this`sem, this`recycleTodo, this`recyclerAllowed
      ensures Classify(status).Suspend? ==>
                && sem == (if old(recycleTodo) == 0 then old(sem) - 1 else old(sem))
                && recycleTodo == old(recycleTodo) + numAlloc && !recyclerAllowed
      ensures Classify(status).Terminal? && old(recycleTodo) > 0 ==>
                sem == old(sem) + 1 && recycleTodo == 0 && !recyclerAllowed
      ensures !Classify(status).Suspend? && (Classify(status).Terminal? ==> old(recycleTodo) == 0) ==>
                sem == old(sem) && recycleTodo == old(recycleTodo) && recyclerAllowed == old(recyclerAllowed)
    {
      match Classify(status)
      case Suspend =>
        if recycleTodo == 0 { sem := sem - 1; }
        recyclerAllowed := false;
        recycleTodo := recycleTodo + numAlloc;
      case Terminal =>
        if recycleTodo > 0 {
          recycleTodo := 0;
          recyclerAllowed := false;
          sem := sem + 1;
        }
      case _ =>
    }

    /** Mark the head FREE, read it out, and move the head. */
    method TakeHead() returns (u: Unit)
      requires Valid() && fifo.Count() > 0
      modifies fifo`freer, units
      ensures Valid() && u == old(Window()[0]) && Window() == old(Window())[1..]
      ensures fifo.freer == Stk.Next(fifo.numBufs, old(fifo.freer))
    {
      ghost var mem, freer, count := units[..], fifo.freer, fifo.Count();
      var buf := fifo.HeadSeek(0);
      u := units[buf];
      units[buf] := units[buf].(state := Free);
      assert units[..] == mem[buf := units[buf]];
      LapUpdate(mem, freer, count, 0, units[buf]);
      fifo.FreeHead();
      LapDrop(units[..], freer, fifo.freer, count);
      assert forall k: nat :: count - 1 <= k < |mem| - 1 ==>
          At(|mem|, fifo.freer, k) == At(|mem|, freer, k + 1);
    }

    method DequeueHead() returns (rx: Rx)
      requires Valid() && HeadDone(Abs()) && Unblocked(Abs())
      modifies this, fifo, units
      ensures Valid() && Abs() == DequeueOne(old(Abs())) && fifo.freer == Stk.Next(fifo.numBufs, old(fifo.freer))
      ensures log == old(log) + [Returned(OpOf(old(Window()[0])), rx)]
    {
      var numAlloc := fifo.Count();
      var u := TakeHead();
      rx := Rx(u.input, u.output, u.reply.flush, u.reply.status, 0, u.context);
      match Classify(u.reply.status) {
        case Processed => rx := rx.(consumed := u.input.len);
        case Suspend => rx := rx.(consumed := u.reply.consumed);
        case _ => rx := rx.(output := Fd(u.output.addr, u.outputLength));
      }
      AccountFor(u.reply.status, numAlloc);
      answers := answers[1..];
      log := log + [Returned(OpOf(u), rx)];
    }

    /** The gap assertion of the dequeue loop: no FREE slot inside the window. */
    method CheckNoGap() returns (ok: bool)
      requires Valid() && RingMatches(Window(), answers)
      ensures ok
    {
      ok := true;
      if fifo.Count() > 2 {
        var next := fifo.HeadSeek(1);
        assert units[next] == Window()[1];
        ok := !units[next].state.Free?;
      }
    }

    /** One test and one iteration of the dequeue loop. Emptiness is not tested:
        the state of the slot under the head index decides. */
    method DequeueNext(ops: array<Rx>, n: nat) returns (more: bool)
      requires Valid() && Unblocked(Abs()) && RingMatches(Window(), answers) && n < ops.Length
      modifies this, fifo, units, ops
      ensures Valid() && more == HeadDone(old(Abs()))
      ensures !more ==> AbsStack() == old(AbsStack()) && ops[..] == old(ops[..])
      ensures more ==> Abs() == DequeueOne(old(Abs())) && ops[..n] == old(ops[..n])
      ensures more ==> fifo.freer == Stk.Next(fifo.numBufs, old(fifo.freer))
      ensures more ==> Received(log) == Received(old(log)) + [ops[n]]
    {
      HeadIsNeverStale();
      var head := fifo.HeadSeek(0);
      more := units[head].state.Done?;
      if more {
        ghost var before := log;
        var ok := CheckNoGap();
        assert ok;
        var rx := DequeueHead();
        DceRuns.LogStep(before, log[|before|]);
        ops[n] := rx;
      }
    }

    /** dce_dequeue_fd_pair: hands over up to `numOps` finished ops from the
        head, in order, and nothing else. */
    method Dequeue(ops: array<Rx>, numOps: nat) returns (n: nat)
      requires Valid() && Unblocked(Abs()) && RingMatches(Window(), answers) && numOps <= ops.Length
      modifies this, fifo, units, ops
      ensures Valid() && Abs() == DequeueMany(old(Abs()), numOps) && |Window()| <= |old(Window())|
      ensures fifo.freer == Stk.Advance(fifo.numBufs, old(fifo.freer), |old(Window())| - |Window()|)
      ensures old(Linked()) ==> Linked()
      ensures n <= numOps && Received(log) == Received(old(log)) + ops[..n]
      ensures n == numOps || !HeadDone(Abs())
    {
      ghost var s, frames, freer := Abs(), Drv.Of(driver.queue, flow), fifo.freer;
      ghost var to := OnTheWayStart(s, numOps, fifo.numBufs, freer);
      n := DequeueLoop(ops, numOps, DequeueMany(s, numOps), to);
      PlacedAfter(s, numOps, frames, freer, Window(), fifo.freer);
    }

    method DequeueLoop(ops: array<Rx>, numOps: nat, ghost goal: State, ghost to: nat) returns (n: nat)
      requires Valid() && numOps <= ops.Length && OnTheWay(Abs(), numOps, goal, fifo.numBufs, fifo.freer, to)
      modifies this, fifo, units, ops
      ensures Valid() && Abs() == goal && fifo.freer == to
      ensures n <= numOps && Received(log) == Received(old(log)) + ops[..n]
      ensures n == numOps || !HeadDone(goal)
    {
      n := 0;
      ghost var cur, left: nat, had := Abs(), numOps, Received(log);
      var more := true;
      while n < numOps && more
        invariant n + left == numOps && Midway(ops, n, cur, left, goal, to, had)
        invariant !more ==> !HeadDone(cur)
        decreases numOps - n, more
      {
        more, cur := DequeueStep(ops, n, cur, left, goal, to, had);
        if more { n, left := n + 1, left - 1; }
      }
      OnTheWayEnd(cur, left, goal, fifo.numBufs, fifo.freer, to);
    }

    /** In the dequeue loop: `n` ops handed over, `left` more wanted, the free
        index on its way to `to`. */
    ghost predicate Midway(ops: array<Rx>, n: nat, cur: State, left: nat, goal: State, to: nat, had: seq<Rx>)
      reads this, fifo, units, ops, driver
    {
      && n + left <= ops.Length && Valid() && Abs() == cur
      && OnTheWay(cur, left, goal, fifo.numBufs, fifo.freer, to)
      && Received(log) == had + ops[..n]
    }

    method DequeueStep(ops: array<Rx>, n: nat, ghost cur: State, ghost left: nat, ghost goal: State, ghost to: nat,
        ghost had: seq<Rx>)
      returns (more: bool, ghost cur': State)
      requires left > 0 && Midway(ops, n, cur, left, goal, to, had)
      modifies this, fifo, units, ops
      ensures more == HeadDone(cur)
      ensures if more then Midway(ops, n + 1, cur', left - 1, goal, to, had)
              else cur' == cur && Midway(ops, n, cur, left, goal, to, had)
    {
      cur' := cur;
      ghost var freer := fifo.freer;
      more := DequeueNext(ops, n);
      if more {
        OnTheWayNext(cur, left, goal, fifo.numBufs, freer, to);
        assert ops[..n + 1] == ops[..n] + [ops[n]];
        cur' := DequeueOne(cur);
      }
    }

    /** A DONE slot under the head index is the oldest allocated one, never a
        leftover, although emptiness is not tested. */
    lemma HeadIsNeverStale()
      requires Valid()
      ensures var u := units[..][At(fifo.numBufs, fifo.freer, 0)];
              if u.state.Done? then fifo.Count() > 0 && Window()[0] == u
              else fifo.Count() > 0 ==> !Window()[0].state.Done?
    {
    }

    /** dce_session_destroy refuses exactly while the device holds a frame of the
        flow, and otherwise gives the flow back. */
    method Destroy() returns (code: int)
      requires Valid() && Linked()
      modifies driver, driver.table
      ensures code == Stk.DestroyCode(old(AbsStack()), flow) && driver.queue == old(driver.queue)
      ensures code == -EBUSY <==> exists i :: 0 <= i < |driver.queue| && Drv.Belongs(driver.queue[i], flow)
      ensures code == -EBUSY <==> exists k :: 0 <= k < |Window()| && !Window()[k].state.Done?
      ensures driver.Valid() && driver.Live(flow) == (code != 0)
    {
      Stk.CoupledCount(Window(), Drv.Of(driver.queue, flow), fifo.numBufs, fifo.freer);
      AllDoneIffNone(Window());
      HeldIff(driver.queue, flow);
      if driver.counters[flow] > 0 { return -EBUSY; }
      driver.Destroy(flow);
      code := 0;
    }
  }

  lemma HeldIff(queue: seq<Drv.Frame>, flow: nat)
    ensures Drv.Counted(queue, flow) > 0 <==> exists i :: 0 <= i < |queue| && Drv.Belongs(queue[i], flow)
  {
    if Drv.Counted(queue, flow) > 0 { var i := Drv.SomeCounted(queue, flow); } else { Drv.NoneCounted(queue, flow); }
  }

  /** A session state in which the frame of `op` went out, or was refused with
      `code`. */
  function Transmitted(s: State, op: Op, first: int, code: int): State {
    s.(ring := if code == 0 then s.ring + [FilledUnit(op, s.recycle, s.streamEnd)] else s.ring,
       recycle := false, streamEnd := op.flush.Finish?, inFlight := s.inFlight + Hit(first))
  }

  lemma TransmittedIs(t: State, s: State, op: Op, first: int, code: int)
    requires t.capacity == s.capacity && t.answers == s.answers && t.hwSuspended == s.hwSuspended && t.sem == s.sem
    requires t.todo == s.todo && t.allowed == s.allowed && t.log == s.log
    requires !t.recycle && t.streamEnd == op.flush.Finish? && t.inFlight == s.inFlight + Hit(first)
    requires t.ring == if code == 0 then s.ring + [FilledUnit(op, s.recycle, s.streamEnd)] else s.ring
    ensures t == Transmitted(s, op, first, code)
  {
  }

  /** What an enqueue does when the driver returns `ret`: the step, or the failure
      step; the counter goes by what really happened to the frame. */
  function EnqueueOutcome(s: State, op: Op, first: int, ret: int): (State, int) {
    var (t, c) := DceSession.Enqueue(s, op);
    if c != 0 then (t, c)
    else ((if ret == 0 then t else EnqueueIoFailure(s, op)).(inFlight := s.inFlight + Hit(first)), ret)
  }

  function RecycleOutcome(s: State, op: Op, first: int, ret: int): (State, int) {
    var (t, c) := DceSession.Recycle(s, op);
    if c < 0 then (t, c)
    else
      ((if ret == 0 then t else RecycleIoFailure(s, op)).(inFlight := s.inFlight + Hit(first)),
       if ret == 0 then c else ret)
  }

  /** The frame `fd` for the op was put in the device and counted. */
  ghost predicate Delivered(j: Stk.Stack, k: Stk.Stack, flow: nat, op: Op, fd: Frc.Fd, extras: seq<Drv.Frame>) {
    && Frc.Carries(fd, true, j.s.recycle, j.s.streamEnd, Stk.FlushCode(op.flush))
    && k.device == j.device + [Drv.Frame(fd, flow, Stk.Addr(At(j.s.capacity, j.freer, |j.s.ring|)))] + extras
    && k.counters == Drv.Bump(j.counters, flow, 1) && k.freer == j.freer
  }

  ghost function Posted(s: State, op: Op, full: bool, code: int, was: State): State {
    if full then s.(sem := s.sem + 1)
    else if code != 0 then s.(sem := s.sem + 2)
    else s.(sem := s.sem + 1, log := s.log + [Sent(op, was.recycle, was.streamEnd, false)])
  }

  ghost function Released(s: State, op: Op, full: bool, ret: int, was: State): State
    requires s.todo > 0
  {
    if full || ret != 0 then s else Release(s).(log := s.log + [Sent(op, was.recycle, was.streamEnd, true)])
  }

  lemma PostedIs(t: State, s: State, op: Op, full: bool, code: int, was: State)
    requires t == s.(sem := t.sem, log := t.log)
    requires t.sem == s.sem + if !full && code != 0 then 2 else 1
    requires t.log == s.log + if !full && code == 0 then [Sent(op, was.recycle, was.streamEnd, false)] else []
    ensures t == Posted(s, op, full, code, was)
  {
  }

  /** Taking the token, transmitting and posting make up the outcome. */
  lemma EnqueueIs(j: Stk.Stack, k: Stk.Stack, op: Op, first: int, full: bool, ret: int, flow: nat, fd: Frc.Fd,
      extras: seq<Drv.Frame>)
    requires |extras| <= 1 && forall i :: 0 <= i < |extras| ==> extras[i].addr == Drv.WORKAROUND
    requires j.s.sem > 0 && full == (|j.s.ring| >= j.s.capacity)
    requires var s := j.s.(sem := j.s.sem - 1);
             k.s == Posted(if full then s else Transmitted(s, op, first, ret), op, full, ret, s)
    ensures EnqueueOutcome(j.s, op, first, ret) == (k.s, if full then -ENOSPC else ret)
    ensures DceSession.Enqueue(j.s, op).1 == (if full then -ENOSPC else 0)
    ensures !full && ret == 0 && first == 0 && Delivered(j, k, flow, op, fd, extras) ==>
              Stk.IsSend(j, k, flow, EnqueueOp(op), fd, extras)
  {
    if !full && ret == 0 && first == 0 && Delivered(j, k, flow, op, fd, extras) {
      Stk.SendIs(j, k, flow, EnqueueOp(op), fd, extras);
    }
  }

  lemma RecycleIs(j: Stk.Stack, k: Stk.Stack, op: Op, first: int, full: bool, ret: int, flow: nat, fd: Frc.Fd,
      extras: seq<Drv.Frame>)
    requires |extras| <= 1 && forall i :: 0 <= i < |extras| ==> extras[i].addr == Drv.WORKAROUND
    requires j.s.allowed && j.s.todo > 0 && full == (|j.s.ring| >= j.s.capacity) && (!full ==> ret <= 0)
    requires k.s == Released(if full then j.s else Transmitted(j.s, op, first, ret), op, full, ret, j.s)
    ensures RecycleOutcome(j.s, op, first, ret) ==
            (k.s, if full then -ENOSPC else if ret != 0 then ret else if j.s.todo == 1 then 1 else 0)
    ensures DceSession.Recycle(j.s, op).1 == (if full then -ENOSPC else if j.s.todo == 1 then 1 else 0)
    ensures !full && ret == 0 && first == 0 && Delivered(j, k, flow, op, fd, extras) ==>
              Stk.IsSend(j, k, flow, RecycleOp(op), fd, extras)
  {
    if !full && ret == 0 && first == 0 && Delivered(j, k, flow, op, fd, extras) {
      Stk.SendIs(j, k, flow, RecycleOp(op), fd, extras);
    }
  }

  /** Ring and frames agree exactly when both or neither got the new unit. */
  lemma AgreeIff(ring: seq<Unit>, frames: seq<Drv.Frame>, n: nat, freer: nat, u: Unit, fr: Drv.Frame, framed: bool,
      ringed: bool)
    requires Stk.Placed(ring, frames, n, freer) && |ring| < n && u.state.Todo?
    requires fr.addr == Stk.Addr(At(n, freer, |ring|)) && Stk.CarriesUnit(fr.fd, u)
    ensures Stk.Placed(if ringed then ring + [u] else ring, if framed then frames + [fr] else frames, n, freer) <==>
        (framed == ringed)
  {
    Stk.CoupledSend(ring, frames, n, freer, u, fr);
    Stk.CoupledIsTight(ring, frames, n, freer, u, fr);
  }

  function Hit(first: int): nat { if first >= 0 then 1 else 0 }

  /** `left` more dequeues lead from `cur` to `goal`, and the free index to `to`. */
  ghost predicate OnTheWay(cur: State, left: nat, goal: State, n: nat, freer: nat, to: nat) {
    && Unblocked(cur) && RingMatches(cur.ring, cur.answers)
    && DequeueMany(cur, left) == goal && |goal.ring| <= |cur.ring|
    && Stk.Advance(n, freer, |cur.ring| - |goal.ring|) == to
  }

  lemma PlacedAfter(s: State, n: nat, frames: seq<Drv.Frame>, freer: nat, ring: seq<Unit>, to: nat)
    requires Unblocked(s) && ring == DequeueMany(s, n).ring && |ring| <= |s.ring|
    requires to == Stk.Advance(s.capacity, freer, |s.ring| - |ring|)
    ensures Stk.Placed(s.ring, frames, s.capacity, freer) ==> Stk.Placed(ring, frames, s.capacity, to)
  {
    if Stk.Placed(s.ring, frames, s.capacity, freer) { Stk.DequeueKeepsCoupled(s, n, frames, freer); }
  }

  lemma OnTheWayStart(cur: State, left: nat, n: nat, freer: nat) returns (to: nat)
    requires Unblocked(cur) && RingMatches(cur.ring, cur.answers)
    ensures var goal := DequeueMany(cur, left);
            && |goal.ring| <= |cur.ring| && to == Stk.Advance(n, freer, |cur.ring| - |goal.ring|)
            && OnTheWay(cur, left, goal, n, freer, to)
  {
    DequeueShrinks(cur, left);
    to := Stk.Advance(n, freer, |cur.ring| - |DequeueMany(cur, left).ring|);
  }

  lemma OnTheWayEnd(cur: State, left: nat, goal: State, n: nat, freer: nat, to: nat)
    requires OnTheWay(cur, left, goal, n, freer, to) && (left == 0 || !HeadDone(cur))
    ensures cur == goal && freer == to
  {
  }

  lemma OnTheWayNext(cur: State, left: nat, goal: State, n: nat, freer: nat, to: nat)
    requires OnTheWay(cur, left, goal, n, freer, to) && left > 0 && HeadDone(cur)
    ensures OnTheWay(DequeueOne(cur), left - 1, goal, n, Stk.Next(n, freer), to)
  {
    DceRuns.DequeueAdvances(cur, left);
    DequeueShrinks(DequeueOne(cur), left - 1);
  }

  lemma {:induction false} DequeueShrinks(s: State, n: nat)
    ensures |DequeueMany(s, n).ring| <= |s.ring|
    decreases n
  {
    if n > 0 && HeadDone(s) && (s.todo > 0 || s.sem > 0) { DequeueShrinks(DequeueOne(s), n - 1); }
  }

  lemma {:induction false} AllDoneIffNone(ring: seq<Unit>)
    ensures NotDone(ring) == 0 <==> forall k :: 0 <= k < |ring| ==> ring[k].state.Done?
  {
    if ring != [] {
      AllDoneIffNone(ring[1..]);
      assert forall k :: 0 < k < |ring| ==> ring[k] == ring[1..][k - 1];
    }
  }
}
