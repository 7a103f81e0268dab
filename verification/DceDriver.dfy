/**
  The DPDCEI driver layer: the flow lookup table, the in-flight counters, and
  the frames the device holds.
 */
module DceDriver {
  import opened Errno
  import opened BitCodec
  import opened FrcFields

  const NULL := -1
  const FLOW_LIMIT := 65535

  /** A frame in the device or on its way back: the words of the descriptor with
      the FRC, its flow context pointer FD[FLC], and its address. Flows, and
      their context records, are numbered. */
  datatype Frame = Frame(fd: Fd, flc: nat, addr: nat)

  /** The address of the erratum workaround frame, which is nobody's. */
  const WORKAROUND := 0

  function Cmd(q: Frame): nat { Field(CMD, q.fd) }

  /** A reply the receive loop drops before it touches a counter. */
  predicate Dropped(q: Frame) {
    q.addr == WORKAROUND || Cmd(q) == CMD_CTX_INVALIDATE
  }

  /** Replies lost per flow, after the reply to `q`. */
  function LostAfter(lost: seq<nat>, q: Frame): seq<nat> {
    if Dropped(q) && q.addr != WORKAROUND && q.flc < |lost| then lost[q.flc := lost[q.flc] + 1] else lost
  }

  predicate Belongs(q: Frame, flow: int) {
    q.addr != WORKAROUND && (flow == -1 || q.flc == flow)
  }

  /** The frames sent for `flow` (for any flow, with -1), in order. */
  function Of(queue: seq<Frame>, flow: int): seq<Frame> {
    if queue == [] then []
    else Of(queue[..|queue| - 1], flow) + if Belongs(queue[|queue| - 1], flow) then [queue[|queue| - 1]] else []
  }

  /** How many they are: each was counted when sent. */
  function Counted(queue: seq<Frame>, flow: int): nat { |Of(queue, flow)| }

  /** The device answers frame `q` with `r`: it keeps the address, the command
      and the token, and puts the NEXT_FLC of the frame's context record in its
      FLC field. */
  predicate Answers(nextFlc: seq<nat>, q: Frame, r: Frame) {
    && r.addr == q.addr && Cmd(r) == Cmd(q)
    && (Cmd(q) == CMD_NOP ==> Field(NOP_TOKEN, r.fd) == Field(NOP_TOKEN, q.fd))
    && (Cmd(q) == CMD_PROCESS ==> q.flc < |nextFlc| && r.flc == nextFlc[q.flc])
  }

  /** The flows whose frames these are, in order, without the dropped ones. */
  function Callbacks(frames: seq<Frame>): seq<nat> {
    if frames == [] then []
    else
      Callbacks(frames[..|frames| - 1])
      + var q := frames[|frames| - 1]; if Dropped(q) then [] else [q.flc]
  }

  function Bump(counters: seq<int>, flow: nat, delta: int): seq<int> {
    if flow < |counters| then counters[flow := counters[flow] + delta] else counters
  }

  function Total(counters: seq<int>): int {
    if counters == [] then 0 else counters[0] + Total(counters[1..])
  }

  lemma {:induction false} TotalUpdate(counters: seq<int>, i: nat, x: int)
    requires i < |counters|
    ensures Total(counters[i := x]) == Total(counters) - counters[i] + x
  {
    if i == 0 {
      assert counters[0 := x][1..] == counters[1..];
    } else {
      assert counters[i := x][1..] == counters[1..][i - 1 := x];
      TotalUpdate(counters[1..], i - 1, x);
    }
  }

  lemma OfAppend(queue: seq<Frame>, q: Frame, flow: int)
    ensures Of(queue + [q], flow) == Of(queue, flow) + if Belongs(q, flow) then [q] else []
  {
    assert (queue + [q])[..|queue|] == queue;
  }

  lemma {:induction false} OfHead(queue: seq<Frame>, flow: int)
    requires queue != []
    ensures Of(queue, flow) == (if Belongs(queue[0], flow) then [queue[0]] else []) + Of(queue[1..], flow)
  {
    var n := |queue| - 1;
    if n > 0 {
      OfHead(queue[..n], flow);
      assert queue[..n][1..] == queue[1..][..n - 1];
      assert queue[1..][n - 1] == queue[n];
    }
  }

  lemma CountedAppend(queue: seq<Frame>, q: Frame, flows: nat)
    ensures forall f :: -1 <= f < flows ==>
        Counted(queue + [q], f) == Counted(queue, f) + if Belongs(q, f) then 1 else 0
  {
    forall f | -1 <= f < flows ensures Counted(queue + [q], f) == Counted(queue, f) + if Belongs(q, f) then 1 else 0 {
      OfAppend(queue, q, f);
    }
  }

  lemma CountedTail(queue: seq<Frame>, flows: nat)
    requires queue != []
    ensures forall f :: -1 <= f < flows ==>
        Counted(queue, f) == Counted(queue[1..], f) + if Belongs(queue[0], f) then 1 else 0
  {
    forall f | -1 <= f < flows
      ensures Counted(queue, f) == Counted(queue[1..], f) + if Belongs(queue[0], f) then 1 else 0
    {
      OfHead(queue, f);
    }
  }

  // ----- the flow table -----

  /** `live[f]` is the key of a live flow and 0 otherwise. Live flows and
      occupied slots 1.. are in bijection: the slot of a live flow's key holds
      the flow, and an occupied slot is the key of the flow it holds. */
  ghost predicate TableLaw(table: seq<int>, live: seq<nat>) {
    && (forall f :: 0 <= f < |live| && live[f] != 0 ==> live[f] < |table| && table[live[f]] == f)
    && (forall i :: Used(table, i) ==> 0 <= table[i] < |live| && live[table[i]] == i)
  }

  lemma TableAdd(table: seq<int>, live: seq<nat>, flow: nat, entry: nat)
    requires TableLaw(table, live) && flow < |live| && live[flow] == 0
    requires 1 <= entry < |table| && table[entry] == NULL
    ensures TableLaw(table[entry := flow], live[flow := entry])
  {
    var t, l := table[entry := flow], live[flow := entry];
    forall i | Used(t, i) ensures 0 <= t[i] < |l| && l[t[i]] == i {
      assert i != entry ==> Used(table, i);
    }
  }

  predicate Used(table: seq<int>, i: int) { 1 <= i < |table| && table[i] != NULL }

  predicate Known(cmd: nat) {
    cmd == CMD_PROCESS || cmd == CMD_NOP || cmd == CMD_CTX_INVALIDATE
  }

  /** What the device ends up holding of a frame and its workaround frame. */
  function Accepted(q: Frame, workaround: bool, extra: Fd, first: int, second: int): seq<Frame> {
    (if first >= 0 then [q] else []) + Extras(workaround, extra, second)
  }

  /** The workaround frame behind a frame, if it was taken. */
  function Extras(workaround: bool, extra: Fd, second: int): seq<Frame> {
    if workaround && second >= 0 then [Frame(extra, 0, WORKAROUND)] else []
  }

  /** The frame is there exactly when the hardware took it, and the workaround
      frame right behind it, exactly when one was sent and taken. */
  lemma AcceptedIs(q: Frame, workaround: bool, extra: Fd, first: int, second: int)
    requires q.addr != WORKAROUND
    ensures var a := Accepted(q, workaround, extra, first, second);
            && |a| == (if first < 0 then 0 else 1) + (if workaround && second >= 0 then 1 else 0)
            && (q in a <==> first >= 0) && (q in a ==> a[0] == q)
            && (Frame(extra, 0, WORKAROUND) in a <==> workaround && second >= 0)
  {
  }

  lemma AcceptedInTwoSteps(queue: seq<Frame>, q: Frame, workaround: bool, extra: Fd, first: int, second: int)
    ensures var then1 := if first >= 0 then queue + [q] else queue;
            queue + Accepted(q, workaround, extra, first, second)
            == if workaround && second >= 0 then then1 + [Frame(extra, 0, WORKAROUND)] else then1
  {
  }

  /** The frames of other flows are not affected. */
  lemma {:induction false} OfOthers(queue: seq<Frame>, taken: seq<Frame>, g: nat)
    requires forall i :: 0 <= i < |taken| ==> !Belongs(taken[i], g)
    ensures Of(queue + taken, g) == Of(queue, g)
  {
    if taken == [] {
      assert queue + taken == queue;
    } else {
      var n := |taken| - 1;
      assert queue + taken == queue + taken[..n] + [taken[n]];
      OfOthers(queue, taken[..n], g);
      OfAppend(queue + taken[..n], taken[n], g);
    }
  }

  /** Those of the sender get the frame, if it was taken. */
  lemma AcceptedOfSender(queue: seq<Frame>, q: Frame, workaround: bool, extra: Fd, first: int, second: int)
    requires q.addr != WORKAROUND
    ensures Of(queue + Accepted(q, workaround, extra, first, second), q.flc)
            == if first >= 0 then Of(queue, q.flc) + [q] else Of(queue, q.flc)
  {
    AcceptedInTwoSteps(queue, q, workaround, extra, first, second);
    var w := Frame(extra, 0, WORKAROUND);
    OfAppend(queue, q, q.flc);
    OfAppend(queue, w, q.flc);
    OfAppend(queue + [q], w, q.flc);
  }

  /** The frame as it leaves: a NOP or CTX_INVALIDATE carries its flow's key. */
  function Sent(fd: Fd, key: nat): Fd {
    if Field(CMD, fd) == CMD_NOP then Set(NOP_TOKEN, fd, key)
    else if Field(CMD, fd) == CMD_CTX_INVALIDATE then Set(CIC_TOKEN, fd, key)
    else fd
  }

  /** A frame the driver may have sent: it names the context record of a live
      flow, and a NOP carries that flow's key as its token. */
  ghost predicate Legit(q: Frame, live: seq<nat>) {
    && q.flc < |live| && live[q.flc] != 0
    && (Cmd(q) == CMD_NOP ==> Field(NOP_TOKEN, q.fd) == live[q.flc])
    && Known(Cmd(q))
  }

  ghost predicate AllLegit(queue: seq<Frame>, live: seq<nat>) {
    forall i {:trigger Legit(queue[i], live)} :: 0 <= i < |queue| && queue[i].addr != WORKAROUND ==>
        Legit(queue[i], live)
  }

  lemma AllLegitAppend(queue: seq<Frame>, q: Frame, live: seq<nat>)
    requires AllLegit(queue, live) && (q.addr != WORKAROUND ==> Legit(q, live))
    ensures AllLegit(queue + [q], live)
  {
    var longer := queue + [q];
    forall i | 0 <= i < |longer| && longer[i].addr != WORKAROUND ensures Legit(longer[i], live) {
      if i < |queue| { assert Legit(queue[i], live); }
    }
  }

  lemma AllLegitTail(queue: seq<Frame>, live: seq<nat>)
    requires AllLegit(queue, live) && queue != []
    ensures AllLegit(queue[1..], live)
  {
    forall i | 0 <= i < |queue[1..]| && queue[1..][i].addr != WORKAROUND ensures Legit(queue[1..][i], live) {
      assert Legit(queue[i + 1], live);
    }
  }

  lemma AllLegitUpdate(queue: seq<Frame>, live: seq<nat>, flow: nat, key: nat)
    requires AllLegit(queue, live) && flow < |live| && Counted(queue, flow) == 0
    ensures AllLegit(queue, live[flow := key])
  {
    NoneCounted(queue, flow);
    forall i | 0 <= i < |queue| && queue[i].addr != WORKAROUND ensures Legit(queue[i], live[flow := key]) {
      assert Legit(queue[i], live) && !Belongs(queue[i], flow);
    }
  }

  /** Stamping the token leaves the command intact and makes the frame legitimate. */
  lemma SentIsLegit(fd: Fd, flow: nat, addr: nat, live: seq<nat>)
    requires flow < |live| && 0 < live[flow] < FLOW_LIMIT
    requires Known(Field(CMD, fd))
    ensures Field(CMD, Sent(fd, live[flow])) == Field(CMD, fd)
    ensures Field(CMD, fd) == CMD_NOP ==> Field(NOP_TOKEN, Sent(fd, live[flow])) == live[flow]
    ensures Field(CMD, fd) == CMD_CTX_INVALIDATE ==> Field(CIC_TOKEN, Sent(fd, live[flow])) == live[flow]
    ensures Field(CMD, fd) == CMD_PROCESS ==> Sent(fd, live[flow]) == fd
    ensures Legit(Frame(Sent(fd, live[flow]), flow, addr), live)
  {
    TokenRoundTrip(fd, live[flow]);
  }

  /** What a nonzero `enqueue_fd` result is worth. With the erratum workaround
      the first result is overwritten by the second. */
  function EnqueueResult(workaround: bool, first: int, second: int): int {
    if workaround then second else first
  }

  /** The result tells whether the frame was queued exactly when there was no
      workaround frame, or both enqueues went the same way. */
  lemma ResultIsTruthfulIff(workaround: bool, first: int, second: int)
    ensures (EnqueueResult(workaround, first, second) < 0 <==> first < 0) <==>
        (!workaround || (first < 0 <==> second < 0))
  {
  }

  class Dpdcei {
    const table: array<int>
    const hasErratum: bool            // version and engine call for the workaround
    const workaroundFd: Fd
    var keys: seq<nat>                // per flow
    var nextFlc: seq<nat>             // per flow: NEXT_FLC in its context record
    var counters: seq<int>            // per flow: frames_in_flight
    var inFlight: int                 // of the whole interface
    ghost var live: seq<nat>          // per flow: its key while it is live, else 0
    ghost var queue: seq<Frame>       // frames the device holds, oldest first
    ghost var lost: seq<nat>          // per flow: CTX_INVALIDATE replies dropped uncounted
    ghost var lostTotal: nat
    ghost var forgotten: nat          // what dce_flow_create took off flow counters

    constructor (size: nat, flows: nat, hasErratum: bool, workaroundFd: Fd)
      requires 1 <= size <= FLOW_LIMIT
      ensures Valid() && fresh(table)
      ensures queue == [] && inFlight == 0 && table.Length == size && |counters| == flows
      ensures this.hasErratum == hasErratum && forall f :: 0 <= f < flows ==> !Live(f) && lost[f] == 0
    {
      table := new int[size](_ => NULL);
      keys := seq(flows, _ => 0);
      nextFlc := seq(flows, _ => 0);
      counters := seq(flows, _ => 0);
      lost := seq(flows, _ => 0);
      this.hasErratum := hasErratum;
      this.workaroundFd := workaroundFd;
      inFlight, live, queue, lostTotal, forgotten := 0, seq(flows, _ => 0), [], 0, 0;
      new;
      TotalOfZeros(counters);
    }

    ghost predicate Live(f: int)
      reads this
    {
      0 <= f < |live| && live[f] != 0
    }

    /** Every counted frame in the device is legitimate. */
    ghost predicate QueueLaw()
      reads this
    {
      AllLegit(queue, live)
    }

    /** The interface counter and each flow counter equal the frames outstanding,
        plus the lost replies; the interface counter is the sum of the flow
        counters, plus what creating a flow anew took off its counter. */
    ghost predicate CounterLaw()
      reads this
    {
      && |keys| == |counters| == |lost| == |live| == |nextFlc|
      && inFlight == Counted(queue, -1) + lostTotal
      && inFlight == Total(counters) + forgotten
      && forall f :: 0 <= f < |counters| ==> counters[f] == Counted(queue, f) + lost[f]
    }

    /** A live flow knows its key, and its context record leads back to it. */
    ghost predicate FlowLaw()
      reads this
    {
      && |keys| == |live| == |nextFlc|
      && forall f :: 0 <= f < |live| && live[f] != 0 ==> keys[f] == live[f] && nextFlc[f] == f
    }

    ghost predicate Valid()
      reads this, table
    {
      && 1 <= table.Length <= FLOW_LIMIT
      && TableLaw(table[..], live)
      && CounterLaw() && QueueLaw() && FlowLaw()
    }

    /** find_empty_flow_table_entry: the lowest free slot from 1 up. */
    method FindEmpty(flow: nat) returns (err: int, entry: nat)
      requires table.Length >= 1
      modifies table
      ensures err == 0 ==>
                && 1 <= entry < table.Length && old(table[entry]) == NULL
                && (forall i :: 1 <= i < entry ==> old(table[i]) != NULL)
                && table[..] == old(table[..])[entry := flow]
      ensures err != 0 ==> err == -ENOMEM && table[..] == old(table[..]) && forall i :: 1 <= i < table.Length ==>
          table[i] != NULL
    {
      entry := 1;
      while entry < table.Length
        invariant 1 <= entry <= table.Length
        invariant forall i :: 1 <= i < entry ==> table[i] != NULL
        invariant table[..] == old(table[..])
      {
        if table[entry] == NULL {
          table[entry] := flow;
          return 0, entry;
        }
        entry := entry + 1;
      }
      return -ENOMEM, 0;
    }

    /** dce_flow_create fails exactly when every slot belongs to a live flow. The
        counter of the flow starts at 0: what dropped CTX_INVALIDATE replies had
        left on it is from then on only in the counter of the interface. */
    method Create(flow: nat) returns (err: int)
      requires Valid() && flow < |live| && !Live(flow)
      modifies this, table
      ensures Valid() && queue == old(queue) && inFlight == old(inFlight)
      ensures err == 0 ==>
                && Live(flow) && live == old(live)[flow := live[flow]]
                && counters == old(counters)[flow := 0] && lost == old(lost)[flow := 0]
                && forgotten == old(forgotten) + old(lost[flow])
      ensures err != 0 ==> err == -ENOMEM && live == old(live) && counters == old(counters) && lost == old(lost)
      ensures err != 0 <==> forall i :: 1 <= i < table.Length ==> old(Live(table[i])) && old(live[table[i]]) == i
    {
      ghost var was := table[..];
      NotLiveNotQueued(flow);
      var entry;
      err, entry := FindEmpty(flow);
      if err == 0 {
        TableAdd(was, live, flow, entry);
        Register(flow, entry);
      }
    }

    /** Fills in the flow once it has a slot. */
    method Register(flow: nat, entry: nat)
      requires CounterLaw() && QueueLaw() && FlowLaw() && flow < |live| && live[flow] == 0 && entry > 0
      requires Counted(queue, flow) == 0
      modifies this`keys, this`nextFlc, this`counters, this`live, this`lost, this`forgotten
      ensures CounterLaw() && QueueLaw() && FlowLaw() && live == old(live)[flow := entry]
      ensures counters == old(counters)[flow := 0] && lost == old(lost)[flow := 0]
      ensures forgotten == old(forgotten) + old(lost[flow])
    {
      AllLegitUpdate(queue, live, flow, entry);
      keys, nextFlc := keys[flow := entry], nextFlc[flow := flow];
      TotalUpdate(counters, flow, 0);
      live := live[flow := entry];
      forgotten := forgotten + lost[flow];
      counters, lost := counters[flow := 0], lost[flow := 0];
    }

    /** The device holds no frame of a flow that is not live. */
    lemma NotLiveNotQueued(flow: nat)
      requires Valid() && flow < |live| && !Live(flow)
      ensures Counted(queue, flow) == 0
    {
      forall i | 0 <= i < |queue| ensures !Belongs(queue[i], flow) {
        assert queue[i].addr != WORKAROUND ==> Legit(queue[i], live);
      }
      OfOthers([], queue, flow);
      assert [] + queue == queue;
    }

    /** dce_flow_destroy asks nothing. If the device still holds a frame of the
        flow, the table no longer answers for it: the token of such a NOP leads
        to a null flow. */
    method Destroy(flow: nat)
      requires Valid() && Live(flow)
      modifies this, table
      ensures live == old(live)[flow := 0] && table[..] == old(table[..])[old(live[flow]) := NULL]
      ensures queue == old(queue) && inFlight == old(inFlight) && lost == old(lost) && counters == old(counters)
      ensures TableLaw(table[..], live) && CounterLaw()
      ensures Valid() <==> Counted(queue, flow) == 0
      ensures forall i :: 0 <= i < |queue| && Belongs(queue[i], flow) && Cmd(queue[i]) == CMD_NOP ==>
                Field(NOP_TOKEN, queue[i].fd) < table.Length && table[Field(NOP_TOKEN, queue[i].fd)] == NULL
    {
      ghost var was := table[..];
      ghost var key := live[flow];
      forall i | 0 <= i < |queue| && Belongs(queue[i], flow) && Cmd(queue[i]) == CMD_NOP
        ensures Field(NOP_TOKEN, queue[i].fd) == key
      {
        assert Legit(queue[i], live);
      }
      if Counted(queue, flow) == 0 {
        AllLegitUpdate(queue, live, flow, 0);
      } else {
        ghost var i := SomeCounted(queue, flow);
        assert !Legit(queue[i], live[flow := 0]);
      }
      table[keys[flow]] := NULL;
      assert table[..] == was[keys[flow] := NULL];
      live := live[flow := 0];
    }

    /** cleanup_flow_lookup_table succeeds exactly when no flow is live. */
    method CleanupTable() returns (err: int)
      requires Valid()
      ensures err == 0 || err == -EBUSY
      ensures err == 0 <==> forall f :: 0 <= f < |live| ==> !Live(f)
    {
      assert forall f :: 0 <= f < |live| && live[f] != 0 ==> table[..][live[f]] == f;
      var i := 1;
      while i < table.Length
        invariant 1 <= i <= table.Length
        invariant forall j :: 1 <= j < i ==> table[j] == NULL
      {
        if table[i] != NULL {
          assert Live(table[..][i]);
          return -EBUSY;
        }
        i := i + 1;
      }
      return 0;
    }

    /** enqueue_fd. `first` and `second` are the results of the two hardware
        enqueues; the second happens only with the erratum workaround. */
    method EnqueueFd(flow: nat, fd: Fd, addr: nat, first: int, second: int) returns (err: int, ghost taken: seq<Frame>)
      requires Valid() && Live(flow) && addr != WORKAROUND
      modifies this`queue, this`inFlight, this`counters
      ensures Valid()
      ensures var cmd := Field(CMD, fd);
              var workaround := hasErratum && cmd == CMD_PROCESS && Field(SF, fd) == 1;
              if cmd != CMD_PROCESS && cmd != CMD_NOP && cmd != CMD_CTX_INVALIDATE then
                err == -EINVAL && taken == [] && counters == old(counters)
              else
                && err == EnqueueResult(workaround, first, second)
                && taken == Accepted(Frame(Sent(fd, live[flow]), flow, addr), workaround, workaroundFd, first, second)
                && counters == (if first >= 0 then Bump(old(counters), flow, 1) else old(counters))
      ensures queue == old(queue) + taken
      ensures forall i :: 0 <= i < |taken| ==> taken[i].flc == flow || taken[i].addr == WORKAROUND
    {
      var q, known, workaround := Prepare(flow, fd, addr);
      if !known { return -EINVAL, []; }
      taken := Accepted(q, workaround, workaroundFd, first, second);
      err := Send(q, workaround, first, second);
    }

    /** The same for a stateful PROCESS request, which leaves as it is. */
    method EnqueueProcess(flow: nat, fd: Fd, addr: nat, first: int, second: int) returns (err: int)
      requires Valid() && Live(flow) && addr != WORKAROUND
      requires Field(CMD, fd) == CMD_PROCESS && Field(SF, fd) == 1
      modifies this`queue, this`inFlight, this`counters
      ensures Valid() && err == EnqueueResult(hasErratum, first, second)
      ensures queue == old(queue) + Accepted(Frame(fd, flow, addr), hasErratum, workaroundFd, first, second)
      ensures counters == if first >= 0 then Bump(old(counters), flow, 1) else old(counters)
    {
      ghost var taken;
      err, taken := EnqueueFd(flow, fd, addr, first, second);
    }

    /** Reads the command and puts the key of the flow on the frame. */
    method Prepare(flow: nat, fd: Fd, addr: nat) returns (q: Frame, known: bool, workaround: bool)
      requires Valid() && Live(flow)
      ensures q == Frame(Sent(fd, live[flow]), flow, addr)
      ensures known == Known(Field(CMD, fd)) && (known ==> Legit(q, live))
      ensures workaround == (hasErratum && Field(CMD, fd) == CMD_PROCESS && Field(SF, fd) == 1)
    {
      var cmd := Field(CMD, fd);
      known := Known(cmd);
      workaround := hasErratum && cmd == CMD_PROCESS && Field(SF, fd) == 1;
      if known { SentIsLegit(fd, flow, addr, live); }
      q := Frame(Sent(fd, keys[flow]), flow, addr);
    }

    /** The frame, and after it the workaround frame if one is called for. */
    method Send(q: Frame, workaround: bool, first: int, second: int) returns (err: int)
      requires Valid() && q.addr != WORKAROUND && Legit(q, live)
      modifies this`queue, this`inFlight, this`counters
      ensures Valid() && err == EnqueueResult(workaround, first, second)
      ensures queue == old(queue) + Accepted(q, workaround, workaroundFd, first, second)
      ensures counters == (if first >= 0 then Bump(old(counters), q.flc, 1) else old(counters))
    {
      AcceptedInTwoSteps(queue, q, workaround, workaroundFd, first, second);
      Submit(q, first);
      err := first;
      if workaround {
        err := second;
        if second >= 0 { AcceptWorkaround(); }
      }
    }

    /** Count the frame, hand it to the hardware, take the count back on error. */
    method Submit(q: Frame, result: int)
      requires Valid() && q.addr != WORKAROUND && Legit(q, live)
      modifies this`queue, this`inFlight, this`counters
      ensures Valid()
      ensures queue == (if result >= 0 then old(queue) + [q] else old(queue))
      ensures counters == (if result >= 0 then Bump(old(counters), q.flc, 1) else old(counters))
    {
      Count(q.flc, 1);
      if result >= 0 {
        Accept(q);
      } else {
        Count(q.flc, -1);
        assert counters == old(counters);
      }
    }

    /** atomic_inc or atomic_dec of the interface and flow counters. */
    method Count(flow: nat, delta: int)
      requires flow < |counters|
      modifies this`inFlight, this`counters
      ensures inFlight == old(inFlight) + delta
      ensures counters == Bump(old(counters), flow, delta)
      ensures Total(counters) == old(Total(counters)) + delta
    {
      TotalUpdate(counters, flow, counters[flow] + delta);
      inFlight := inFlight + delta;
      counters := counters[flow := counters[flow] + delta];
    }

    /** The device takes a frame whose sender has already been counted. */
    ghost method Accept(q: Frame)
      requires 1 <= table.Length <= FLOW_LIMIT && TableLaw(table[..], live) && FlowLaw()
      requires QueueLaw() && q.addr != WORKAROUND && Legit(q, live)
      requires |keys| == |counters| == |lost| == |live| == |nextFlc|
      requires inFlight == Counted(queue, -1) + lostTotal + 1 == Total(counters) + forgotten
      requires forall f :: 0 <= f < |counters| ==>
          counters[f] == Counted(queue, f) + lost[f] + if f == q.flc then 1 else 0
      modifies this`queue
      ensures Valid() && queue == old(queue) + [q]
    {
      CountedAppend(queue, q, |counters|);
      AllLegitAppend(queue, q, live);
      queue := queue + [q];
    }

    /** The workaround frame is queued but counted nowhere. */
    ghost method AcceptWorkaround()
      requires Valid()
      modifies this`queue
      ensures Valid() && queue == old(queue) + [Frame(workaroundFd, 0, WORKAROUND)]
    {
      var q := Frame(workaroundFd, 0, WORKAROUND);
      CountedAppend(queue, q, |counters|);
      AllLegitAppend(queue, q, live);
      queue := queue + [q];
    }

    /** One reply of the receive loop, to the oldest frame the device holds: the
        flow it is charged to is found through the table for a NOP and through
        the FLC field for a PROCESS, and is always the sender. */
    method DispatchOne(reply: Frame) returns (flow: int)
      requires Valid() && queue != [] && Answers(nextFlc, queue[0], reply)
      modifies this`queue, this`inFlight, this`counters, this`lost, this`lostTotal
      ensures Valid() && queue == old(queue)[1..]
      ensures flow == (if Dropped(old(queue)[0]) then NULL else old(queue)[0].flc)
      ensures counters == (if Dropped(old(queue)[0]) then old(counters) else Bump(old(counters), old(queue)[0].flc, -1))
      ensures lost == LostAfter(old(lost), old(queue)[0])
      ensures var q := old(queue)[0];
              flow == q.flc && counters == Bump(old(counters), q.flc, -1) <==>
                q.addr != WORKAROUND && Cmd(q) != CMD_CTX_INVALIDATE
    {
      var dropped;
      dropped, flow := LookUp(reply);
      if dropped {
        DropHead();
      } else {
        Count(flow, -1);
        RetireHead();
      }
    }

    /** A reply is dropped with its count, if it had one. */
    ghost method DropHead()
      requires Valid() && queue != [] && Dropped(queue[0])
      requires queue[0].addr != WORKAROUND ==> queue[0].flc < |lost|
      modifies this`queue, this`lost, this`lostTotal
      ensures Valid() && queue == old(queue)[1..]
      ensures lost == LostAfter(old(lost), old(queue)[0])
    {
      var q := queue[0];
      assert q.addr != WORKAROUND ==> Legit(q, live);
      CountedTail(queue, |counters|);
      AllLegitTail(queue, live);
      if q.addr != WORKAROUND {
        lost := lost[q.flc := lost[q.flc] + 1];
        lostTotal := lostTotal + 1;
      }
      queue := queue[1..];
    }

    /** A reply whose flow has already been un-counted leaves the device. */
    ghost method RetireHead()
      requires 1 <= table.Length <= FLOW_LIMIT && TableLaw(table[..], live) && FlowLaw() && QueueLaw()
      requires queue != [] && queue[0].addr != WORKAROUND
      requires |keys| == |counters| == |lost| == |live| == |nextFlc|
      requires inFlight + 1 == Counted(queue, -1) + lostTotal && inFlight == Total(counters) + forgotten
      requires forall f :: 0 <= f < |counters| ==>
          counters[f] + (if f == queue[0].flc then 1 else 0) == Counted(queue, f) + lost[f]
      modifies this`queue
      ensures Valid() && queue == old(queue)[1..]
    {
      CountedTail(queue, |counters|);
      AllLegitTail(queue, live);
      queue := queue[1..];
    }

    /** The switch of the receive loop. */
    method LookUp(reply: Frame) returns (dropped: bool, flow: int)
      requires Valid() && queue != [] && Answers(nextFlc, queue[0], reply)
      ensures dropped == Dropped(queue[0])
      ensures flow == (if dropped then NULL else queue[0].flc)
      ensures queue[0].addr != WORKAROUND ==> queue[0].flc < |live|
    {
      assert queue[0].addr != WORKAROUND ==> Legit(queue[0], live);
      if reply.addr == WORKAROUND { return true, NULL; }
      var cmd := Field(CMD, reply.fd);
      if cmd == CMD_CTX_INVALIDATE { return true, NULL; }
      return false, if cmd == CMD_NOP then table[Field(NOP_TOKEN, reply.fd)] else reply.flc;
    }

    /** dpaa2_dce_pull_dequeue_rx over one pulled batch: every counted reply is
        delivered to its own sender, in order, and un-counted once. */
    method Dispatch(replies: seq<Frame>) returns (called: seq<nat>)
      requires Valid() && |replies| <= |queue|
      requires forall i :: 0 <= i < |replies| ==> Answers(nextFlc, queue[i], replies[i])
      modifies this`queue, this`inFlight, this`counters, this`lost, this`lostTotal
      ensures Valid() && queue == old(queue)[|replies|..]
      ensures called == Callbacks(old(queue)[..|replies|])
      ensures |lost| == |old(lost)| && forall f :: 0 <= f < |lost| ==> old(lost)[f] <= lost[f]
    {
      called := [];
      var n := 0;
      while n < |replies|
        invariant n <= |replies| && Valid()
        invariant |lost| == |old(lost)| && forall f :: 0 <= f < |lost| ==> old(lost)[f] <= lost[f]
        invariant nextFlc == old(nextFlc)
        invariant queue == old(queue)[n..] && called == Callbacks(old(queue)[..n])
      {
        CallbacksStep(old(queue), n);
        var flow := DispatchOne(replies[n]);
        if flow != NULL { called := called + [flow]; }
        n := n + 1;
      }
    }

    /** With only PROCESS and NOP traffic answered so far, a flow is idle exactly
        when the device holds none of its frames. */
    lemma IdleIffNothingOutstanding(flow: nat)
      requires Valid() && flow < |counters| && lost[flow] == 0
      ensures counters[flow] == 0 <==> forall i :: 0 <= i < |queue| && queue[i].addr != WORKAROUND ==>
          queue[i].flc != flow
    {
      if counters[flow] == 0 { NoneCounted(queue, flow); } else { var i := SomeCounted(queue, flow); }
    }

    /** A dropped CTX_INVALIDATE reply keeps its flow busy: the counter stays
        above the frames outstanding until the flow is created anew. */
    lemma LostReplyKeepsFlowBusy(flow: nat)
      requires Valid() && flow < |counters| && lost[flow] > 0
      ensures counters[flow] > Counted(queue, flow) && counters[flow] != 0
    {
    }
  }

  lemma {:induction false} SomeCounted(queue: seq<Frame>, flow: nat) returns (i: nat)
    requires Counted(queue, flow) > 0
    ensures i < |queue| && Belongs(queue[i], flow)
  {
    var n := |queue| - 1;
    if Belongs(queue[n], flow) {
      i := n;
    } else {
      i := SomeCounted(queue[..n], flow);
      assert queue[i] == queue[..n][i];
    }
  }

  lemma CallbacksStep(frames: seq<Frame>, n: nat)
    requires n < |frames|
    ensures Callbacks(frames[..n + 1]) == Callbacks(frames[..n]) + if Dropped(frames[n]) then [] else [frames[n].flc]
  {
    assert frames[..n + 1][..n] == frames[..n];
  }

  /** Every frame but the workaround frames and CTX_INVALIDATE leads to one
      callback of its flow, after those of the frames before it. */
  lemma {:induction false} CallbacksInOrder(frames: seq<Frame>, i: nat)
    requires i < |frames|
    ensures var (q, k) := (frames[i], |Callbacks(frames[..i])|);
            var n := |Callbacks(frames[..i + 1])|;
            && n <= |Callbacks(frames)|
            && if q.addr != WORKAROUND && Cmd(q) != CMD_CTX_INVALIDATE then n == k + 1 && Callbacks(frames)[k] == q.flc
               else n == k
    decreases |frames|
  {
    CallbacksStep(frames, i);
    if i == |frames| - 1 {
      assert frames[..i + 1] == frames;
    } else {
      var init := frames[..|frames| - 1];
      assert init[..i] == frames[..i] && init[..i + 1] == frames[..i + 1];
      CallbacksInOrder(init, i);
      assert Callbacks(frames)[..|Callbacks(init)|] == Callbacks(init);
    }
  }

  lemma {:induction false} TotalOfZeros(counters: seq<int>)
    requires forall i :: 0 <= i < |counters| ==> counters[i] == 0
    ensures Total(counters) == 0
  {
    if counters != [] { TotalOfZeros(counters[1..]); }
  }

  lemma {:induction false} NoneCounted(queue: seq<Frame>, flow: nat)
    requires Counted(queue, flow) == 0
    ensures forall i :: 0 <= i < |queue| ==> !Belongs(queue[i], flow)
  {
    if queue != [] {
      NoneCounted(queue[..|queue| - 1], flow);
      forall i | 0 <= i < |queue| ensures !Belongs(queue[i], flow) {
        if i < |queue| - 1 { assert queue[..|queue| - 1][i] == queue[i]; }
      }
    }
  }
}
