/** The status codes of the hardware by name, and what the dequeue switch does
    with each of them. */
module DceStatus {
  import opened DceSession

  datatype Status =
    | FullyProcessed | StreamEnd | InputStarved | MemberEndSuspend | ZBlockSuspend | OutputBlockedSuspend
    | AcquireDataBufferDeniedSuspend | AcquireTableBufferDeniedSuspend | OllReachedSuspend
    | OutputBlockedDiscard | AcquireDataBufferDeniedDiscard | AcquireTableBufferDeniedDiscard
    | OllReachedDiscard | HclReachedDiscard | HclReleaseAborted | Skipped | PreviousFlowTermination
    | SuspendedFlowTermination | InvalidFrameList | InvalidFrc | UnsupportedFrame | FrameTooShort
    | ZlibIncompleteHeader | ZlibHeaderError | ZlibNeedDictionaryError | GzipIncompleteHeader | GzipHeaderError
    | DeflateInvalidBlockType | DeflateInvalidBlockLengths | DeflateTooManyLenOrDistSym
    | DeflateInvalidCodeLengthsSet | DeflateInvalidBitLengthRepeat | DeflateInvalidLiteralLengthsSet
    | DeflateInvalidDistancesSet | DeflateInvalidLiteralLengthCode | DeflateInvalidDistanceCode
    | DeflateInvalidDistanceTooFarBack | DeflateIncorrectDataCheck | DeflateIncorrectLengthCheck
    | DeflateInvalidCode | Cxm2bitEccError | Cbm2bitEccError | Dhm2bitEccError | InvalidBase64Code
    | InvalidBase64Padding | ScfSystemMemReadError | PendingOutputSystemMemReadError
    | HistoryWindowSystemMemReadError | CtxDataSystemMemReadError | FrameDataSystemReadError
    | InputFrameTblSystemReadError | OutputFrameTblSystemReadError | ScfSystemMemWriteError
    | PendingOutputSystemMemWriteError | HistoryWindowSystemMemWriteError | CtxDataSystemMemWriteError
    | FrameDataSystemMemWriteError | FrameTblSystemMemWriteError

  function Code(n: Status): nat {
    match n
    case FullyProcessed => 0x00
    case StreamEnd => 0x01
    case InputStarved => 0x10
    case MemberEndSuspend => 0x11
    case ZBlockSuspend => 0x12
    case OutputBlockedSuspend => 0x14
    case AcquireDataBufferDeniedSuspend => 0x15
    case AcquireTableBufferDeniedSuspend => 0x16
    case OllReachedSuspend => 0x17
    case OutputBlockedDiscard => 0x24
    case AcquireDataBufferDeniedDiscard => 0x25
    case AcquireTableBufferDeniedDiscard => 0x26
    case OllReachedDiscard => 0x27
    case HclReachedDiscard => 0x28
    case HclReleaseAborted => 0x2F
    case Skipped => 0x30
    case PreviousFlowTermination => 0x31
    case SuspendedFlowTermination => 0x32
    case InvalidFrameList => 0x40
    case InvalidFrc => 0x41
    case UnsupportedFrame => 0x42
    case FrameTooShort => 0x44
    case ZlibIncompleteHeader => 0x50
    case ZlibHeaderError => 0x51
    case ZlibNeedDictionaryError => 0x52
    case GzipIncompleteHeader => 0x60
    case GzipHeaderError => 0x61
    case DeflateInvalidBlockType => 0x70
    case DeflateInvalidBlockLengths => 0x71
    case DeflateTooManyLenOrDistSym => 0x80
    case DeflateInvalidCodeLengthsSet => 0x81
    case DeflateInvalidBitLengthRepeat => 0x82
    case DeflateInvalidLiteralLengthsSet => 0x83
    case DeflateInvalidDistancesSet => 0x84
    case DeflateInvalidLiteralLengthCode => 0x85
    case DeflateInvalidDistanceCode => 0x86
    case DeflateInvalidDistanceTooFarBack => 0x87
    case DeflateIncorrectDataCheck => 0x88
    case DeflateIncorrectLengthCheck => 0x89
    case DeflateInvalidCode => 0x8A
    case Cxm2bitEccError => 0xB0
    case Cbm2bitEccError => 0xB1
    case Dhm2bitEccError => 0xB2
    case InvalidBase64Code => 0xC0
    case InvalidBase64Padding => 0xC1
    case ScfSystemMemReadError => 0xD5
    case PendingOutputSystemMemReadError => 0xD6
    case HistoryWindowSystemMemReadError => 0xD7
    case CtxDataSystemMemReadError => 0xD8
    case FrameDataSystemReadError => 0xD9
    case InputFrameTblSystemReadError => 0xDA
    case OutputFrameTblSystemReadError => 0xDB
    case ScfSystemMemWriteError => 0xE5
    case PendingOutputSystemMemWriteError => 0xE6
    case HistoryWindowSystemMemWriteError => 0xE7
    case CtxDataSystemMemWriteError => 0xE8
    case FrameDataSystemMemWriteError => 0xE9
    case FrameTblSystemMemWriteError => 0xEA
  }

  // ----- the switch, by the names of its cases -----

  predicate SuspendCase(n: Status) {
    || n.OutputBlockedSuspend? || n.MemberEndSuspend? || n.AcquireDataBufferDeniedSuspend?
    || n.AcquireTableBufferDeniedSuspend? || n.ZBlockSuspend? || n.OllReachedSuspend?
  }

  predicate ProcessedCase(n: Status) { n.FullyProcessed? || n.StreamEnd? }

  predicate DefaultCase(n: Status) { !SuspendCase(n) && !ProcessedCase(n) && !n.Skipped? }

  /** What each case does to the account and what it tells the client, from the
      state `s` with head `u` to the state `t`. */
  predicate KeepsAccount(s: State, t: State) {
    t.sem == s.sem && t.todo == s.todo && t.allowed == s.allowed
  }

  predicate OnSuspend(s: State, t: State, u: Unit, rx: Rx) {
    && t.todo == s.todo + |s.ring| && !t.allowed && t.sem == (if s.todo == 0 then s.sem - 1 else s.sem)
    && rx.consumed == u.reply.consumed && rx.output == u.output
  }

  predicate OnProcessed(s: State, t: State, u: Unit, rx: Rx) {
    KeepsAccount(s, t) && rx.consumed == u.input.len && rx.output == u.output
  }

  predicate OnSkipped(s: State, t: State, u: Unit, rx: Rx) {
    KeepsAccount(s, t) && rx.consumed == 0 && rx.output == Fd(u.output.addr, u.outputLength)
  }

  predicate OnDefault(s: State, t: State, u: Unit, rx: Rx) {
    && (if s.todo > 0 then t.todo == 0 && !t.allowed && t.sem == s.sem + 1 else KeepsAccount(s, t))
    && rx.consumed == 0 && rx.output == Fd(u.output.addr, u.outputLength)
  }

  /** What every case has in common: the head leaves, and the client gets its own
      input and context and what the hardware wrote back. */
  predicate HandsBackHead(s: State, t: State, rx: Rx)
    requires HeadDone(s)
  {
    var u := s.ring[0];
    && rx.input == u.input && rx.context == u.context && rx.status == u.reply.status && rx.flush == u.reply.flush
    && t == s.(ring := s.ring[1..], answers := s.answers[1..], sem := t.sem, todo := t.todo, allowed := t.allowed,
               log := s.log + [Returned(OpOf(u), rx)])
  }

  /** The op that was handed back last. */
  function LastRx(t: State): Rx {
    if t.log != [] && t.log[|t.log| - 1].Returned? then t.log[|t.log| - 1].rx
    else Rx(Fd(0, 0), Fd(0, 0), NoFlush, 0, 0, 0)
  }

  /** One dequeued op, for every name of the header. */
  lemma DequeueByName(s: State, n: Status)
    requires HeadDone(s) && Unblocked(s) && s.ring[0].reply.status == Code(n)
    ensures var (t, u) := (DequeueOne(s), s.ring[0]);
            && HandsBackHead(s, t, LastRx(t))
            && (SuspendCase(n) ==> OnSuspend(s, t, u, LastRx(t)))
            && (ProcessedCase(n) ==> OnProcessed(s, t, u, LastRx(t)))
            && (n.Skipped? ==> OnSkipped(s, t, u, LastRx(t)))
            && (DefaultCase(n) ==> OnDefault(s, t, u, LastRx(t)))
  {
    ClassByName(n);
  }

  /** A code without a name is handled like a terminal error. */
  lemma DequeueUnnamed(s: State)
    requires HeadDone(s) && Unblocked(s) && forall n :: Code(n) != s.ring[0].reply.status
    ensures var t := DequeueOne(s); HandsBackHead(s, t, LastRx(t)) && OnDefault(s, t, s.ring[0], LastRx(t))
  {
    Unnamed(s.ring[0].reply.status);
  }

  lemma ClassByName(n: Status)
    ensures Classify(Code(n)) ==
            if SuspendCase(n) then Suspend else if ProcessedCase(n) then Processed
            else if n.Skipped? then Skip else Terminal
  {
  }

  lemma Unnamed(status: nat)
    requires forall n :: Code(n) != status
    ensures Classify(status).Terminal?
  {
    assert Code(FullyProcessed) != status && Code(StreamEnd) != status && Code(Skipped) != status;
    assert Code(MemberEndSuspend) != status && Code(ZBlockSuspend) != status && Code(OutputBlockedSuspend) != status;
    assert Code(AcquireDataBufferDeniedSuspend) != status && Code(AcquireTableBufferDeniedSuspend) != status;
    assert Code(OllReachedSuspend) != status;
  }

  /** The hardware by name: the six suspends suspend a flow, only SKIPPED leaves it
      as it is, and SKIPPED is what a suspended flow says to a frame without the
      recycle bit. */
  lemma HardwareByName(suspended: bool, recycleBit: bool, reply: Reply, n: Status)
    requires reply.status == Code(n)
    ensures NextSuspended(suspended, reply.status) == if n.Skipped? then suspended else SuspendCase(n)
    ensures Accepts(suspended, recycleBit, reply) <==> (n.Skipped? <==> suspended && !recycleBit)
  {
    ClassByName(n);
  }

  /** The suspends of the header are the codes 0x11 to 0x17 that have a name. */
  lemma SuspendCodes(n: Status)
    ensures SuspendCase(n) <==> 0x11 <= Code(n) <= 0x17
  {
  }
}
