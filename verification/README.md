# Verified models of four flexbuild components

A Dafny 4.11 project that models four pieces of the repository and proves what
they are for. `dafny verify dfyconfig.toml` checks everything.

**DCE sessions** (`packages/apps/dce`). A stateful-recycle session of the
decompression/compression engine is a bounded ring of work units shared by an
enqueuer, a hardware callback, a dequeuer and a recycler.

- `CircFifo.dfy` is the circular allocator, with its indices modulo twice the
  number of buffers.
- `DceSession.dfy` is the session as a state machine with one atomic step per
  API call, hardware answer or callback, together with a log of everything that
  was sent and handed back. The laws compare the session's counters and flags
  with that log.
- `DceRuns.dfy` proves that every step keeps the laws, and states what follows
  for every run. The client is arbitrary: only the assertions of
  `dce_stream_continue` and `dce_stream_abort` restrict it. The hardware answers
  in order, and after a suspend it answers SKIPPED until it meets a frame with
  the recycle bit; callbacks may come in any order.
- `DceStatus.dfy` has the status codes of the header by name and what the
  dequeue switch does with each; `DceCalls.dfy` says what every call answers, by
  the history alone.
- `DceStack.dfy` puts the device under the session: frames of the session's flow
  and of others go through one queue and come back in its order, and ring, queue
  and counters are proved to agree over every run.
- `DceSessionObject.dfy` is the session with its fields, ring memory and loops,
  sending through the driver object. Each call is proved to be the corresponding
  step.
- `DceThreads.dfy` has one step per shared-memory access, any number of threads,
  and program counters for the semaphore and the mutex.
- `DceLinear.dfy` and the files named after it put the ring, the flags and the
  hardware into these interleavings and prove that each is a run of the atomic
  session: `DceLinearRing` for the TODO mark and the dequeuer, `DceLinearSteps`
  for the rest, `DceLinearRuns` for runs, `DceLinearQuiet` for what memory shows
  when no call is under way, `DceLinearResults` for what the calls return,
  `DceLinearGap` for a race in an assertion.

**DCE driver** (`dpdcei-drv.c`, `dce-fd-frc.c`, the codec headers).
`BitCodec.dfy` models a 32-bit word as its bits, so masks and shifts are the
source's own, and proves them equal to division and remainder. `FrcFields.dfy`
is the FRC layout. `DceDriver.dfy` is the flow table, the in-flight counters and
the receive loop over the frames the device holds.

**TLS and SRTP records** (`cryptodev-linux/authenc.c`). `RecordCrypto.dfy`
states the laws of the cipher and the hash, `TlsRecord.dfy` follows section
6.2.3.2 of RFC 5246 (MAC, pad, encrypt in place) and `SrtpRecord.dfy` section
3.3 of RFC 3711 (encrypt, then MAC, over one buffer).

**DPL generator** (`restool/dprc_commands_generate_dpl.c`). `DplObjects.dfy` is
the sorted linked list, `DplWalk.dfy` the recursive walk that threads the tail
pointer, `DplTree.dfy` what it makes of a whole tree, `DplConnections.dfy` the
connection list, and `DplObjSets.dfy` the container section that is written.

## Where the code departs from what it announces

The model follows the code. Each item names the member that states it.

- `dce_recycle_discard` always returns 0 on success; the header promises 1 for
  the last op (`DceSessionObject.Session.RecycleDiscard`).
- When `enqueue_fd` fails, `dce_enqueue_fd_pair` posts the semaphore twice and
  has already consumed the recycle and initial bits. If the frame was to carry
  the recycle bit, the flow stays suspended for good (`DceRuns.StrandedForever`);
  if not, the assertion after `sem_trywait` can fail from then on
  (`DceRuns.RefusalTripsTheAssertionIff`, exact condition).
- The gap assertion of the dequeuer allows for one unit whose TODO mark is due,
  but two threads that enqueue can leave one in the middle
  (`DceLinearGap.GapAssertionCanFail`; exact condition in `DceLinearGap.GapIff`,
  and `DceLinearGap.OneSenderSeesNoGap` for clients that send one op at a time).
- Two enqueuers race for the token, and the loser is told -EBUSY although the
  session is not busy at any instant between calls
  (`DceLinearResults.LoserIsToldBusy`, `DceLinearResults.SessionIsNeverBusy`); an
  enqueuer is told -ENOSPC although the session has room exactly while a dequeuer
  has a head to free (`DceLinearResults.EnqueueDue`).
- A client that gives up ops it has not been handed yet can make the assertion
  on SKIPPED fail (`DceRuns.SkippedIsAccountedFor`, exact condition, and
  `DceRuns.OverEagerClientTripsTheAssertion`).
- With the erratum workaround the result of `enqueue_fd` is that of the
  workaround frame (`DceDriver.ResultIsTruthfulIff`); the session then loses or
  invents a unit (`DceSessionObject.Session.Enqueue`, exact condition).
- Replies to CTX_INVALIDATE are dropped before the counters are lowered, so the
  flow stays busy (`DceDriver.Dpdcei.LostReplyKeepsFlowBusy`); creating the flow
  anew resets its counter but not that of the interface
  (`DceDriver.Dpdcei.Create`).
- `dce_flow_destroy` does not ask whether the device still holds a frame of the
  flow (`DceDriver.Dpdcei.Destroy`).
- The cleanup-frame test in the receive loop compares a one-bit field with a
  29-bit constant and never holds (`FrcFields.CleanupTestNeverFires`).
- A bad TLS padding is accepted when no hash is active
  (`TlsRecord.BadPadAcceptedIff`).
- SRTP encryption does not check that the tag is no longer than the payload,
  decryption does (`SrtpRecord.SealThenOpenIff`). The overlap rule cuts the
  distance of the addresses down to 32 bits (`SrtpRecord.OverlapRule`).
- A duplicate object stops its container, but the error is overwritten as soon
  as the parent reads its next entry (`DplTree.DuplicateGoesUnreported`; exact
  shapes in `DplTree.ReportsExactly`). `parse_layout` returns 0 for every
  container it had to open, whatever opening, walking and closing it gave
  (`DplTree.ParseLayout`).
- A child of a container with id 0 restarts the container list
  (`DplTree.TreeFlattening`, exact condition).
- Only the first end of a connection is checked for a clash
  (`DplConnections.OneSidedCheck`), and the callers ignore a clash
  (`DplConnections.ConnList.ParseObjects`).
- A container with nothing to emit, and every container under firmware 9, gets
  a nameless obj_set with left-over ids (`DplObjSets.WriteContainers`).

## Model

| member | source | states |
|---|---|---|
| `CircFifo.CircFifo.Full` | flexbuild/packages/apps/dce/include/circ_fifo.h:41-49 | the index comparison is true exactly when all buffers are allocated |
| `CircFifo.CircFifo.Alloc` | flexbuild/packages/apps/dce/include/circ_fifo.h:51-63 | fails exactly when full, otherwise hands out the buffer right after the newest one, wrap-around included |
| `CircFifo.CircFifo.AllocUndo` | flexbuild/packages/apps/dce/include/circ_fifo.h:65-71 | inverts the last successful allocation |
| `CircFifo.CircFifo.FreeHead` | flexbuild/packages/apps/dce/include/circ_fifo.h:73-80 | drops exactly the oldest buffer |
| `CircFifo.CircFifo.HeadSeek` | flexbuild/packages/apps/dce/include/circ_fifo.h:82-93 | the buffer at any distance from the head, also when the fifo is empty |
| `CircFifo.AtIsOnto` | flexbuild/packages/apps/dce/include/circ_fifo.h:88-93 | every buffer is at exactly one position of the lap that starts at the head |
| `CircFifo.LapAppend` | flexbuild/packages/apps/dce/include/circ_fifo.h:51-63 | writing the newly allocated buffer appends to the queue the ring represents and changes no other entry |
| `CircFifo.LapDrop` | flexbuild/packages/apps/dce/include/circ_fifo.h:73-80 | moving the free index removes exactly the head of the represented queue |
| `DceRuns.StepKeeps` | flexbuild/packages/apps/dce/dce.c:425-944 | every API call, hardware answer, callback and dequeue keeps all session laws |
| `DceRuns.EveryRun` | flexbuild/packages/apps/dce/dce.c:376-944 | all session laws hold after every run from creation, for every client |
| `DceRuns.RecycleAccountIsExact` | flexbuild/packages/apps/dce/dce.c:626-681 | in every run `recycle_todo` is the number of suspended or skipped ops in the client's hands plus the ops in the ring skipped because of a suspend already handed back, repeated suspends and terminal errors included; the token is free exactly when it is 0 |
| `DceRuns.SkippedIsAccountedFor` | flexbuild/packages/apps/dce/dce.c:643-648 | a SKIPPED head meets `recycle_todo == 0` exactly when the client gave up, unseen, every op still being skipped; never for a client that gives up only what it was handed |
| `DceRuns.OverEagerClientTripsTheAssertion` | flexbuild/packages/apps/dce/dce.c:647 | a reachable run in which the assertion on SKIPPED is false |
| `DceRuns.SessionIsAQueue` | flexbuild/packages/apps/dce/dce.c:595-681 | in every run the returned ops followed by the ring are the accepted ops in order, each return carrying its own input, context and, if skipped or failed, original output length, and the k-th one carrying the k-th hardware answer (status, flush, bytes consumed, output length), whatever the order of callbacks |
| `DceStatus.DequeueByName` | flexbuild/packages/apps/dce/dce.c:595-681 | for every status name of the header: the six suspends take the token, add the ring to `recycle_todo` and report the bytes processed; the two processed names report the whole input; SKIPPED and every other name restore the output length, and the others end recycle mode |
| `DceStatus.DequeueUnnamed` | flexbuild/packages/apps/dce/dce.c:655-679 | a code without a name is handled like a terminal error |
| `DceStatus.HardwareByName` | flexbuild/packages/apps/dce/dce.h:274-333 | the six suspends suspend a flow, SKIPPED leaves it as it is and is what a suspended flow says to a frame without the recycle bit, every other name ends the suspension |
| `DceStatus.SuspendCodes` | flexbuild/packages/apps/dce/dce.h:274-333 | the names of the suspend cases are those with codes from 0x11 to 0x17 |
| `DceCalls.EnqueueAnswers` | flexbuild/packages/apps/dce/dce.c:425-571 | after every run an enqueue is refused exactly in recycle mode (-EACCES) and when as many ops as the ring holds are on their way (-ENOSPC), and otherwise sends one frame whose recycle and initial bits follow from the log |
| `DceCalls.RecycleAnswers` | flexbuild/packages/apps/dce/dce.c:797-944 | after every run a recycle is refused exactly before the suspend is acknowledged or with a full ring; otherwise one op less is left, and the last one answers 1 |
| `DceCalls.DiscardAnswers` | flexbuild/packages/apps/dce/dce.c:770-794 | the same for a discard, which answers 0 |
| `DceCalls.AcknowledgeAnswers` | flexbuild/packages/apps/dce/dce.c:691-767 | the assertions of continue and abort hold exactly while a suspend that was handed back is not acknowledged |
| `DceCalls.DequeueTakesAll` | flexbuild/packages/apps/dce/dce.c:595-688 | a dequeue of up to n ops hands back as many of them as are finished at the head, in recycle mode or not, oldest first, and leaves the rest |
| `DceRuns.AcknowledgementsAreConserved` | flexbuild/packages/apps/dce/dce.c:506-517 | continue and abort calls minus recycle bits sent is 1 exactly while `recycle` is set; suspends handed back minus those calls is 1 exactly while one is unanswered; a suspended flow waits for exactly one of the three |
| `DceRuns.DiscardedFlowResumesOnEnqueue` | flexbuild/packages/apps/dce/dce.c:506-517 | after all ops were discarded, the next ordinary enqueue succeeds and carries the recycle bit |
| `DceRuns.InitialBitFollowsHistory` | flexbuild/packages/apps/dce/dce.c:518-529 | in every run a frame carries the initial bit exactly when creation, a FINISH frame or an abort is more recent than every other frame and every continue, on the enqueue and the recycle path |
| `DceStack.InFlightIsConserved` | flexbuild/packages/apps/dce/dpdcei-drv.c:209-311 | over every run of a session beside any traffic of other flows, the flow's `frames_in_flight`, its frames in the device, the ring units not called back and the session's count are one number; ring slots are that number plus the DONE slots; destroy refuses exactly while the device holds a frame of the flow |
| `DceStack.CallBackIsInOrder` | flexbuild/packages/apps/dce/dce.c:95-127 | the reply to the oldest frame of the flow leads, through its address, to the oldest unit not called back |
| `DceStack.TakeKeeps` | flexbuild/packages/apps/dce/dpdcei-drv.c:175-311 | every call, reply and foreign frame keeps ring, device queue and counter in agreement, each queued frame carrying the recycle and initial bits and the flush of its own unit |
| `DceStack.RunIsSessionRun` | flexbuild/packages/apps/dce/dce.c:425-944 | every run over the device is, for the session, a run of the session machine |
| `DceStack.CoupledIsTight` | flexbuild/packages/apps/dce/dce.c:553-567 | one frame or one unit too many and ring and device no longer agree |
| `DceStack.FlushCodeIsInvertible` | flexbuild/packages/apps/dce/dce.h:91-99 | the seven flush kinds and the codes 0 to 6 are in bijection, in zlib's order |
| `DceRuns.FailedEnqueueAddsAToken` | flexbuild/packages/apps/dce/dce.c:553-571 | a failed `enqueue_fd` leaves two tokens; the law that a suspended flow waits for exactly one thing survives exactly when no recycle bit was pending, the stream law exactly when the stream state did not change |
| `DceRuns.FailedRecycleIsHarmlessIff` | flexbuild/packages/apps/dce/dce.c:885-943 | a failed `enqueue_fd` on the recycle path keeps all laws exactly when it swallowed no bit |
| `DceRuns.LostBitStrandsTheFlow` | flexbuild/packages/apps/dce/dce.c:506-571 | a failed enqueue that swallowed the recycle bit leaves the flow suspended with nobody to resume it |
| `DceRuns.StrandingIsReachable` | flexbuild/packages/apps/dce/dce.c:506-571 | a client that gives up only what it was handed reaches such a state |
| `DceRuns.StrandedForever` | flexbuild/packages/apps/dce/dce.c:506-571 | no further run resumes such a flow; every head it hands back is SKIPPED with `recycle_todo == 0` |
| `DceRuns.RefusalTripsTheAssertionIff` | flexbuild/packages/apps/dce/dce.c:452-571 | after a refused ordinary enqueue some further run without a refusal lets an enqueuer in with `recycle_todo > 0` if and only if the frame was not to carry the recycle bit |
| `DceSessionObject.Session.constructor` | flexbuild/packages/apps/dce/dce.c:376-402 | the created state on a new flow: empty ring, one token, STREAM_END, nothing in the device |
| `DceSessionObject.Session.OutsideIsFree` | flexbuild/packages/apps/dce/dce.c:595-598 | every physical slot outside the allocated window is FREE, wrap-around included |
| `DceSessionObject.Session.AllocAndFill` | flexbuild/packages/apps/dce/dce.c:454-539 | the tail slot is filled from the op with the session's recycle and initial bits, or nothing changes when the ring is full |
| `DceSessionObject.Session.Submit` | flexbuild/packages/apps/dce/dce.c:499-553 | the frame handed to the driver carries the bits and the flush of its unit and the address of its slot |
| `DceSessionObject.Session.Enqueue` | flexbuild/packages/apps/dce/dce.c:425-572 | the enqueue step with all its error codes, or the failure step, by what the driver returns; ring, device and counter agree afterwards exactly when the driver told the truth about the frame; a frame that went out is in the device, with the workaround frame behind it if the interface has the erratum |
| `DceSessionObject.Session.Recycle` | flexbuild/packages/apps/dce/dce.c:797-944 | the recycle step, 1 for the last op, or its failure step, with the same agreement |
| `DceSessionObject.Session.RecycleDiscard` | flexbuild/packages/apps/dce/dce.c:770-793 | the discard step; success is always 0 |
| `DceSessionObject.Session.StreamContinue` | flexbuild/packages/apps/dce/dce.c:731-767 | the continue step |
| `DceSessionObject.Session.StreamAbort` | flexbuild/packages/apps/dce/dce.c:692-728 | the abort step |
| `DceSessionObject.Session.Callback` | flexbuild/packages/apps/dce/dce.c:95-141 | completes exactly the unit at that address; every slot outside the window stays FREE |
| `DceSessionObject.Session.ReceiveOwn` | flexbuild/packages/apps/dce/dpdcei-drv.c:296-311 | a reply to the session's frame un-counts it once and calls back its own unit, keeping the agreement |
| `DceSessionObject.Session.ReceiveOther` | flexbuild/packages/apps/dce/dpdcei-drv.c:265-311 | a reply to anybody else's frame leaves the session alone |
| `DceSessionObject.Session.OtherEnqueue` | flexbuild/packages/apps/dce/dpdcei-drv.c:175-228 | a frame of another flow, and the workaround frame behind it, leave the session alone and are counted for the other flow |
| `DceSessionObject.Session.CheckNoGap` | flexbuild/packages/apps/dce/dce.c:599-614 | the gap assertion holds when calls do not overlap |
| `DceSessionObject.Session.HeadIsNeverStale` | flexbuild/packages/apps/dce/dce.c:595-598 | a DONE slot under the head index is the oldest allocated unit, though emptiness is not tested |
| `DceSessionObject.Session.Dequeue` | flexbuild/packages/apps/dce/dce.c:577-688 | hands over, in order, the finished ops from the head, at most as many as asked and stopping only at one not done, with the recycle accounting of each |
| `DceSessionObject.Session.Destroy` | flexbuild/packages/apps/dce/dce.c:414-422 | refuses exactly while the device holds a frame of the flow, which is exactly while some unit is not DONE; otherwise the flow is given back |
| `DceThreads.StepKeeps` | flexbuild/packages/apps/dce/dce.c:425-944 | every shared-memory step of every thread keeps the mutex, token and ring laws |
| `DceThreads.TokensAreConserved` | flexbuild/packages/apps/dce/dce.c:436-571 | in every interleaving semaphore value, tokens owed by threads and recycle mode add up to 1 plus the refused frames |
| `DceThreads.EnqueuerIsAlone` | flexbuild/packages/apps/dce/dce.c:436-452 | without a refusal an enqueuer past `sem_trywait` sees `recycle_todo == 0` and no other thread owes a token, so the assertion holds |
| `DceThreads.SuspendCountsSentUnits` | flexbuild/packages/apps/dce/dce.c:632-638 | without a refusal the number added to `recycle_todo` is the number of units whose frame was sent |
| `DceThreads.TokenHolderProgresses` | flexbuild/packages/apps/dce/dce.c:553-571 | a thread that owes a token never waits for the mutex, is never blocked, and each step brings it closer to its post |
| `DceThreads.BlockedDequeuerIsReleased` | flexbuild/packages/apps/dce/dce.c:632-635 | a dequeuer blocked in `sem_wait` with the mutex coexists with a thread that owes the token, does not hold the mutex and can move |
| `DceThreads.NoDeadlock` | flexbuild/packages/apps/dce/dce.c:425-944 | in every interleaving, while some call is under way a thread inside a call can move |
| `DceThreads.CallsCanFinish` | flexbuild/packages/apps/dce/dce.c:425-944 | from every reachable state all calls under way can be brought to their end without a refusal |
| `DceThreads.RefusalBreaksTheAssertion` | flexbuild/packages/apps/dce/dce.c:452 | for any number of threads and any capacity a schedule with one refused frame makes the assertion fail |
| `DceLinearQuiet.Linearizable` | flexbuild/packages/apps/dce/dce.c:425-944 | every interleaving of any number of threads in which no frame is refused is a run of the atomic session: the log that threads and hardware write from memory, the in-flight count and the hardware's view equal the session's at every instant, and all of memory whenever no call is under way |
| `DceLinearQuiet.InterleavingIsAQueue` | flexbuild/packages/apps/dce/dce.c:425-944 | over every interleaving what memory handed out, followed by the sent units in its ring, is what was put on the wire, in order; own input, context and restored length, the k-th answer for the k-th return, no suspend acknowledged twice |
| `DceLinearResults.ResultsAreTrue` | flexbuild/packages/apps/dce/dce.c:425-944 | over every interleaving what a call did and returned is decided by what it found in memory: an enqueue by the token and the room, a recycle or discard by the mutex, the permission and the account, a dequeue that got the mutex returns as many ops as it took effect on, stops short of the number asked for only at a head that is not DONE; success means one effect with the session's code, an error means none |
| `DceLinearResults.DequeuerMoves` | flexbuild/packages/apps/dce/dce.c:595-598 | a dequeuer at the head of its loop goes on exactly when it wants more and the head is DONE, and is never stuck there |
| `DceLinearResults.EnqueueDue` | flexbuild/packages/apps/dce/dce.c:436-461 | what the session says where an enqueue is decided: 0 where the frame is taken, -EACCES for -EACCES, never -EBUSY, and -ENOSPC for a full ring exactly when no dequeuer has a head to free |
| `DceLinearResults.RecycleDue` | flexbuild/packages/apps/dce/dce.c:810-936 | a recycler under the mutex gets the session's own code: -EACCES, -ENOSPC, or 1 for the last op and 0 otherwise |
| `DceLinearResults.DiscardDue` | flexbuild/packages/apps/dce/dce.c:770-794 | a discard under the mutex gets the session's own code |
| `DceLinearResults.SessionIsNeverBusy` | flexbuild/packages/apps/dce/dce.c:436-450 | no run of the atomic session answers an enqueue with -EBUSY |
| `DceLinearResults.LoserIsToldBusy` | flexbuild/packages/apps/dce/dce.c:436-450 | for every capacity a schedule of two enqueuers in which one is told -EBUSY |
| `DceLinearRuns.TakeSimulates` | flexbuild/packages/apps/dce/dce.c:425-944 | each shared-memory step is, for the atomic session, one legal step or none (a send when the driver takes the frame, a dequeue when the op is accounted for, a discard or acknowledgement under the mutex), and keeps memory linked to the session: each ring unit in place, the account, the flags, the log, what each thread holds |
| `DceLinearSteps.CallBackLegal` | flexbuild/packages/apps/dce/dce.c:118-124 | a callback in memory completes exactly the unit of the session that it stands for, also while the dequeuer is at the head |
| `DceLinearQuiet.QuietIsSession` | flexbuild/packages/apps/dce/dce.c:425-944 | when no call is under way, memory is the session state, field by field |
| `DceLinearGap.GapIff` | flexbuild/packages/apps/dce/dce.c:599-614 | over every interleaving the gap assertion is false exactly when the thread that sent the second unit still has its TODO mark to make |
| `DceLinearGap.OneSenderSeesNoGap` | flexbuild/packages/apps/dce/dce.c:599-614 | over every interleaving with at most one thread sending at a time the gap assertion holds |
| `DceLinearGap.GapAssertionCanFail` | flexbuild/packages/apps/dce/dce.c:599-614 | with two threads that enqueue a dequeuer holding the mutex can stand before the gap assertion and find it false, because a TODO mark is still due |
| `BitCodec.MaskValue` | flexbuild/packages/apps/dce/dce-private.h:14-15 | the mask is 2^width - 1, width 32 included |
| `BitCodec.DecodeIsArithmetic` | flexbuild/packages/apps/dce/dce-private.h:50-54 | shift and mask are division by 2^offset and remainder by 2^width |
| `BitCodec.EncodeIsArithmetic` | flexbuild/packages/apps/dce/dce-private.h:45-66 | the read-modify-write replaces exactly that digit of the word's value |
| `BitCodec.WordIsFieldPlusRest` | flexbuild/packages/apps/dce/dce-private.h:55-66 | isolate and remove split a word into two parts that add up to it |
| `BitCodec.WriteThenRead` | flexbuild/packages/apps/dce/dce-attr-encoder-decoder.h:33-51 | a write is read back modulo 2^width, and every disjoint field of every word is unchanged |
| `BitCodec.Encode` | flexbuild/packages/apps/dce/dce-attr-encoder-decoder.h:45-51 | the same for the in-place update of the array |
| `BitCodec.LastWriteWins` | flexbuild/packages/apps/dce/dce-attr-encoder-decoder.h:45-51 | after any sequence of writes a field holds its last write if all later ones were disjoint |
| `BitCodec.SignedRoundTrip` | flexbuild/packages/apps/dce/dce-attr-encoder-decoder.h:58-75 | re-signing a decoded field inverts two's complement, for widths 1 to 31 |
| `FrcFields.RequestLayout` | flexbuild/packages/apps/dce/dce-fd-frc.c:13-41 | the request fields and the command lie in word 4, fit it and do not overlap |
| `FrcFields.SettersAreIndependent` | flexbuild/packages/apps/dce/dce-fd-frc.c:28-60 | request setters in any order and number: each field holds the last value given to it |
| `FrcFields.Request` | flexbuild/packages/apps/dce/dce.c:499-531 | the request built over a zeroed descriptor is a PROCESS command with exactly the given bits and flush; as a number its FRC is the sum of 2^28, 2^21, 2^20 and the flush times 2^23, and every other word is 0 |
| `FrcFields.TokenRoundTrip` | flexbuild/packages/apps/dce/dce-fd-frc.c:14-17 | a flow key survives the 29-bit token field and leaves the command intact |
| `FrcFields.CleanupTestNeverFires` | flexbuild/packages/apps/dce/dpdcei-drv.c:272-275 | no frame passes the cleanup test |
| `DceDriver.Dpdcei.FindEmpty` | flexbuild/packages/apps/dce/dpdcei-drv.c:68-84 | takes the lowest free slot from 1 up; fails only when all are taken, changing nothing |
| `DceDriver.Dpdcei.Create` | flexbuild/packages/apps/dce/dpdcei-drv.c:125-134 | keeps live flows and occupied slots in bijection; fails exactly when every slot belongs to a live flow; the flow counter starts at 0, and what lost replies had left on it stays in the interface counter |
| `DceDriver.Dpdcei.Destroy` | flexbuild/packages/apps/dce/dpdcei-drv.c:149-172 | frees exactly the slot of the flow; the driver stays in order exactly when the device holds no frame of it, and the token of an outstanding NOP leads to a null flow |
| `DceDriver.Dpdcei.CleanupTable` | flexbuild/packages/apps/dce/dpdcei-drv.c:50-66 | succeeds exactly when no flow is live |
| `DceDriver.SentIsLegit` | flexbuild/packages/apps/dce/dpdcei-drv.c:187-193 | stamping the token keeps the command; a NOP and a CTX_INVALIDATE then carry their sender's key, and a PROCESS frame leaves as it is |
| `DceDriver.Dpdcei.EnqueueFd` | flexbuild/packages/apps/dce/dpdcei-drv.c:175-228 | interface counter, sum of flow counters and frames queued stay equal; exactly the accepted frames are queued, in order, and counted once; the result is that of the last hardware enqueue |
| `DceDriver.AcceptedIs` | flexbuild/packages/apps/dce/dpdcei-drv.c:210-228 | the frame is queued exactly when the hardware took it, and the workaround frame behind it exactly when one was sent and taken |
| `DceDriver.ResultIsTruthfulIff` | flexbuild/packages/apps/dce/dpdcei-drv.c:213-227 | the result tells whether the frame was queued exactly when there was no workaround frame or both enqueues went the same way |
| `DceDriver.Dpdcei.DispatchOne` | flexbuild/packages/apps/dce/dpdcei-drv.c:265-311 | a reply is charged to the flow that sent the frame, through the table for a NOP and the NEXT_FLC of the context record for a PROCESS, and un-counted once |
| `DceDriver.Dpdcei.Dispatch` | flexbuild/packages/apps/dce/dpdcei-drv.c:256-314 | a batch calls back exactly the senders of its counted replies, in order, and keeps the counter laws |
| `DceDriver.CallbacksInOrder` | flexbuild/packages/apps/dce/dpdcei-drv.c:265-311 | every reply but those of the workaround and of CTX_INVALIDATE leads to one callback of its flow, after those before it |
| `DceDriver.Dpdcei.IdleIffNothingOutstanding` | flexbuild/packages/apps/dce/dpdcei-drv.c:209-218 | without lost replies a flow's counter is 0 exactly when the device holds none of its frames |
| `DceDriver.Dpdcei.LostReplyKeepsFlowBusy` | flexbuild/packages/apps/dce/dpdcei-drv.c:289-290 | a dropped CTX_INVALIDATE reply keeps the flow's counter above the frames outstanding |
| `TlsRecord.PadRecord` | flexbuild/packages/linux/cryptodev-linux/authenc.c:315-325 | the bytes become the padded record and nothing behind it is touched |
| `TlsRecord.VerifyPad` | flexbuild/packages/linux/cryptodev-linux/authenc.c:327-349 | on the non-empty buffer its caller guarantees, returns the padding length exactly when the last p + 1 bytes are all p, -EBADMSG otherwise |
| `TlsRecord.AcceptsExactlyRecords` | flexbuild/packages/linux/cryptodev-linux/authenc.c:409-470 | with a hash, and a block cipher, a stream cipher or none, decryption yields P exactly when the deciphered bytes are P, the truncated MAC of auth and P, and p repeated p + 1 times if and only if the cipher has blocks |
| `TlsRecord.RefusalCodes` | flexbuild/packages/linux/cryptodev-linux/authenc.c:409-468 | with a hash a refusal carries the code of the cipher or hash that failed, -EINVAL if there is no room for a tag, -EBADMSG for a wrong tag |
| `TlsRecord.BadPadCode` | flexbuild/packages/linux/cryptodev-linux/authenc.c:419-468 | with a hash a bad padding is answered only after the MAC over the unstripped bytes, with -EBADMSG |
| `TlsRecord.OpensWithoutHash` | flexbuild/packages/linux/cryptodev-linux/authenc.c:409-470 | without a hash a sound padding is cut off and a bad one stays in the plaintext |
| `TlsRecord.SealYields` | flexbuild/packages/linux/cryptodev-linux/authenc.c:354-407 | sealing yields the data, the first bytes of the MAC over auth and data, and the shortest padding to whole blocks, through the cipher if there is one; only a primitive can fail |
| `TlsRecord.BadPadAcceptedIff` | flexbuild/packages/linux/cryptodev-linux/authenc.c:419-467 | a bad padding ends in success exactly when no hash is active |
| `TlsRecord.SealThenOpen` | flexbuild/packages/linux/cryptodev-linux/authenc.c:354-471 | decrypting an encrypted record gives back the bytes and the length, for every length, block size and choice of primitives |
| `TlsRecord.SealedLength` | flexbuild/packages/linux/cryptodev-linux/authenc.c:193-209 | the record fits the announced destination length, with equality when hash and block cipher are active |
| `TlsRecord.Encrypt` | flexbuild/packages/linux/cryptodev-linux/authenc.c:366-408 | the buffer holds the sealed record, nothing behind it changes, and a failing primitive's code is returned |
| `TlsRecord.Decrypt` | flexbuild/packages/linux/cryptodev-linux/authenc.c:409-471 | returns 0 with the opened bytes and their length, or the code of the check that failed; an empty destination is refused with -EINVAL |
| `SrtpRecord.SealThenOpenIff` | flexbuild/packages/linux/cryptodev-linux/authenc.c:488-557 | decrypting an encrypted packet restores the whole buffer exactly when the tag is no longer than the payload |
| `SrtpRecord.OverlapRule` | flexbuild/packages/linux/cryptodev-linux/authenc.c:135-140 | for addresses less than 2^31 apart the rule is the overlap it announces; it sees distances only modulo 2^32, so addresses that far apart pass as well |
| `SrtpRecord.AcceptedIsAuthentic` | flexbuild/packages/linux/cryptodev-linux/authenc.c:518-555 | an accepted packet carries a tag over exactly the bytes received, and only the payload range changes |
| `SrtpRecord.SealsExactly` | flexbuild/packages/linux/cryptodev-linux/authenc.c:488-516 | sealing is accepted with a buffer and a tag exactly when the buffer is the old one with the payload through the cipher and the tag is the first tagLen bytes of the MAC over it |
| `SrtpRecord.SealRefuses` | flexbuild/packages/linux/cryptodev-linux/authenc.c:488-516 | when a primitive fails its code is returned, the cipher's first |
| `SrtpRecord.OpensExactly` | flexbuild/packages/linux/cryptodev-linux/authenc.c:518-555 | a packet is accepted exactly when its tag is that of the bytes received and the payload deciphers; then the payload range holds the deciphered bytes and nothing else has changed |
| `SrtpRecord.OpenRefuses` | flexbuild/packages/linux/cryptodev-linux/authenc.c:518-555 | the codes of a refusal, in the order of the checks |
| `SrtpRecord.Encrypt` | flexbuild/packages/linux/cryptodev-linux/authenc.c:488-516 | encrypts the payload inside the authenticated buffer and tags the result; addresses that fail the overlap rule are refused with the buffer unchanged |
| `SrtpRecord.Decrypt` | flexbuild/packages/linux/cryptodev-linux/authenc.c:518-559 | every refusal, by the overlap rule, the tag or a primitive, leaves every byte of the buffer unchanged |
| `DplObjects.StrcmpIsOrder` | flexbuild/packages/apps/restool/dprc_commands_generate_dpl.c:212-213 | the comparison of types is a total order |
| `DplObjects.StrcmpDecides` | flexbuild/packages/apps/restool/dprc_commands_generate_dpl.c:212-213 | the first differing character decides, or else the shorter type comes first |
| `DplObjects.InsertSorts` | flexbuild/packages/apps/restool/dprc_commands_generate_dpl.c:197-257 | insertion keeps a list strictly sorted by type and id |
| `DplObjects.InsertAdds` | flexbuild/packages/apps/restool/dprc_commands_generate_dpl.c:197-257 | insertion adds exactly the object |
| `DplObjects.List.CompareInsert` | flexbuild/packages/apps/restool/dprc_commands_generate_dpl.c:197-257 | splices the node in at its sorted place, or reports an object already listed and changes nothing |
| `DplWalk.Layout.Link` | flexbuild/packages/apps/restool/dprc_commands_generate_dpl.c:282-296 | the container becomes the head when the parent id is 0 and the new tail otherwise |
| `DplWalk.Layout.Walk` | flexbuild/packages/apps/restool/dprc_commands_generate_dpl.c:259-407 | for every tree: the linked list, the object lists, the returned tail and the error code are those of the recursive description, duplicates and restarts included |
| `DplTree.CollectsAll` | flexbuild/packages/apps/restool/dprc_commands_generate_dpl.c:323-404 | with unique objects nothing is lost or added, the list stays sorted and no error is returned |
| `DplTree.AppendsPreOrder` | flexbuild/packages/apps/restool/dprc_commands_generate_dpl.c:282-357 | while parent ids are positive the walk appends its containers in pre-order with the right parents and object lists |
| `DplTree.RestartsLose` | flexbuild/packages/apps/restool/dprc_commands_generate_dpl.c:283-289 | the list restarts exactly when a container with id 0 has a child, and containers are then missing for good |
| `DplTree.TreeFlattening` | flexbuild/packages/apps/restool/dprc_commands_generate_dpl.c:259-407 | with unique objects the global list is the sorted list of all objects, and the container list is the pre-order with right parents, options and sorted object lists exactly when every parent id is positive |
| `DplTree.GlobalListIsTheUnion` | flexbuild/packages/apps/restool/dprc_commands_generate_dpl.c:396-402 | the global list is the disjoint union of the containers' lists |
| `DplTree.CompleteIffUnique` | flexbuild/packages/apps/restool/dprc_commands_generate_dpl.c:396-402 | for every tree, all objects are listed exactly when no two have the same type and id |
| `DplTree.ErrorMeansDuplicate` | flexbuild/packages/apps/restool/dprc_commands_generate_dpl.c:323-404 | an error always means a duplicate, and in a reporting shape a duplicate always means an error |
| `DplTree.DuplicateEndsContainer` | flexbuild/packages/apps/restool/dprc_commands_generate_dpl.c:323-404 | whatever follows a duplicate in its container is not looked at: lists and records are those of the entries before it |
| `DplTree.DuplicateEndsOwnList` | flexbuild/packages/apps/restool/dprc_commands_generate_dpl.c:323-404 | the container's own list ends there too |
| `DplTree.ReportsExactly` | flexbuild/packages/apps/restool/dprc_commands_generate_dpl.c:323-404 | every duplicate is reported, whatever the objects are, if and only if no child that is followed by another entry holds an object other than the first of the walk |
| `DplTree.DuplicateGoesUnreported` | flexbuild/packages/apps/restool/dprc_commands_generate_dpl.c:328-357 | a tree with a duplicate for which the walk succeeds and an object is on no list |
| `DplTree.ParseLayout` | flexbuild/packages/apps/restool/dprc_commands_generate_dpl.c:409-452 | only the walk of the root can make it fail, and does exactly on duplicates in a reporting shape; for an opened container 0 is returned whatever happened to open, walk and close; the lists are those of the walk |
| `DplConnections.DroppingIsSafe` | flexbuild/packages/apps/restool/dprc_commands_generate_dpl.c:684-708 | dropping known connections changes no later verdict |
| `DplConnections.AcceptedIffConsistent` | flexbuild/packages/apps/restool/dprc_commands_generate_dpl.c:684-708 | no report is refused exactly when each agrees with the first earlier report that touches its first end |
| `DplConnections.NoPairTwice` | flexbuild/packages/apps/restool/dprc_commands_generate_dpl.c:668-714 | whatever is reported, no unordered pair is listed twice |
| `DplConnections.EveryPairListed` | flexbuild/packages/apps/restool/dprc_commands_generate_dpl.c:668-714 | every accepted report is on the list, in one direction or the other |
| `DplConnections.OneSidedCheck` | flexbuild/packages/apps/restool/dprc_commands_generate_dpl.c:686-705 | whether an endpoint in two connections is refused depends on the order of the reports |
| `DplConnections.OvercommittedIff` | flexbuild/packages/apps/restool/dprc_commands_generate_dpl.c:686-705 | an endpoint ends up in two listed connections exactly when the second end of some entry is in an earlier one |
| `DplConnections.TouchingIsSame` | flexbuild/packages/apps/restool/dprc_commands_generate_dpl.c:1341-1405 | under a symmetric link relation, two normalised reports that share an endpoint are the same pair |
| `DplConnections.EachConnectionOnce` | flexbuild/packages/apps/restool/dprc_commands_generate_dpl.c:1309-1425 | if the link relation is symmetric, objects asked in any order and number never cause -EINVAL, and the list holds each reported unordered pair exactly once and nothing else |
| `DplConnections.ListsExactlyTheLinks` | flexbuild/packages/apps/restool/dprc_commands_generate_dpl.c:1309-1425 | if the links are symmetric, every link of an interface that is asked about to a switch or to interface 0 of another object is on the list, in one direction, with -1 for an end that is no switch; and every entry is such a link |
| `DplConnections.EntriesShowLinks` | flexbuild/packages/apps/restool/dprc_commands_generate_dpl.c:1309-1425 | whatever the links, every entry is a link of an object that was asked |
| `DplConnections.GoodObjectIsListed` | flexbuild/packages/apps/restool/dprc_commands_generate_dpl.c:1309-1425 | whatever the links, an interface before the first clash of its object has its link on the list |
| `DplConnections.ConnList.CompareInsert` | flexbuild/packages/apps/restool/dprc_commands_generate_dpl.c:668-714 | appends a new connection at the tail, drops a known one, refuses a clashing one and changes nothing else |
| `DplConnections.ConnList.ParseEndpoint` | flexbuild/packages/apps/restool/dprc_commands_generate_dpl.c:1309-1425 | asks about the interfaces in turn and stops exactly at the first clash, with the list of the reports so far |
| `DplConnections.StopsAtAClash` | flexbuild/packages/apps/restool/dprc_commands_generate_dpl.c:1371-1405 | the interface it stops at reports a connection that clashes with the list |
| `DplConnections.ConnList.ParseObjects` | flexbuild/packages/apps/restool/dprc_commands_generate_dpl.c:1895-1968 | over a series of objects, clashes ignored as the callers do, the list is that of the reports that count |
| `DplConnections.SeriesIsListed` | flexbuild/packages/apps/restool/dprc_commands_generate_dpl.c:1895-1968 | after any series of objects, clashes included, the list holds each unordered pair of the reports that count exactly once and nothing else |
| `DplConnections.SymmetricKeepsAll` | flexbuild/packages/apps/restool/dprc_commands_generate_dpl.c:1895-1968 | under a symmetric link relation every report counts |
| `DplConnections.ConnList.Ask` | flexbuild/packages/apps/restool/dprc_commands_generate_dpl.c:1132-1147 | one query: a free or unsuitable end is passed over, a report is listed, known or refused |
| `DplObjSets.ExactIffNoGap` | flexbuild/packages/apps/restool/dprc_commands_generate_dpl.c:531-555 | the ids written are exactly the ids of the objects if and only if no type has a gap |
| `DplObjSets.EmittedIs` | flexbuild/packages/apps/restool/dprc_commands_generate_dpl.c:598-603 | exactly dpmcp.0 is passed over; every other object is written as often as it is listed |
| `DplObjSets.GroupObject` | flexbuild/packages/apps/restool/dprc_commands_generate_dpl.c:617-635 | one loop step keeps exactly one set per type, from its least to its greatest id |
| `DplObjSets.NumberObject` | flexbuild/packages/apps/restool/dprc_commands_generate_dpl.c:603-616 | node numbers start at 100, count on within a type, and jump to the next round hundred after the number that was due at each further type |
| `DplObjSets.WriteObjects` | flexbuild/packages/apps/restool/dprc_commands_generate_dpl.c:579-646 | under firmware 10 each type of the sorted list gets exactly one obj_set from its least to its greatest id and no object is left out; with nothing to emit, or older firmware, a nameless set with left-over ids is written |
| `DplObjSets.WriteContainers` | flexbuild/packages/apps/restool/dprc_commands_generate_dpl.c:557-657 | under firmware 10 a section stands for its container's objects exactly when there is one to emit and no type has a gap; under older firmware the nodes are right but a nameless set follows |

## Left out

- `dce_session_create`, `dpdcei_setup`, `dpdcei_cleanup`, VFIO and DMA: the model starts from the created session and an empty flow table.
- The stateless paradigm: it uses neither the semaphore nor the recycle fields.
- `dce_session_notification_arm` and the notification callback.
- SCF and FD accessors beyond the codec, including `xlen` and `pmode`.
- 32-bit overflow of `recycle_todo` and of the in-flight counters.
- The race between `enqueue_fd` and the TODO mark: a callback is taken to come after the mark.
- `dce_dequeue_fd_pair` reads the head before it tries the lock; the model takes the two as one step, so one dequeuer at a time.
- `enqueue_fd` failures inside runs: `DceRuns.EveryRun` and `DceStack.InFlightIsConserved` take it to succeed; what a failure does is stated by separate members.
- DceDriver.Dpdcei.DispatchOne: the device is taken to keep the address, command and token of a frame and to write NEXT_FLC; context records and frame addresses are numbers, and the workaround frame has one of its own.
- The cleanup frame `dce_flow_destroy` sends, and the compression settings in the FRC of a request.
- FQID and ICID scope flush replies: the driver never sends these commands.
- DceLinearQuiet.Linearizable: no frame is refused; a unit is allocated and filled in one step, since until it is sent only its own thread touches it and the flags it takes; the recycler marks its unit when it takes it off the account, under the mutex.
- DceLinearResults.ResultsAreTrue: an acknowledgement that the assertions reject is a call without effect.
- Cipher and hash: uninterpreted, with a length-preserving invertible cipher, a deterministic hash, block size at most 256 and tag length at most the digest size.
- TlsRecord.VerifyPad: an empty buffer is excluded, since the code would read the byte before it; the caller never passes one.
- SrtpRecord.Encrypt: a payload that passes the overlap rule but runs past the authenticated buffer is excluded; what the kernel's scatterlists do then is not part of this model.
- SrtpRecord.Decrypt: the same payload is excluded, and a failing cipher is taken to write nothing.
- `auth_n_crypt`, page pinning, and copies from and to user space.
- DplWalk.Layout.Walk: object lists are values there, changed by the sorted insertion that `DplObjects.List.CompareInsert` performs on nodes; options are set when the node is made.
- Errors of the management complex, failing allocations, and the nesting assertion in the DPL walk.
- Types longer than seven characters, for which the fixed buffer of `write_containers` is too short, and objects without a type.
- The text of the generated DPL, labels and options.
- All other restool commands, the CEETM parsers and the OpenSSL files.
