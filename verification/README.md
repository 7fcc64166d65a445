# Verification of the KWIK data plane

This project models the data plane of KWIK, a multipath transport over QUIC, and proves what it
is meant to guarantee: bytes are delivered exactly once and in order, range lists and bitmaps are
the sets they stand for, ACKs credit what they name and respect their rate limit, retransmission
counts every segment once, the packet codec and its checksum round-trip and detect errors, offsets
are allocated without overlap, and backpressure flags follow the streams.

Each module models one source file. An object whose methods update fields is a class; each method
is proved equal to a function of the old state, and the theorems are lemmas about those functions
and about whole runs of them. The retransmission manager, the part of the backpressure manager that
releases its lock half-way, and the calls of the reordering manager and of the ACK scheduler that take
several locks in turn are state machines whose steps interleave freely.

| module | what it models |
|---|---|
| Reassembly, Intervals, Lists, Maps, Options, WordBits | prefixes of segmented streams, canonical interval lists, lists without repetition, sizes of maps, missing values, bits of 64-bit words |
| FlowSequencer, FlowDelivery | reassembly by sequence number, with sender and lossy network |
| Reordering, ConcurrentReordering, LateFrames, GapFilling, ClientAggregator | reassembly by offset, in a sorted list and in a map |
| OffsetCoordinator | received ranges, gaps, reservations |
| OffsetTracker | the sliding bitmap |
| AckManager | ACK frames |
| Congestion, CongestionPhases | the congestion window |
| LossDetector, LossHistory | loss detection, and runs of it |
| AckScheduler, AckTiming, AckRegistration | ACK pacing, its parameters, and pacing under concurrent calls |
| Retransmission, RetryCounts, LoneCalls | the concurrent retransmission protocol, how often it retransmits, and calls that run alone |
| DataChecksum, RawPacket | the packet checksum and codec |
| MappingKey, OffsetManager | logical and physical offsets |
| Backpressure, BackpressureEffects | stream flags, global flag, hysteresis |

Some promises do not hold of the code. For each of these a lemma gives the exact condition under
which it does hold, and where the failure is not plain from it another lemma gives the inputs:

- the bitmap slide carries bits to the wrong neighbour word (`OffsetTracker.SlideIsExactIff`,
  `OffsetTracker.EveryMarkIsRightIff`), and a fresh tracker can be brought to refuse new data
  (`OffsetTracker.FreshTrackerCanFail`, `OffsetTracker.NewDataRefused`);
- the reordering manager tests and appends under separate locks (`ConcurrentReordering.AlwaysGoodIff`),
  and keeps late frames for ever (`LateFrames.AcceptedIffSlotLeft`, `LateFrames.RefusedForGood`);
- gaps are filled one at a time (`GapFilling.FillIsExactIff`);
- the committed offset can move back (`OffsetCoordinator.CommittedMovesBack`), and sizes committed
  are not checked (`OffsetCoordinator.CommitKeepsDisjoint`);
- the window falls below its minimum after CUBIC losses (`Congestion.WindowStaysAboveMinimumIff`) and
  grows too fast far above 1460^2 (`Congestion.WindowOfAcksGrowsByOneSegment`);
- an acknowledgement and a drop of one segment can block each other for ever
  (`Retransmission.ProgressOrCrossed`, `Retransmission.CrossedForever`), and a segment whose timer
  looks for it too early is never retransmitted (`Retransmission.QuiescentTimers`);
- a packet number used again can count as lost after a single duplicate ACK, because a timeout leaves
  the old count (`LossHistory.JustSentLostIff`, `LossHistory.StaleCountSurvives`);
- an ACK can be queued for a path unregistered meanwhile (`AckRegistration.AlwaysOnlyKnownIff`), and
  unregistering a path can block processing for ever (`AckRegistration.StuckIff`);
- a mapping of length zero loses its offset (`OffsetManager.AlwaysInverseIff`,
  `OffsetManager.ZeroLengthLosesOffset`);
- the global backpressure flag can stay on after a stale activation (`Backpressure.AlwaysInBandIff`)
  and off after a cleanup (`Backpressure.FlagAlwaysFollowsIff`, `Backpressure.CleanupRunFails`).

The documentation of `calculateDataChecksum` says that it detects reordering. Swapping two unequal
bytes is detected exactly when their distance is not a multiple of 32
(`DataChecksum.SwapGoesUnnoticedIff`).

Time is an integer passed in. Float factors (0.7, 0.9, 0.8, 1.5) are exact rationals. Numbers are
unbounded, except in the checksum, the codec and the bitmap, which use machine words or explicit
widths.

## Model

| member | source | states |
|---|---|---|
| `FlowSequencer.ExactlyOnceInOrder` | kwik/pkg/data/flow_sequencer.go:281-425 | Over every run of a numbering sender that queues frames once or twice and a network that reorders, duplicates and loses them, the bytes returned are the payloads of the frames before nextExpectedSeq, each once and in order; every buffered frame is genuine and lies strictly above nextExpectedSeq |
| `FlowDelivery.DeliversLongestPrefix` | kwik/pkg/data/flow_sequencer.go:354-425 | nextExpectedSeq is always the least number not among the frames accepted, and a frame that arrived was accepted unless, at some step of the run, it came early and met a full buffer |
| `FlowDelivery.LosslessDeliversAll` | kwik/pkg/data/flow_sequencer.go:281-425 | Over every run without losses in which the buffer is at least as large as the number of frames submitted: once nothing is queued or under way, the bytes returned are exactly what was submitted, whatever the order and the repetitions |
| `FlowDelivery.DiscardedIff` | kwik/pkg/data/flow_sequencer.go:374-396 | Over every run, the frames discarded are exactly those that arrived early at a moment when the buffer was full |
| `FlowDelivery.ArrivesWithRoom` | kwik/pkg/data/flow_sequencer.go:374-384 | With room in the buffer every arriving frame is accepted and none is discarded |
| `FlowDelivery.LargeBufferRefusesNone` | kwik/pkg/data/flow_sequencer.go:374-396 | A buffer for as many frames as were submitted never refuses one, in any run |
| `FlowDelivery.ReceiveRefusesIff` | kwik/pkg/data/flow_sequencer.go:354-402 | A frame is refused exactly when it is early and the buffer is full; any other is delivered or kept with its payload |
| `FlowDelivery.SubmitQueuesCopies` | kwik/pkg/data/flow_sequencer.go:281-327 | Once the workers are done a submitted frame is queued twice, or once if the task channel was full |
| `FlowSequencer.ArrivedPrefixIsDelivered` | kwik/pkg/data/flow_sequencer.go:331-425 | When frames 0..n-1 have all arrived and the buffer turned none away, all n are delivered |
| `FlowSequencer.RunKeepsInv` | kwik/pkg/data/flow_sequencer.go:281-425 | Sender queue, waiting tasks, network and buffer only ever hold frames the sender made, and the buffer respects its limit |
| `FlowSequencer.ReceiveKeepsInv` | kwik/pkg/data/flow_sequencer.go:354-402 | One received frame, whether expected, late, early or too many, keeps the delivered bytes equal to the concatenation of the frames consumed |
| `FlowSequencer.Flow.SequenceOutboundFrame` | kwik/pkg/data/flow_sequencer.go:281-327 | Numbers the frame with the next number, queues it at once and hands it to the background worker a second time when the channel has room |
| `FlowSequencer.Flow.ProcessInboundFrame` | kwik/pkg/data/flow_sequencer.go:354-402 | The new receiver state and the bytes returned are those of the receiver function that the delivery theorems are about; a frame is dropped exactly when it is early and the buffer is full, and any other is consumed or buffered |
| `FlowSequencer.Flow.ProcessBufferedFrames` | kwik/pkg/data/flow_sequencer.go:404-425 | The draining loop moves exactly the consecutive run of buffered frames to the output |
| `FlowSequencer.FlowBuffer.Write` | kwik/pkg/data/flow_sequencer.go:731-744 | Appends to the unread bytes, or refuses and changes nothing when old and new bytes (read ones included until reclaimed) exceed the capacity |
| `FlowSequencer.FlowBuffer.Read` | kwik/pkg/data/flow_sequencer.go:747-773 | Takes the longest prefix of the unread bytes that fits the caller's buffer, also when the slice is compacted in place |
| `Reordering.ReassembledIsPrefix` | kwik/pkg/data/reordering.go:203-257 | Whatever slices of one stream arrive (overlapping, repeated, empty, refused), the reassembled data is the stream up to nextOffset, the buffer is sorted and no buffered frame starts at nextOffset |
| `Reordering.CompleteMeansWholeStream` | kwik/pkg/data/reordering.go:385-423 | A stream that reports the final frame has been reassembled completely |
| `Reordering.CompletionIsRemembered` | kwik/pkg/data/reordering.go:203-257 | Completion is never taken back by later frames, empty ones included, and no total is announced before it |
| `Reordering.DeliversLongestPrefix` | kwik/pkg/data/reordering.go:203-366 | Over a common segmentation, any order, repetition and refusal: the data is exactly the longest prefix of segments that the accepted ones cover, and the final mark appears exactly when that is everything |
| `Reordering.OrderDoesNotMatter` | kwik/pkg/data/reordering.go:203-366 | Two runs that accepted the same segments hold the same data and agree on completion |
| `Reordering.LargeBufferAcceptsAll` | kwik/pkg/data/reordering.go:631-657 | A buffer as large as the number of frames received never refuses one |
| `Reordering.AppendNeedsFreshTest` | kwik/pkg/data/reordering.go:221-229 | The in-order test and the append take the lock separately; the append keeps the data a prefix of the stream exactly when the test still holds at that moment |
| `ConcurrentReordering.AlwaysGoodIff` | kwik/pkg/data/reordering.go:203-366 | Over every run of callers and workers that interleave test, append, insertion and removal: the data is the stream up to nextOffset in every state if and only if every append finds its frame at nextOffset |
| `ConcurrentReordering.AlwaysPrefixIff` | kwik/pkg/data/reordering.go:203-366 | The same for every run from the start and every stream |
| `ConcurrentReordering.StepKeepsGoodIff` | kwik/pkg/data/reordering.go:221-246 | The same for one step of any kind |
| `ConcurrentReordering.SerialAppendsAreTimely` | kwik/pkg/data/reordering.go:203-257 | One caller or worker at a time, every append is timely |
| `ConcurrentReordering.CallAlone` | kwik/pkg/data/reordering.go:203-366 | A call that nobody disturbs comes to an end after finitely many steps and does exactly what the sequential manager does |
| `ConcurrentReordering.TwoCallersCorrupt` | kwik/pkg/data/reordering.go:221-229 | Two callers with the same frame suffice to append it twice, from the start |
| `Reordering.DoubleAppendIff` | kwik/pkg/data/reordering.go:221-229 | Two copies of an in-order frame that both pass the test before either is appended leave the stream intact exactly when the frame is empty |
| `Reordering.InsertedIsSorted` | kwik/pkg/data/reordering.go:643-653 | Insertion before the first larger offset keeps the list sorted |
| `Reordering.FrameBuffer.AddFrame` | kwik/pkg/data/reordering.go:631-657 | Splices the frame into the sorted list in place and keeps currentSize its length, or refuses a full buffer |
| `Reordering.FrameBuffer.GetNextInOrderFrame` | kwik/pkg/data/reordering.go:660-678 | Removes the first frame at the expected offset if there is one, and nothing else |
| `Reordering.ReorderingContext.ProcessIncomingFrame` | kwik/pkg/data/reordering.go:203-257 | The whole new state is that of the reassembler function that the prefix theorems are about |
| `Reordering.ReorderingContext.ProcessBufferedFrames` | kwik/pkg/data/reordering.go:348-366 | The loop consumes buffered frames until none is due |
| `Reordering.ReorderingContext.ReassembleStreamData` | kwik/pkg/data/reordering.go:385-423 | Succeeds exactly on a completed stream with no gap recorded and then returns the data reassembled |
| `LateFrames.RefusedForGood` | kwik/pkg/data/reordering.go:631-657 | Once frames from below the next offset fill the buffer, every out-of-order frame is refused in every continuation |
| `LateFrames.AcceptedIffSlotLeft` | kwik/pkg/data/reordering.go:631-657 | An out-of-order frame is accepted if and only if the frames still waiting are fewer than the slots not taken by late frames |
| `LateFrames.SlotsNeverReturn` | kwik/pkg/data/reordering.go:660-678 | No later frame gives such a slot back |
| `LateFrames.CopiesUseSlots` | kwik/pkg/data/reordering.go:221-235 | Every late copy of a frame that finds room costs exactly one slot |
| `GapFilling.ReassemblyState.FillGap` | kwik/pkg/data/reordering.go:756-795 | Answers whether some gap contains the offset, and cuts the data out of that gap |
| `GapFilling.FillCutsOneGap` | kwik/pkg/data/reordering.go:763-792 | Data leaves the gap its first byte falls in and no other gap |
| `GapFilling.FillIsExactIff` | kwik/pkg/data/reordering.go:763-792 | Exactly the arrived bytes leave the gaps if and only if no gap starts inside the data; otherwise that gap stays open although its data arrived |
| `GapFilling.FillKeepsCanonicalIff` | kwik/pkg/data/reordering.go:766-788 | The gaps stay non-empty and apart if and only if it is not empty data strictly inside a gap |
| `ClientAggregator.BatchesDeliverPrefix` | kwik/pkg/data/client_aggregator.go:287-361 | Over whole runs, for any slices of one stream in any batches, all bytes returned are the stream up to the expected offset, and completion means the whole stream |
| `ClientAggregator.BatchDeliversPrefix` | kwik/pkg/data/client_aggregator.go:287-331 | One batch more keeps this |
| `ClientAggregator.StoredFrame` | kwik/pkg/data/client_aggregator.go:287-320 | Of several frames at one offset the first is kept when duplicates are detected, and the last when they are not |
| `ClientAggregator.DeliversLongestPrefix` | kwik/pkg/data/client_aggregator.go:287-361 | Over every batching and order, with or without duplicate detection, the bytes returned are the longest prefix of segments that arrived |
| `ClientAggregator.AgreesWithReordering` | kwik/pkg/data/client_aggregator.go:334-361 | The map-based and the list-based reassembler deliver the same bytes and agree on completion whenever they took the same segments |
| `ClientAggregator.AggregatedStream.ProcessAggregatedFrames` | kwik/pkg/data/client_aggregator.go:287-331 | The batch loop refines the aggregator function of those theorems, and counts as duplicates exactly the frames that it does not store |
| `ClientAggregator.AggregatedStream.ExtractOrderedData` | kwik/pkg/data/client_aggregator.go:334-361 | The draining loop empties exactly the consecutive run at the expected offset and stops at a final frame |
| `OffsetCoordinator.RegisterIsUnion` | kwik/pkg/data/offset_coordinator.go:545-570 | Sorting and merging after adding a range gives a canonical list (sorted, a hole between any two) of exactly the union |
| `OffsetCoordinator.RegisterKeepsTrack` | kwik/pkg/data/offset_coordinator.go:343-393 | The ranges stay the canonical list of the offsets registered; on a receive-only stream the committed offset is the least missing one and never decreases |
| `OffsetCoordinator.RunIsCanonical` | kwik/pkg/data/offset_coordinator.go:343-393 | In every state of every run of registrations, however the sort breaks ties, the ranges are the canonical list of the offsets registered so far, and the committed offset is the least missing one and has not decreased |
| `OffsetCoordinator.SameOffsetsSameState` | kwik/pkg/data/offset_coordinator.go:343-393 | Two runs that registered the same offsets, in whatever order and pieces, end with the same ranges and the same committed offset |
| `OffsetCoordinator.CommittedMovesBack` | kwik/pkg/data/offset_coordinator.go:376-380 | On a stream that also commits, registering moves the committed offset back if and only if offset 0 has arrived and something below the committed offset has not |
| `OffsetCoordinator.CommitThenRegister` | kwik/pkg/data/offset_coordinator.go:280-393 | From a new stream: reserve and commit 10 bytes, register 5, and the committed offset falls from 10 to 5 |
| `OffsetCoordinator.RegisterAlwaysLists` | kwik/pkg/data/offset_coordinator.go:343-393 | Registering any range, empty or reversed ones included, adds exactly its offsets to what the list covers and keeps it in order |
| `OffsetCoordinator.StreamOffsetState.RegisterDataReceived` | kwik/pkg/data/offset_coordinator.go:343-393 | Adds the range to the received set, keeps the list canonical for positive sizes, and sets the committed offset to the end of the contiguous start |
| `OffsetCoordinator.StreamOffsetState.MergeReceivedRanges` | kwik/pkg/data/offset_coordinator.go:545-570 | The in-place merging loop computes the merge function of the theorems |
| `OffsetCoordinator.GapsCoverMissing` | kwik/pkg/data/offset_coordinator.go:572-597 | On any list in order of the starts the gaps cover exactly what is missing below the last start |
| `OffsetCoordinator.StreamOffsetState.DetectGaps` | kwik/pkg/data/offset_coordinator.go:572-597 | On every list in order the gaps cover what is missing below the last start; on a canonical one they are the canonical list of it up to the highest end, gap and range sizes add up to that end, and there are none exactly when nothing is missing |
| `OffsetCoordinator.StreamOffsetState.ReserveOffsetRange` | kwik/pkg/data/offset_coordinator.go:218-277 | Each reservation starts where the last ended, at the sum of all sizes ever reserved; the branch that repairs overlaps is dead |
| `OffsetCoordinator.StreamOffsetState.CommitOffsetRange` | kwik/pkg/data/offset_coordinator.go:280-340 | Succeeds exactly on a live reservation with that start, so each commits at most once, and closes it at its actual size |
| `OffsetCoordinator.StreamOffsetState.CleanupReservations` | kwik/pkg/data/offset_coordinator.go:660-687 | Expiry drops exactly the uncommitted reservations that are too old and keeps every invariant |
| `OffsetCoordinator.CommitKeepsDisjoint` | kwik/pkg/data/offset_coordinator.go:300-325 | A commit keeps the recorded extents disjoint if and only if its size is not negative and it runs neither into a later reservation nor past the next offset |
| `OffsetCoordinator.CommitTooMuch` | kwik/pkg/data/offset_coordinator.go:218-340 | From a new stream: reserve 10 bytes twice, commit 15 on the first, and the extents overlap |
| `OffsetCoordinator.CommitWithinReservation` | kwik/pkg/data/offset_coordinator.go:300-325 | A commit of at most the reserved size is always safe |
| `OffsetCoordinator.ContiguousAreDisjoint` | kwik/pkg/data/offset_coordinator.go:230-262 | Any two ranges ever reserved are disjoint |
| `Intervals.CanonicalIsUnique` | kwik/pkg/data/offset_coordinator.go:545-570 | A set of offsets has one canonical list of intervals |
| `Intervals.CanonicalIsShortest` | kwik/pkg/data/ack_manager.go:577-621 | No list of intervals with the same members is shorter than the canonical one |
| `OffsetTracker.SlideIsExactIff` | kwik/pkg/data/aggregator_performance.go:211-249 | A slide moves every bit to its place if and only if the words on either side of every word agree on the carried bits, or nothing is carried: the carry goes to the wrong neighbour |
| `OffsetTracker.SlideIsAlwaysExactIff` | kwik/pkg/data/aggregator_performance.go:211-249 | A slide is exact on every bitmap of a size if and only if it is by whole words, past the whole bitmap, or on one word |
| `OffsetTracker.FreshTrackerCanFail` | kwik/pkg/data/aggregator_performance.go:147-249 | For every window of more than one word and every first slide that is neither by whole words nor past the bitmap, two calls on a fresh tracker answer wrongly or leave a wrong set |
| `OffsetTracker.NewDataRefused` | kwik/pkg/data/aggregator_performance.go:147-175 | With a window of 128, after offsets 64 and 129 the tracker takes 192 for received and refuses it |
| `OffsetTracker.SlideTracksSetIff` | kwik/pkg/data/aggregator_performance.go:211-249 | A slide forgets exactly the offsets below the new base if and only if its carry is harmless |
| `OffsetTracker.EveryMarkIsRightIff` | kwik/pkg/data/aggregator_performance.go:147-249 | Over every sequence of calls, each answers rightly and leaves the right set if and only if every slide of the sequence has a harmless carry |
| `OffsetTracker.FreshTrackerIsRightIff` | kwik/pkg/data/aggregator_performance.go:136-249 | The same from a new tracker of any window |
| `OffsetTracker.MarkRefinesSetIff` | kwik/pkg/data/aggregator_performance.go:147-175 | A call succeeds exactly on offsets at or above the base that are not in the set, and leaves the set with its offset added, if and only if the slide it needs, if any, has a harmless carry |
| `OffsetTracker.WindowOfRun` | kwik/pkg/data/aggregator_performance.go:136-249 | After every sequence of calls the window covers the largest offset, and its base is 0 or half a window below an offset of the sequence |
| `OffsetTracker.BitmapTracker.MarkReceived` | kwik/pkg/data/aggregator_performance.go:147-175 | The method on the array refines the value function of those theorems |
| `OffsetTracker.BitmapTracker.IsReceived` | kwik/pkg/data/aggregator_performance.go:178-191 | Answers membership in the set the bitmap stands for |
| `OffsetTracker.BitmapTracker.SlideTo` | kwik/pkg/data/aggregator_performance.go:211-249 | The in-place word move, zeroing and bit shift compute the slide function |
| `OffsetTracker.BitmapTracker.ShiftBitsInPlace` | kwik/pkg/data/aggregator_performance.go:237-246 | The right shift with its running carry, bit by bit, as the program computes it |
| `OffsetTracker.BitmapTracker.GetGaps` | kwik/pkg/data/aggregator_performance.go:252-291 | Lists the exact maximal missing runs from the base to the smaller of the bound and the window end |
| `AckManager.BubbleSort` | kwik/pkg/data/ack_manager.go:586-594 | The in-place bubble sort sorts and permutes |
| `AckManager.CreateAckRanges` | kwik/pkg/data/ack_manager.go:577-621 | The ranges cover exactly the given identifiers |
| `AckManager.RunsCover` | kwik/pkg/data/ack_manager.go:596-618 | Run-length coding loses and adds nothing |
| `AckManager.RunsAreCanonical` | kwik/pkg/data/ack_manager.go:596-618 | The ranges are disjoint with holes between them, hence as few as possible, if and only if the identifiers are distinct |
| `AckManager.FindLargestPacketID` | kwik/pkg/data/ack_manager.go:624-637 | The largest identifier of a non-empty list |
| `AckManager.CreditIsExact` | kwik/pkg/data/ack_manager.go:519-560 | What is newly acknowledged is exactly the unacknowledged sent packets that were named, once each, and the acknowledged set grows by that many |
| `AckManager.PathAckState.AddSentPacket` | kwik/pkg/data/ack_manager.go:978-999 | Recording a sent packet keeps the crediting exact if and only if its number was not already acknowledged |
| `AckManager.PathAckState.GenerateAck` | kwik/pkg/data/ack_manager.go:448-506 | Sends ranges exactly from the batching threshold on, canonical exactly for distinct packets, and single numbers below it; both forms acknowledge exactly the given packets and carry the largest |
| `AckManager.PathAckState.ProcessReceivedAck` | kwik/pkg/data/ack_manager.go:509-574 | Newly acknowledges exactly the named sent packets still open, credits the congestion controller 1460 bytes for each, once, and leaves its window as one ACK of so many packets does |
| `AckManager.AckRoundTrip` | kwik/pkg/data/ack_manager.go:448-574 | Generating an ACK and processing it acknowledges exactly those packets; replaying the frame acknowledges nothing, so the bytes credited stay 1460 times the packets acknowledged |
| `AckManager.RangeLoopEndsIff` | kwik/pkg/data/ack_manager.go:540-551 | The loop over a range ends if and only if the range ends below 2^64 - 1, where its counter wraps around |
| `Congestion.RunKeepsInv` | kwik/pkg/data/congestion_controller.go:82-377 | In every state that any mix of ACKs, losses, algorithms and clamping reaches, exactly one phase flag is set, the threshold is at least the minimum, and so is the window outside fast recovery |
| `Congestion.NeverStuck` | kwik/pkg/data/congestion_controller.go:295-310 | The division by the window is safe in every reachable state |
| `Congestion.WindowStaysAboveMinimumIff` | kwik/pkg/data/congestion_controller.go:329-377 | Over every run, the window is never below the minimum, fast recovery included, if and only if every CUBIC loss finds a window of which seven tenths still reach the minimum |
| `Congestion.StepKeepsMinimumIff` | kwik/pkg/data/congestion_controller.go:329-377 | Of all steps only a CUBIC loss can take the window below the minimum, and exactly when seven tenths of it are less |
| `CongestionPhases.SlowStartAddsAcked` | kwik/pkg/data/congestion_controller.go:276-292 | Over every run of ACKs that stays in slow start, the window is the initial one and everything acknowledged |
| `CongestionPhases.SlowStartLastsIff` | kwik/pkg/data/congestion_controller.go:276-292 | Over every run of ACKs, slow start lasts if and only if the initial window and everything acknowledged stay below half the maximum |
| `CongestionPhases.AvoidanceIsAfterAcks` | kwik/pkg/data/congestion_controller.go:295-310 | Over every stretch of ACKs in congestion avoidance, the window is what the growth theorems below are about |
| `CongestionPhases.RecoveryEndsAtHalf` | kwik/pkg/data/congestion_controller.go:313-359 | A whole recovery after a loss under Reno, NewReno or CUBIC ends in congestion avoidance at half the window the loss found, or at the minimum, whatever the ACKs in between added |
| `CongestionPhases.RenoLossHalves` | kwik/pkg/data/congestion_controller.go:329-377 | Under Reno and NewReno a loss sets the threshold to half the window, but not below the minimum, and the window three segments above |
| `CongestionPhases.OtherLossesShrink` | kwik/pkg/data/congestion_controller.go:346-371 | CUBIC leaves seven tenths of the window and BBR nine, without a change of phase and not below the minimum |
| `Congestion.CubicLossesReachZero` | kwik/pkg/data/congestion_controller.go:346-359 | From every window, enough CUBIC losses end at zero, so no smaller positive bound holds either |
| `Congestion.WindowOfAcksGrowsByOneSegment` | kwik/pkg/data/congestion_controller.go:295-310 | One window of congestion-avoidance ACKs adds at most one segment (section 3.1 of RFC 5681) if and only if the window is below 1460 * 1461 or the maximum is at most one segment away; always when the maximum is at most 1460^2 |
| `Congestion.GrowthIsBounded` | kwik/pkg/data/congestion_controller.go:295-310 | Every ACK adds at most what the first would have added |
| `CongestionPhases.GrowthAtLeast` | kwik/pkg/data/congestion_controller.go:295-310 | Until the maximum is reached, every ACK adds at least what the last window would get |
| `CongestionPhases.IncreaseIsShare` | kwik/pkg/data/congestion_controller.go:295-303 | An ACK adds 1460^2 divided by the window, rounded down, and one byte above 1460^2 |
| `Congestion.CongestionState.ProcessAck` | kwik/pkg/data/congestion_controller.go:123-162 | Dispatches by phase to the state machine above, keeps its invariant and counts bytes and ACKs; in slow start the window grows by the bytes acknowledged and in congestion avoidance by its increase, up to the maximum |
| `Congestion.CongestionState.OnPacketLoss` | kwik/pkg/data/congestion_controller.go:186-222 | Dispatches by algorithm to the state machine above and keeps its invariant |
| `Congestion.CongestionState.UpdateCongestionWindow` | kwik/pkg/data/congestion_controller.go:165-183 | Afterwards the window lies between minimum and maximum |
| `CongestionPhases.ClampMovesToNearest` | kwik/pkg/data/congestion_controller.go:165-183 | A window outside its bounds moves to the nearer one, and one inside stays |
| `LossHistory.HistoryDecides` | kwik/pkg/data/loss_detector.go:87-313 | Over every run of sends, ACKs, duplicate ACKs, detections and new timeouts: a tracked packet counts as lost if and only if it was sent longer ago than the timeout, or enough duplicate ACKs named it since its count was last cleared, or a packet further above it than the reordering threshold was acknowledged |
| `LossHistory.LostStaysLost` | kwik/pkg/data/loss_detector.go:167-267 | Over every run that neither acknowledges nor resends it, a packet that counts as lost and is still tracked counts as lost from then on, unless the timeout grew by more than the time that passed |
| `LossHistory.LostIsReported` | kwik/pkg/data/loss_detector.go:167-267 | Once a packet counts as lost, the next detection takes it off, whatever came between |
| `LossHistory.TrackedIff` | kwik/pkg/data/loss_detector.go:167-267 | A packet is tracked after a run if and only if no detection of the run found it lost |
| `LossHistory.FreshIsLostIffLate` | kwik/pkg/data/loss_detector.go:87-114 | A packet sent under a number not used before counts as lost when the timeout has passed and not earlier |
| `LossHistory.JustSentLostIff` | kwik/pkg/data/loss_detector.go:87-114 | A packet just sent counts as lost if and only if enough duplicate ACKs of its number are left over or it lies too far below the largest one acknowledged |
| `LossHistory.StaleCountSurvives` | kwik/pkg/data/loss_detector.go:148-244 | A timeout leaves the duplicate ACKs of the packet counted: when its number is used again, one more completes the old count |
| `LossHistory.DetectionClearsCountIff` | kwik/pkg/data/loss_detector.go:207-244 | A detection clears the duplicate ACKs of exactly the packets that are lost because of them |
| `LossHistory.AckForgets` | kwik/pkg/data/loss_detector.go:117-145 | An ACK forgets the packet and its duplicate ACKs until it is named again |
| `LossHistory.TimeoutIsShare` | kwik/pkg/data/loss_detector.go:289-313 | The timeout is nine quarters of the round-trip time, rounded down to an even number, and at least twenty milliseconds |
| `LossDetector.LossDetectionState.DetectLoss` | kwik/pkg/data/loss_detector.go:167-204 | Reports exactly the tracked packets that the point query calls lost, once each, counts them exactly, in all and by category, leaves the state of the histories above and nothing for a second call; sent packets stay partitioned into open, acknowledged and lost |
| `LossDetector.LossDetectionState.IsPacketLost` | kwik/pkg/data/loss_detector.go:353-396 | A tracked packet is lost exactly when more time than the timeout has passed, its duplicate ACKs reach the threshold, or it lies more than the reordering threshold below the largest packet acknowledged |
| `LossDetector.LossDetectionState.RunDetectors` | kwik/pkg/data/loss_detector.go:167-204 | The three lists are disjoint, so removing duplicates is the identity and every loss is counted in one category |
| `LossDetector.DisjointLists` | kwik/pkg/data/loss_detector.go:207-267 | Because each detector removes what it reports, the lists are disjoint and together are exactly the lost packets |
| `LossDetector.RemoveDuplicates` | kwik/pkg/data/loss_detector.go:270-286 | Keeps the members, drops repetitions, and is the identity on a list without any |
| `LossDetector.NothingLeft` | kwik/pkg/data/loss_detector.go:167-204 | After removing what was found, no packet is lost any more |
| `LossDetector.OvertakenMeetsPacketThreshold` | kwik/pkg/data/loss_detector.go:247-267 | Every packet the reordering rule reports meets the packet threshold of section 6.1.1 of RFC 9002; the rule is stricter by exactly one packet |
| `LossDetector.LossDetectionState.OnPacketSent` | kwik/pkg/data/loss_detector.go:87-114 | Recording a packet keeps the partition if and only if its number is neither acknowledged nor lost |
| `LossDetector.LossDetectionState.OnPacketAcked` | kwik/pkg/data/loss_detector.go:117-145 | Moves a tracked packet to the acknowledged ones and keeps the partition |
| `AckScheduler.RateLimit` | kwik/pkg/data/ack_scheduler.go:353-395 | No window shorter than the ACK interval holds more releases than the burst allowance, although the program keeps one counter and one timestamp |
| `AckScheduler.CanSendIff` | kwik/pkg/data/ack_scheduler.go:353-372 | A release is permitted if and only if the release history with it still has no chain of close releases longer than the burst allowance |
| `AckScheduler.ReleaseKeepsRate` | kwik/pkg/data/ack_scheduler.go:375-395 | The counter is the length of the last chain of close releases, before and after every permitted release |
| `AckScheduler.RescheduleMakesProgressIff` | kwik/pkg/data/ack_scheduler.go:218-231 | Putting a blocked ACK back reduces the number of due ones if and only if the minimum delay is positive |
| `AckScheduler.Scheduler.ProcessScheduledAcks` | kwik/pkg/data/ack_scheduler.go:200-243 | Ends, releases at most the configured number of ACKs, all due and in priority order, keeps every path's rate limit, and keeps scheduled = processed + queued + purged; an ACK is postponed only when its path may not send, and none is lost, doubled or changed otherwise |
| `AckScheduler.TurnProgress` | kwik/pkg/data/ack_scheduler.go:207-236 | Every turn of the loop reduces the number of due ACKs and accounts for every ACK |
| `AckScheduler.TurnKeepsOrder` | kwik/pkg/data/ack_scheduler.go:62-70 | What is released follows the order of the queue |
| `AckScheduler.Scheduler.UnregisterPath` | kwik/pkg/data/ack_scheduler.go:136-158 | Exactly the ACKs of the path leave the queue, the others keep their order; only ACKs of registered paths stay |
| `AckScheduler.Scheduler.ScheduleAck` | kwik/pkg/data/ack_scheduler.go:161-197 | Queues one ACK with its time for a registered path, refuses any other |
| `AckTiming.PriorityMeansEarlier` | kwik/pkg/data/ack_scheduler.go:330-350 | Urgent ACKs are due at once, high ones after half the minimum delay, normal ones after one interval and low ones after two, so a higher priority is never due later |
| `AckTiming.LessIsStrictWeakOrder` | kwik/pkg/data/ack_scheduler.go:62-70 | The order of the queue is a strict weak order in which priority comes before time |
| `AckRegistration.AlwaysOnlyKnownIff` | kwik/pkg/data/ack_scheduler.go:136-197 | Over every run of calls that interleave, only ACKs of registered paths are queued in every state (those of a path being unregistered until its purge) if and only if every push still finds the path that its test found |
| `AckRegistration.EveryAckIsAccounted` | kwik/pkg/data/ack_scheduler.go:136-243 | Over every interleaving, each ACK admitted is sent once, purged once with its path, or still held |
| `AckRegistration.StepKeepsKnownIff` | kwik/pkg/data/ack_scheduler.go:161-186 | The same for one step of any kind |
| `AckRegistration.LatePush` | kwik/pkg/data/ack_scheduler.go:161-186 | From the start: a path unregistered and purged between test and push leaves its ACK queued |
| `AckRegistration.StuckIff` | kwik/pkg/data/ack_scheduler.go:136-243 | Nothing at all can happen any more if and only if processing has taken an ACK out and waits for the paths while an unregistering waits for the queue |
| `AckRegistration.StepAvoidsCrossingIff` | kwik/pkg/data/ack_scheduler.go:136-243 | Which steps lead there: taking an ACK out while a path is being purged, or unregistering while an ACK is taken out |
| `AckRegistration.LockOrdersCanMeet` | kwik/pkg/data/ack_scheduler.go:136-243 | It is reached from every idle state with a queued ACK |
| `AckScheduler.Scheduler.CanSendAck` | kwik/pkg/data/ack_scheduler.go:353-372 | The nested tests permit a release exactly when it keeps the rate limit of the history of the path |
| `AckScheduler.AckInterval` | kwik/pkg/data/ack_scheduler.go:246-279 | With sane limits the interval lies between the minimum and the maximum delay |
| `AckTiming.IntervalIsExact` | kwik/pkg/data/ack_scheduler.go:246-279 | Within its bounds the interval is a quarter of the round-trip time, or the minimum delay, shortened by the loss rate and lengthened by half for little bandwidth, rounded down by less than 2.5 nanoseconds; it is moved to a bound only when that is out of bounds |
| `AckTiming.CleanPathWaitsQuarter` | kwik/pkg/data/ack_scheduler.go:246-279 | A path without loss and with normal bandwidth waits exactly a quarter of its round-trip time |
| `AckScheduler.BurstAllowance` | kwik/pkg/data/ack_scheduler.go:282-301 | The allowance is between 1 and 5 |
| `AckTiming.BurstIsGraded` | kwik/pkg/data/ack_scheduler.go:282-301 | High latency costs exactly one ACK of the burst; an unreliable path has two whatever its bandwidth, a reliable one three, or five above 1 Mbps |
| `Retransmission.RunKeepsInv` | kwik/pkg/data/retransmission_manager.go:168-260 | The invariants of threads, locks, timers and segments hold after every interleaving of tracking, acknowledging and timer steps |
| `Retransmission.CallbackMeansUnacknowledged` | kwik/pkg/data/retransmission_manager.go:458-489 | Whenever a retry callback is about to start or running, its segment is not acknowledged |
| `Retransmission.NoRetryAfterAck` | kwik/pkg/data/retransmission_manager.go:219-260 | Once a segment is acknowledged, over every continuation no retry callback starts for it and it is never counted as dropped |
| `Retransmission.RetriesAreBounded` | kwik/pkg/data/retransmission_manager.go:464-470 | Whatever the backoff strategy answers, a segment is retransmitted at most its maximum of attempts less one |
| `RetryCounts.DroppedAfterAllRetriesIff` | kwik/pkg/data/retransmission_manager.go:449-515 | Over every interleaving, a dropped segment was retransmitted exactly as often as its attempts allow if and only if the backoff strategy never refused it a retry while attempts were left; otherwise less often |
| `RetryCounts.YesRetriesAll` | kwik/pkg/data/retransmission_manager.go:464-489 | In particular with a strategy that always says yes no segment is dropped before its last attempt |
| `RetryCounts.QuiescentRetries` | kwik/pkg/data/retransmission_manager.go:478-482 | When no thread is at work, the retransmissions counted are those of each segment, added up |
| `RetryCounts.AckSettles` | kwik/pkg/data/retransmission_manager.go:219-260 | An acknowledgement of a tracked segment takes effect, whatever runs beside it: when it has returned the segment is out of the map, and at rest it is counted as acknowledged or as dropped |
| `LoneCalls.AckAlone` | kwik/pkg/data/retransmission_manager.go:219-260 | Undisturbed, an acknowledgement stops the timer, removes and counts the segment, and changes nothing else |
| `LoneCalls.RetryAlone` | kwik/pkg/data/retransmission_manager.go:449-489 | Undisturbed, a timer that fires with attempts left and a willing strategy retransmits once, counts it and is armed again |
| `LoneCalls.DropAlone` | kwik/pkg/data/retransmission_manager.go:449-515 | Undisturbed, a timer that fires without either drops the segment and counts it |
| `LoneCalls.TrackAlone` | kwik/pkg/data/retransmission_manager.go:168-214 | Undisturbed, tracking arms the timer, inserts and counts the segment |
| `LoneCalls.UnansweredSegment` | kwik/pkg/data/retransmission_manager.go:168-515 | For every number of attempts a run from the start makes all the retries they allow and then drops the segment |
| `Retransmission.CountedAtMostOnce` | kwik/pkg/data/retransmission_manager.go:206-243 | The totals are sizes of sets of segments, and no segment is both acknowledged and dropped |
| `Retransmission.QuiescentBalance` | kwik/pkg/data/retransmission_manager.go:541-547 | When no thread is at work, every segment inserted is still tracked, or acknowledged, or dropped; total = acknowledged + dropped + active; all locks are free |
| `Retransmission.MutualExclusion` | kwik/pkg/data/retransmission_manager.go:449-515 | No two threads hold the map lock, or the mutex of one segment, together |
| `Retransmission.ProgressOrCrossed` | kwik/pkg/data/retransmission_manager.go:219-228 | As long as work is left some thread can go on, unless a thread that acknowledges a segment under the map lock waits for that segment while its timer thread waits for the map lock to drop it |
| `Retransmission.CrossedForever` | kwik/pkg/data/retransmission_manager.go:449-499 | Conversely such a meeting blocks both threads in every continuation |
| `Retransmission.LockOrdersCanMeet` | kwik/pkg/data/retransmission_manager.go:219-228 | The meeting is reachable, for every segment |
| `Retransmission.QuiescentTimers` | kwik/pkg/data/retransmission_manager.go:182-206 | When no thread is at work, every tracked segment is unacknowledged and has exactly one timer armed, unless a timer of it had looked for it before it was put in the map: then it has none |
| `Retransmission.MissedForever` | kwik/pkg/data/retransmission_manager.go:449-456 | Such a segment is never retransmitted or dropped in any continuation |
| `Retransmission.EarlyTimerMisses` | kwik/pkg/data/retransmission_manager.go:182-192 | A run that ends with such a segment, for every number of attempts |
| `Retransmission.StepKeepsInv` | kwik/pkg/data/retransmission_manager.go:449-515 | Every single step of any thread keeps all invariants |
| `DataChecksum.CalculateDataChecksum` | kwik/pkg/data/plane.go:1103-1111 | The loop computes the fold that the strength theorems are about |
| `DataChecksum.OneByteChanges` | kwik/pkg/data/plane.go:1103-1111 | Changing one byte of any string always changes the checksum |
| `DataChecksum.SwapOfNeighboursChanges` | kwik/pkg/data/plane.go:1103-1111 | Swapping two different neighbouring bytes always changes the checksum |
| `DataChecksum.SwapGoesUnnoticedIff` | kwik/pkg/data/plane.go:1103-1111 | Swapping any two bytes goes unnoticed if and only if they are equal or their distance is a multiple of 32 |
| `DataChecksum.SwapAtMultiplesOf32` | kwik/pkg/data/plane.go:1103-1111 | Bytes any multiple of 32 positions apart can always be swapped unnoticed |
| `DataChecksum.SwapMeetsItselfIff` | kwik/pkg/data/plane.go:1105-1109 | A swap goes unnoticed exactly when the difference of the bytes, rotated by their distance, meets itself |
| `DataChecksum.ChecksumIsLinear` | kwik/pkg/data/plane.go:1103-1111 | On equal lengths the checksum of the bytewise difference is the difference of the checksums |
| `DataChecksum.CollidesIff` | kwik/pkg/data/plane.go:1103-1111 | Two strings of one length collide if and only if their difference has checksum zero |
| `DataChecksum.TwoBytesCanCollide` | kwik/pkg/data/plane.go:1103-1111 | Two changed bytes can cancel |
| `DataChecksum.VerifyRawDataIntegrity` | kwik/pkg/data/plane.go:1115-1140 | Accepts exactly unchanged data with unchanged checksum that is the checksum of the data |
| `RawPacket.RoundTripIff` | kwik/pkg/data/plane.go:1155-1309 | Decoding an encoded frame, with anything behind it and into any target, returns the frame and accepts if and only if its lengths fit their fields and its checksum is right |
| `RawPacket.RoundTripWith` | kwik/pkg/data/plane.go:1216-1309 | The same for any byte that stands for the flag, with the verdict decided by the checksum alone |
| `RawPacket.CutIsRefused` | kwik/pkg/data/plane.go:1216-1309 | A frame cut short anywhere is refused, with the error for the field it was cut in |
| `RawPacket.LayoutIsFixed` | kwik/pkg/data/plane.go:1155-1213 | Where each field lies: number, data, path and hint after their lengths, flag, timestamp, checksum, with numbers highest byte first and nothing after |
| `RawPacket.DecodedIsEncoding` | kwik/pkg/data/plane.go:1216-1309 | Every input decoded as far as the checksum starts with the encoding of the frame decoded |
| `RawPacket.ReencodeIff` | kwik/pkg/data/plane.go:1155-1309 | Encoding an accepted frame gives back the bytes consumed if and only if the flag byte was 0 or 1 |
| `RawPacket.CorruptedDataIsRejected` | kwik/pkg/data/plane.go:1302-1306 | A valid frame with one data byte changed on the way is rejected with a checksum mismatch |
| `RawPacket.GetPut` | kwik/pkg/data/plane.go:1164-1173 | A number that fits its field is read back from its big-endian bytes |
| `RawPacket.PutGet` | kwik/pkg/data/plane.go:1223-1234 | Any bytes read as a number are written back |
| `RawPacket.RawPacketDataFrame.Serialize` | kwik/pkg/data/plane.go:1155-1213 | Appends the fields in the order and widths of the format; a length too large is truncated as the program truncates it |
| `RawPacket.RawPacketDataFrame.Deserialize` | kwik/pkg/data/plane.go:1216-1309 | Never reads outside the input, reports the first thing missing, and leaves the fields read before it overwritten, exactly as the decoding function says |
| `RawPacket.SelfCheck` | kwik/pkg/data/plane.go:648-665 | The check before sending passes whenever the lengths fit, and passing means the data and checksum survived |
| `MappingKey.KeyIsInjective` | kwik/pkg/data/offset_manager.go:226-226 | Two keys are equal if and only if logical stream, path and real stream are, for every path string |
| `MappingKey.ParseKeyOfKey` | kwik/pkg/data/offset_manager.go:226-226 | First and last colon delimit the path whatever it contains, so a key can be read back |
| `OffsetManager.AllocationsTile` | kwik/pkg/data/offset_manager.go:250-286 | On every real stream, whichever logical streams share it, the ranges allocated are disjoint and make up [0, NextWriteOffset), which equals BytesWritten |
| `OffsetManager.RunKeepsInv` | kwik/pkg/data/offset_manager.go:124-309 | Over every run of register, create, map and expire calls, mappings sit under their own keys and every physical offset known was allocated for it |
| `OffsetManager.AlwaysInverseIff` | kwik/pkg/data/offset_manager.go:124-309 | Over every run, lengths of zero included, the two maps of every mapping are inverse in every state if and only if every call that allocates finds its physical offset unbound in its mapping |
| `OffsetManager.StepKeepsAllInverseIff` | kwik/pkg/data/offset_manager.go:250-286 | The same for one call of any kind; the condition can be looked up with MapPhysicalToLogical before the call |
| `OffsetManager.MapsAreInverse` | kwik/pkg/data/offset_manager.go:250-286 | In particular the maps are inverse after every run whose mapped lengths are positive |
| `OffsetManager.ZeroLengthLosesOffset` | kwik/pkg/data/offset_manager.go:270-279 | After a mapping of length zero the next new offset always takes the same physical offset, and the first is no longer found from it |
| `OffsetManager.MapsBack` | kwik/pkg/data/offset_manager.go:250-309 | While the maps of the mapping are inverse, the physical offset returned maps back to the logical offset, and asking again returns the same |
| `OffsetManager.MapLeavesOthers` | kwik/pkg/data/offset_manager.go:250-286 | A call does not change what is known about any other logical stream, path or real stream |
| `OffsetManager.MappingLivesIff` | kwik/pkg/data/offset_manager.go:209-520 | Over every run a mapping exists exactly from its creation for registered streams to its next expiry, whatever happens to other streams |
| `OffsetManager.MappingIsCreatedIff` | kwik/pkg/data/offset_manager.go:209-246 | Creating succeeds if and only if both streams are registered and have no mapping, which starts empty; each refusal has its own error and changes nothing |
| `OffsetManager.AlwaysRegistered` | kwik/pkg/data/offset_manager.go:124-246 | After every run no stream has identifier zero or an empty path, the numbers of streams are within the configured limits, and every mapping joins registered streams |
| `OffsetManager.RegistrationKeepsLimits` | kwik/pkg/data/offset_manager.go:124-155 | Registering succeeds exactly on a new non-zero identifier while there is room, changes nothing else, and keeps this |
| `OffsetManager.OffsetManager.RegisterLogicalStream` | kwik/pkg/data/offset_manager.go:124-155 | Succeeds exactly on a new non-zero identifier while there is room, and keeps the limits |
| `OffsetManager.OffsetManager.RegisterPhysicalStream` | kwik/pkg/data/offset_manager.go:159-205 | Refuses an empty path, zero, registered and too many streams, otherwise starts at offset 0 |
| `OffsetManager.OffsetManager.CreateOffsetMapping` | kwik/pkg/data/offset_manager.go:209-246 | Needs both streams registered and no mapping yet, and starts with empty maps |
| `OffsetManager.OffsetManager.MapLogicalToPhysical` | kwik/pkg/data/offset_manager.go:250-286 | Returns the offset already bound, or allocates at the end of the real stream; the lookup of the stream cannot fail |
| `OffsetManager.OffsetManager.MapPhysicalToLogical` | kwik/pkg/data/offset_manager.go:289-309 | Looks the offset up in the mapping of exactly these streams |
| `Backpressure.AlwaysBalanced` | kwik/pkg/presentation/backpressure_manager.go:447-503 | In every reachable state, with any interleaving, cleanup and forced change, activations less deactivations are the active streams, the statistics agree with the map and the flag, and the map is within its limit |
| `Backpressure.QuietFlagMeansBelow` | kwik/pkg/presentation/backpressure_manager.go:135-225 | After any interleaving of activations and deactivations, although the lock is released in the middle: when none is half done and the global flag is off, there are no streams or fewer than the threshold's share are active |
| `Backpressure.AlwaysInBandIff` | kwik/pkg/presentation/backpressure_manager.go:178-184 | Over every run, with any interleaving, cleanup and forced change: whenever the flag is on at least four fifths of the threshold's share are active, if and only if every step that switches it on finds that share and no cleanup under an active flag forgets every stream |
| `Backpressure.StepKeepsBandIff` | kwik/pkg/presentation/backpressure_manager.go:178-225 | The same for one step of any kind |
| `Backpressure.SerialFlagMeansBand` | kwik/pkg/presentation/backpressure_manager.go:618-639 | In particular when nothing comes between the halves of an activation |
| `Backpressure.StaleActivation` | kwik/pkg/presentation/backpressure_manager.go:178-184 | The condition can fail, for every threshold up to one: a stream released between the two halves of its own activation leaves the flag on with nothing active |
| `Backpressure.StaleFlagStays` | kwik/pkg/presentation/backpressure_manager.go:191-225 | Such a flag is cleared by no deactivation |
| `Backpressure.FlagAlwaysFollowsIff` | kwik/pkg/presentation/backpressure_manager.go:135-225 | Over every run of activations, deactivations, cleanups and forced changes, an inactive flag with no activation half done means a share below the threshold in every state, if and only if every cleanup and forced release leaves such a share |
| `Backpressure.SafeFlagMeansBelow` | kwik/pkg/presentation/backpressure_manager.go:562-580 | After any run that satisfies this, quiet and with the flag off, there are no streams or fewer than the threshold's share are active |
| `Backpressure.StepKeepsFlagIff` | kwik/pkg/presentation/backpressure_manager.go:135-225 | The same for one step of any kind |
| `Backpressure.CleanupKeepsShareBelowIff` | kwik/pkg/presentation/backpressure_manager.go:690-708 | A cleanup with the flag off leaves a share below the threshold if and only if the active streams are fewer than the threshold's share of those that survive the cutoff |
| `Backpressure.CleanupCanRaiseShare` | kwik/pkg/presentation/backpressure_manager.go:690-708 | So a cleanup that leaves only active streams leaves the flag off with every stream active |
| `Backpressure.CleanupRunFails` | kwik/pkg/presentation/backpressure_manager.go:690-708 | A run from the start that does it, for every threshold above five eighths and up to one |
| `Backpressure.CountActive` | kwik/pkg/presentation/backpressure_manager.go:456-463 | The loop over the map counts exactly the active streams |
| `BackpressureEffects.ActivationEffect` | kwik/pkg/presentation/backpressure_manager.go:135-180 | Which activations are refused and why; any other leaves exactly its stream active, with its reason and time, and counts once |
| `BackpressureEffects.DeactivationEffect` | kwik/pkg/presentation/backpressure_manager.go:191-225 | A deactivation leaves exactly its stream inactive; the global flag goes off exactly when what stays active is less than four fifths of the threshold of all streams |
| `BackpressureEffects.CleanupEffect` | kwik/pkg/presentation/backpressure_manager.go:690-708 | A cleanup forgets exactly the inactive streams last activated before the cutoff and changes nothing else |
| `BackpressureEffects.PeakFromStart` | kwik/pkg/presentation/backpressure_manager.go:447-503 | Over every run the peak is the most streams active at once and the global activations are the times the flag was switched on |
| `Backpressure.BackpressureManager.ShouldActivateGlobalBackpressure` | kwik/pkg/presentation/backpressure_manager.go:562-580 | Decides whether the share of active streams reaches the threshold; never without streams |
| `Backpressure.BackpressureManager.ActivateLocked` | kwik/pkg/presentation/backpressure_manager.go:135-180 | The part under the lock: the refusals, the new flag, the statistics, and whether the global flag will be set |
| `Backpressure.BackpressureManager.DeactivateBackpressure` | kwik/pkg/presentation/backpressure_manager.go:191-225 | Clears an active stream, counts it, and releases the global flag when the share falls below four fifths of the threshold |
| `Backpressure.BackpressureManager.CleanupInactiveStreams` | kwik/pkg/presentation/backpressure_manager.go:690-708 | Removes exactly the inactive streams last activated before the cutoff |

## Left out

- FlowSequencer.Flow: the list of sequence gaps, priorities, quality-of-service statistics and the flow table; one flow is modelled.
- FlowSequencer.FlowBuffer.Write: the capacity of the buffer counts bytes already read until they are reclaimed, as in the code.
- Reordering.ReorderingContext.ProcessIncomingFrame: the method is one caller at a time; callers and workers that interleave are the steps of ConcurrentReordering. Stream limits, path statistics and priorities.
- Reordering.ReorderingContext.ReassembleStreamData: the gap list is a field that no modelled call changes; and nothing in the program calls the method that adds one.
- GapFilling.ReassemblyState.FillGap: AddGap and attemptGapFilling, which appends data out of position and which no task queues.
- ClientAggregator.AggregatedStream.ProcessAggregatedFrames: unordered mode and FlushReorderBuffer, which can deliver stale frames again.
- OffsetCoordinator.StreamOffsetState.RegisterDataReceived: a size that is not positive can leave an empty or reversed entry in the list; what the list covers is then still exact (RegisterAlwaysLists), but the list is canonical only for positive sizes.
- OffsetCoordinator.StreamOffsetState.MergeReceivedRanges: the sort of the library is modelled as an insertion sort, and the theorems hold for any sorted permutation.
- OffsetTracker.BitmapTracker.GetGaps: the query of each offset takes the lock again; one caller at a time is modelled. A window of size zero is not modelled.
- AckManager.PathAckState.ProcessReceivedAck: a range that ends at 2^64 - 1 is excluded, because the loop over it never ends (RangeLoopEndsIff). Round-trip times are an input.
- AckManager.AckRoundTrip: packet number 2^64 - 1 is excluded where the frame is batched, for the same reason.
- Congestion.CongestionState.ProcessAck: the estimate of round-trip time and throughput; the configuration must have Max >= 2 * Min > 0 and Min <= Initial <= Max.
- LossDetector.LossDetectionState.DetectLoss: the order of the packets reported, which follows an unspecified map order; false-positive counts; the thresholds of the configuration.
- AckScheduler.Scheduler.ProcessScheduledAcks: the heap is any choice of an element that no other precedes; the minimum delay must be positive, as RescheduleMakesProgressIff shows; scheduling weights.
- AckScheduler.Scheduler.ScheduleAck: the method tests and pushes in one step; the two apart, and the locks of all calls, are the steps of AckRegistration, which take the answer of the rate limit as an input and leave out the order of the queue.
- Retransmission.RunKeepsInv: segment identifiers are fresh; Stop, UnregisterPath and periodic cleanup; average times; the check that the manager is running. Absence of deadlock holds exactly as long as no acknowledgement meets a drop of its segment (ProgressOrCrossed, CrossedForever).
- RawPacket.SelfCheck: the write to the stream and the statistics around it.
- OffsetManager.OffsetManager.MapLogicalToPhysical: the nested table of real streams is one map from path and stream; 64-bit offsets do not wrap; fragment tables and timestamps.
- Backpressure.BackpressureManager.DeactivateBackpressure: callbacks, durations, rates and the breakdown by reason; divisions are exact where the program rounds.
- The ACK coordinator, whose drain loop has no argument for ending, and the gap list of the offset manager, whose next read offset has no clean meaning.
- The other reorder buffers (aggregator.go, secondary_aggregator.go), packet numbering, load balancing, the dead-path handler, path scoring, sessions and control messages.
