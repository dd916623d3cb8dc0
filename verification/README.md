# Verification of the Elum Transport Protocol core

A Dafny model of the reliable chunked-transfer engine of the Elum Transport Protocol and of the
components it stands on, with proofs about every run of them. `dafny verify dfyconfig.toml` checks
the whole project.

How the parts fit together:

- **One transfer, end to end.** `Chunks` is the chunk arithmetic. `Sending` and `Receiving` are the
  two sides as functions on values, one per locked section of the code; `Outgoing` and `Incoming`
  are the objects the code updates in place, each method proved equal to its function. `Protocol`
  joins both sides with a network that keeps every frame ever sent and may deliver any of them at
  any time, so frames are lost, repeated and reordered at will. `Progress` shows that a transfer can
  be completed from every state in which neither side has given up, and from no other. `InOrder`
  adds what holds when acknowledgements arrive in order, and `StaleAck` is a run in which an honest
  acknowledgement is rejected.
- **Retransmission and flow control.** `Repeats` says which frames a nack and a timeout scan put on
  the wire again, `Transmissions` how often each frame goes out, and `PeerWindow` how much is sent
  into the window the peer announced.
- **The retransmission monitor** (`Monitor`): loads, compare-and-swaps, wake posts, timer expiry
  and scans as single steps in any interleaving. `MonitoredTransfers` runs it together with the
  senders of `Sending` and a clock that does not go back. `MonitorProgress` and `MonitoredProgress`
  show that it never gets stuck and that every overdue chunk can be repeated.
- **The session writer**: `RingQueue` (ring buffer), `Schedule` (weighted priorities),
  `SessionWriter` (what the lock protects), `Delivery` (what it owes its callers) and `WriterObject`
  (the object over its ring buffers).
- **Many incoming transfers**: `Opening` (the open-with-timeout rendezvous and its slots) and
  `ReceiveBudget` (the shared byte budget and its compare-and-swap loops), each with a module about
  outcomes and progress: `OpeningProgress` and `ReceiveProgress`.
- **The codecs**: `Wire` (cells, records, counted lists), `Buffers` (encoding in place),
  `PayloadCodec` and `PayloadBuffers` (`TransferBegin`, parts, fields), `FrameCodec` (frames and the
  event fast path). `WireFormat` writes the formats out as plain bytes. `BeginAgreement` composes the
  codecs with the limits exchanged in the Hello.
- **Supporting cores**: `AuthHistory`, `RateLimit`, `Patterns` and `Router`.

What the results assume:

- The network does not alter frames, and the peer in a `Protocol` run is the modelled receiver.
  The results of `Sending` hold against any peer.
- A chunk is registered and sent in one step; the network may delay it. `TransferEnd` follows the
  last chunk at once, as in the code; RFC.md:421 asks for it after the acknowledgements.
- An acknowledgement carries the counters of the moment it is sent. Only `InOrder` depends on it.
- A resumed transfer of a `Protocol` run starts at a boundary both sides agreed on. In `Sending` a
  resume decision may arrive at any time with any counters.
- Retransmitted frames go out with the pass that picked them. The code checks once more before
  sending and may send fewer.
- Sums of lengths held in memory stay below 2^64. The timer's floor of one millisecond and the
  stopping of the monitor are not modelled; deadlines are positive instants.
- `HandleFrame` runs frame by frame for the codec and limiter results; `AuthHistory`, `Opening`,
  `ReceiveBudget` and `Monitor` allow any interleaving.

Where a promised property does not hold of the code, the model keeps the code. One lemma gives the
exact condition and another an input or a run at which the property fails:

| property | holds exactly if | fails at |
|---|---|---|
| the window clamp respects the peer's limit | `Sending.ClampRespectsPeerIff` | `Sending.ClampCounterexample` |
| the sender's accounting, against any peer | `Sending.AccountingIff` | `Sending.ResumeAcceptedCounterexample` |
| an honest acknowledgement is accepted | `Protocol.HonestAckAcceptedIff` | `StaleAck.StaleAckCounterexample` |
| the last chunk fits its size | `Chunks.LastChunkFitsIffNotSaturated` | `Chunks.SaturationCounterexample` |
| a writer returned with an error is aborted | `Opening.WriterWithErrorDisposedIff` | `Opening.LeakedWriterCounterexample` |
| decoding and encoding again gives the same bytes | `PayloadCodec.BeginCanonicalIff` | `PayloadCodec.BeginCanonicalCounterexample` |
| a normalised Hello is accepted | `BeginAgreement.HelloAcceptedIff` | `BeginAgreement.HelloRefusedCounterexample` |
| normalising twice is normalising once | `BeginAgreement.NormalizeIdempotentIff` | `BeginAgreement.NormalizeIdempotentCounterexample` |
| a trusted session was authenticated | `AuthHistory.SafeIff` | `AuthHistory.HandSentAckCounterexample`, `AuthHistory.HandledAckCounterexample` |
| a group's wildcard covers its routes | `Patterns.WildcardCoversIff` | `Patterns.WildcardCounterexample` |

## Model

| member | source | states |
|---|---|---|
| `Protocol.SinkIsSourcePrefix` | internal/etp/incoming.go:877-1018 | under any loss, duplication, reordering and scheduling the sink is a prefix of the source, and for an unfailed receiver exactly the prefix ending at the offset of its next chunk |
| `Protocol.SuccessMeansCommitted` | internal/etp/session.go:2645-2664 | the sender returns success only if the receiver committed exactly the whole source |
| `Progress.AlwaysCompletable` | internal/etp/session.go:1672-1800 | from every reachable state in which neither side has given up and both have room for one chunk, some continuation ends with the sender's success and exactly the source committed |
| `Progress.CompletableIff` | internal/etp/session.go:2645-2664 | such a transfer can be completed exactly if neither side has given up |
| `Progress.GivingUp` | internal/etp/session.go:2721-2727 | what makes either side give up: local failures, a reported failure, a fatal nack, an unacceptable acknowledgement, cancellation, an aborted commit |
| `Progress.WindsDown` | internal/etp/incoming.go:942-966 | once no more data is taken the writer goroutine can empty its queue and stop, failed or not |
| `Protocol.UnackedChunksRetained` | internal/etp/session.go:2416-2423 | every chunk sent but not acknowledged is in the window at its place with its bytes |
| `Protocol.SandwichInEveryRun` | internal/etp/session.go:2666-2711 | acked <= written <= accepted <= sent in every reachable state; the window holds as many chunks as lie between acked and sent, and acked is the only chunk boundary the byte counter can stand for |
| `Protocol.QueueNeverFull` | internal/etp/incoming.go:926-939 | with the window clamped to the peer's queue, the queue has room for every chunk that arrives in order |
| `Protocol.FramesTruthful` | internal/etp/incoming.go:895-939 | every frame ever sent is truthful: source bytes, acks of written chunks on boundaries, missing ranges with from <= to, completion only after the commit |
| `Protocol.StepInv` | internal/etp/session.go:1672-1800 | every step of either side, of the writer goroutine and of the network keeps the joint invariant |
| `Protocol.HonestAckAcceptedIff` | internal/etp/session.go:2666-2711 | an honest acknowledgement is accepted exactly if it is not older than one already seen, and then moves the window to its chunk |
| `StaleAck.StaleAckCounterexample` | internal/etp/session.go:2671-2674 | a run of two chunks after which the first of two honest acknowledgements, still deliverable, is rejected |
| `InOrder.InOrderAcksNeverRejected` | internal/etp/session.go:2671-2710 | acknowledgements of an honest receiver delivered in order are never rejected |
| `Transmissions.EachFrameSentBoundedly` | internal/etp/session.go:2536-2636 | across timeouts and nacks every chunk and the end frame go out at most 1 + retryLimit times |
| `Transmissions.RetriesAreRepeats` | internal/etp/session.go:2551-2600 | as long as the sender has not failed, every chunk in the window went out exactly 1 + retries times, the end frame exactly 1 + commitRetries times once it is out, and nothing beyond |
| `Repeats.ScanRepeats` | internal/etp/session.go:2544-2602 | a scan of a live transfer fails it exactly if an expired chunk or commit has no retry left, and otherwise repeats the end frame exactly if its answer is overdue and a chunk, in window order, exactly if its acknowledgement is, charging one retry each |
| `Repeats.ScanLeavesAlone` | internal/etp/session.go:2546-2549 | a failed or finished transfer is left alone |
| `Repeats.NackRepeats` | internal/etp/session.go:2734-2760 | a nack for missing chunks repeats exactly the chunks of the window with the named ids, in order and unchanged, charging one retry each, or fails exactly if one of them has none left |
| `Repeats.OtherNacks` | internal/etp/session.go:2713-2733 | other nacks repeat nothing: flow control closes the window, any other reason ends the transfer, a reversed range is an error |
| `Repeats.NackAnswered` | internal/etp/session.go:2734-2760 | in a run, a nack that does not fail the sender appends exactly the data frames of the named chunks that were sent and are not yet acknowledged |
| `Repeats.GapRepaired` | internal/etp/incoming.go:904-908 | both sides together: a chunk skipped by a data frame goes out again when the answer to that frame arrives, unless acknowledged meanwhile or the sender gives up |
| `Repeats.GivesUpOnlyExhausted` | internal/etp/session.go:2554-2589 | a scan or a nack makes a live sender give up exactly if something it would repeat has no retry left |
| `PeerWindow.PeerWindowRespected` | internal/etp/session.go:2399-2427 | between a window of so many chunks and bytes and the next message about it at most that many chunks and bytes go out |
| `PeerWindow.WindowSpent` | internal/etp/session.go:2424-2427 | what was sent under a window and what is left of it add up to the window |
| `PeerWindow.SilentAfterPause` | internal/etp/session.go:2728-2733 | after a flow-control nack nothing new goes out before a new window arrives |
| `PeerWindow.SilentBeforeFirstWindow` | internal/etp/session.go:2399-2402 | with flow control negotiated nothing goes out before the first window |
| `Sending.AccountingInEveryRun` | internal/etp/session.go:2399-2427 | pendingBytes is the sum of the window, acked plus pending equals the bytes put in flight, and the window and retry limits hold, as long as every operation was harmless |
| `Sending.AccountingIff` | internal/etp/incoming.go:1536-1554 | against a peer that may send anything at any time the accounting holds throughout a run exactly if no valid resume decision with another counter met a transfer under way |
| `Sending.AccountingStepIff` | internal/etp/session.go:2666-2761 | whatever arrives, one operation keeps the accounting exactly if it is harmless |
| `Sending.PositionInEveryRun` | internal/etp/session.go:1672-1770 | against any peer the sending loop always stands at the start of a chunk |
| `Sending.CountersAck` | internal/etp/session.go:2666-2711 | any acknowledgement keeps the counters consistent, an accepted one states exactly the acknowledged bytes, and one that names no chunk of the window changes nothing |
| `Sending.CompletedByVerdict` | internal/etp/incoming.go:1505-1520 | a transfer is completed exactly from the verdict with the counters of the whole transfer on, and a verdict with others fails it |
| `Sending.ResumeDecides` | internal/etp/incoming.go:1536-1554 | a resume decision is taken exactly if its counters are a chunk boundary; the first one starts the loop there |
| `Sending.TransmissionsBounded` | internal/etp/session.go:2734-2752 | against any peer a whole run sends at most (chunks left + 1) * (retryLimit + 1) data and end frames, first ones and repeats together |
| `Sending.ScanMakesProgress` | internal/etp/session.go:2551-2600 | a scan that finds something expired fails the transfer or strictly decreases the remaining retries |
| `Sending.ScanMovesDeadlines` | internal/etp/session.go:2561-2598 | after a scan every deadline of an unfailed transfer lies in the future |
| `Sending.DeadlinesOnlyMoveOn` | internal/etp/session.go:2518-2534 | with a clock that does not go back nothing that arrives and no scan gives a transfer an earlier deadline than it had |
| `Sending.ClockedStep` | internal/etp/session.go:2416-2423 | recorded instants never lie in the future |
| `Sending.ClampRespectsPeerIff` | internal/etp/session.go:2273-2279 | the window clamp respects the peer's limit exactly if the request does not hide its size in 32 bits |
| `Sending.ClampCounterexample` | internal/etp/session.go:2277-2279 | a request of 2^32 chunks passes the clamp |
| `Sending.ResumeAcceptedKeepsAccountingIff` | internal/etp/incoming.go:1540-1551 | a resume decision keeps the accounting exactly if sending has not started or it repeats the present counter |
| `Sending.ResumeRewinds` | internal/etp/incoming.go:1540-1551 | a decision for chunk 0 breaks the accounting of every transfer under way with acknowledged bytes |
| `Sending.ResumeAcceptedCounterexample` | internal/etp/incoming.go:1540-1551 | such a transfer: its only byte sent and acknowledged |
| `Outgoing.OutgoingTransfer.constructor` | internal/etp/session.go:2287-2312 | whatever is announced, a registered transfer starts empty with consistent counters; with a well-formed chunk layout the accounting holds |
| `Outgoing.OutgoingTransfer.Append` | internal/etp/session.go:2416-2421 | appends to the window, in the same backing array or a larger one |
| `Outgoing.OutgoingTransfer.TrySend` | internal/etp/session.go:2399-2428 | sends exactly if the window has room, without underflow of the peer's window, keeps the position and, if it held, the accounting |
| `Outgoing.OutgoingTransfer.Compact` | internal/etp/session.go:2675-2693 | with reads and writes in one backing array the pass keeps exactly the chunks outside the range, in order, and moves the bytes of the others |
| `Outgoing.OutgoingTransfer.HandleAck` | internal/etp/session.go:2666-2711 | refines the acknowledgement function, errors included |
| `Outgoing.OutgoingTransfer.RetryPicked` | internal/etp/session.go:2735-2752 | bumps and repeats the picked chunks up to the first one without retries left, and fails there |
| `Outgoing.OutgoingTransfer.HandleNack` | internal/etp/session.go:2713-2761 | refines the nack function for missing ranges, flow control and fatal reasons |
| `Outgoing.OutgoingTransfer.NextDeadline` | internal/etp/session.go:2518-2534 | returns the earliest live deadline, and none exactly if there is none |
| `Outgoing.OutgoingTransfer.RetryCommit` | internal/etp/session.go:2551-2567 | repeats an expired commit or fails after the last retry |
| `Outgoing.OutgoingTransfer.ScanTimeouts` | internal/etp/session.go:2544-2602 | one transfer's share of the timeout scan |
| `Outgoing.ProcessOutgoingTimeouts` | internal/etp/session.go:2536-2636 | scans every transfer and repeats exactly the frames of those scans; the returned delay is positive and no later than any live deadline, and absent only if there is none |
| `Outgoing.ScanOne` | internal/etp/session.go:2544-2602 | scans one of several transfers that share nothing, leaves the others alone, and returns its frames to repeat |
| `Receiving.DataExact` | internal/etp/incoming.go:877-940 | a data frame is accepted only in order with the demanded length, keeps the receiver exact and is answered truthfully; a gap is answered with exactly the chunks it consists of, and nothing else is asked for |
| `Receiving.DataAnswers` | internal/etp/incoming.go:877-940 | the next chunk is taken exactly if budget and queue have room and paused otherwise, one already written is acknowledged with the counters of now, one on its way passed over; a failed receiver is silent, one that takes no more data refuses |
| `Receiving.WrongDataRefused` | internal/etp/incoming.go:910-920 | the next chunk with any other length than its place in the source has, or past the end, is refused for good |
| `Receiving.WriteExact` | internal/etp/incoming.go:968-985 | a full, short or failed write keeps the sink a prefix of the source; a short or failed one ends the transfer and names the chunk to the sender |
| `Receiving.CountExact` | internal/etp/incoming.go:986-1008 | a written chunk is counted and acknowledged with all before it on a boundary, unless the transfer failed meanwhile |
| `Receiving.EndExact` | internal/etp/incoming.go:1135-1169 | an early end frame is answered with exactly the chunks not yet accepted; with all accepted it closes the queue for the commit |
| `Receiving.EndAgain` | internal/etp/incoming.go:1135-1169 | a repeated end frame gets no answer while the first is dealt with, then the remembered verdict, and a forgotten transfer is refused |
| `Receiving.FinishExact` | internal/etp/incoming.go:1182-1267 | the commit is reached only with the whole source in the sink and happens exactly if the receiver did not fail, the checksum is the source's and closing succeeds; either way the sender is told |
| `Receiving.CommitGuarded` | internal/etp/incoming.go:1182-1267 | whatever a receiver went through, it commits exactly if it did not fail, got the announced bytes, found the announced checksum and closed its writer |
| `Incoming.IncomingTransfer.constructor` | internal/etp/incoming.go:54-74 | the queue holds at least one chunk; with a well-formed chunk layout the new transfer is exact for every source of the announced length |
| `Incoming.IncomingTransfer.HandleData` | internal/etp/incoming.go:877-940 | refines the data function, saturated chunk counts and 64-bit wrap-around included |
| `Incoming.IncomingTransfer.CountChunk` | internal/etp/incoming.go:986-1008 | refines the counting function |
| `Incoming.IncomingTransfer.HandleEnd` | internal/etp/incoming.go:1135-1169 | refines the end function up to its wait, repeated and unknown ends included |
| `Chunks.WellFormedIff` | internal/etp/incoming.go:1781-1790 | the computed count is the least that holds the source exactly if it does not saturate |
| `Chunks.OffsetStep` | internal/etp/incoming.go:904-919 | consecutive offsets differ by exactly the length the receiver demands, which no cast cuts and the sender reads |
| `Chunks.OffsetMonotone` | internal/etp/incoming.go:1792-1808 | offsets are strictly increasing and end at the total |
| `Chunks.OffsetInjective` | internal/etp/incoming.go:1792-1808 | a byte counter determines the chunk boundary it stands for |
| `Chunks.OffsetIsTransferOffset` | internal/etp/incoming.go:1792-1808 | the offset function gives the start of every chunk up to the count and of no other |
| `Chunks.DemandedBytesIsOffset` | internal/etp/incoming.go:913-916 | the demanded lengths add up to the total without a gap |
| `Chunks.LastChunkFitsIffNotSaturated` | internal/etp/incoming.go:1785-1789 | the last chunk fits its size exactly if the count does not saturate |
| `Chunks.SaturationCounterexample` | internal/etp/incoming.go:1785-1789 | 2^32 chunks of one byte: the count stops one short and the last chunk is left with two bytes |
| `Monitor.NoLostTimer` | internal/etp/session.go:2449-2516 | a blocked sender with a deadline always has a timer armed no later, a wake pending or about to be posted, or a scan or reschedule to come |
| `Monitor.QuiescentTimerArmed` | internal/etp/session.go:2475-2516 | when only time can move, the timer is armed no later than every deadline |
| `Monitor.StepInv` | internal/etp/session.go:2449-2534 | every atomic step keeps the coverage invariant |
| `MonitoredTransfers.NoLostDeadline` | internal/etp/session.go:2449-2636 | no lost timer for the transfers themselves: in every interleaving of senders, arriving frames, scheduling code and monitor a blocked sender with a live deadline is looked after |
| `MonitoredTransfers.StepInv` | internal/etp/session.go:2449-2636 | every step of a sender, of the clock, of what arrives and of the monitor keeps the joint invariant |
| `MonitoredTransfers.DueNotEarlier` | internal/etp/session.go:2518-2534 | what happens to a transfer outside its own goroutine never brings forward the instant it needs the monitor |
| `MonitoredProgress.OverdueChunkRepeated` | internal/etp/session.go:2475-2636 | in every reachable state of senders, scheduling code and monitor, every unacknowledged chunk of a waiting sender can be brought to a scan that repeats it or gives up for want of retries |
| `MonitorProgress.ComesToRest` | internal/etp/session.go:2449-2516 | from every reachable state all callers get through and the monitor comes to rest with its timer armed no later than any deadline waited for |
| `MonitorProgress.DeadlineGetsScanned` | internal/etp/session.go:2475-2516 | the deadline of every waiting thread can be brought to a scan |
| `MonitorProgress.CallerGetsThrough` | internal/etp/session.go:2449-2467 | the compare-and-swap loop ends: a caller ends up waiting for the deadline it called with |
| `MonitorProgress.FiresAreArmed` | internal/etp/session.go:2488-2512 | the timer fires at most once for each time it was armed |
| `MonitorProgress.OthersDeadlinesStay` | internal/etp/session.go:2488-2510 | a wake without a deadline leaves the timer alone, and a timer clears the cell only of its own deadline |
| `RingQueue.SendItemQueue.Grow` | internal/etp/writer.go:37-52 | growing the ring keeps its contents |
| `RingQueue.SendItemQueue.Push` | internal/etp/writer.go:37-52 | the growing ring buffer appends to a sequence |
| `RingQueue.SendItemQueue.Pop` | internal/etp/writer.go:54-66 | it removes the first element, and fails exactly if empty |
| `Schedule.PopSucceedsIff` | internal/etp/writer.go:271-288 | a pop succeeds exactly if some queue is not empty |
| `Delivery.WeightedShare` | internal/etp/writer.go:87-94 | in every run of the writer, over any stretch with 16 pops a priority that always waits is served at least 8, 4, 2, 1 and 1 times, whatever is submitted meanwhile |
| `Schedule.AnyRound` | internal/etp/writer.go:87-94 | each priority owns exactly its weight of any 16 consecutive slots |
| `SessionWriter.EveryFrameReleasedOnce` | internal/etp/writer.go:310-329 | every submitted frame, accepted or refused, is released at most once, and exactly once when the writer is idle, across writes, failures and both ways of closing |
| `SessionWriter.WireOrder` | internal/etp/writer.go:160-164 | frames of one priority reach the wire in the order in which they were accepted |
| `SessionWriter.OnlyControlAfterClosing` | internal/etp/writer.go:118-173 | after closing has begun only critical control frames are popped |
| `SessionWriter.BoundedAndLive` | internal/etp/writer.go:290-298 | queue contents stay within both limits, and a pop succeeds exactly if something is queued |
| `SessionWriter.StepInv` | internal/etp/writer.go:106-253 | every locked section keeps counters, conservation, order and closing rules |
| `Delivery.EnqueueDecides` | internal/etp/writer.go:106-165 | a frame is queued exactly if there is room and it is not barred by closing, turned away exactly if barred, closed out or given up, and waits otherwise |
| `Delivery.NothingDropped` | internal/etp/writer.go:122-165 | as long as nobody closes, no write fails and no caller gives up, no frame is disposed of without being written |
| `Delivery.EverythingGetsWritten` | internal/etp/writer.go:209-253 | from every state of such a run popping and writing puts exactly the submitted frames on the wire |
| `Delivery.NobodyIsBlocked` | internal/etp/writer.go:106-253 | callers and the closing side can act in every reachable state, the goroutine exactly when it has something to do |
| `Delivery.ClosedForGood` | internal/etp/writer.go:198-207 | after close nothing is queued and nothing reaches the wire but the frame being written |
| `Delivery.ClosingForGood` | internal/etp/writer.go:167-173 | after closing has begun only critical control frames are queued |
| `WriterObject.FrameWriter.Decide` | internal/etp/writer.go:118-159 | the tests of enqueue give the modelled outcome |
| `WriterObject.FrameWriter.constructor` | internal/etp/writer.go:96-104 | a new writer has five empty rings that share nothing |
| `WriterObject.FrameWriter.TryEnqueue` | internal/etp/writer.go:106-165 | over five ring buffers, refines enqueue between two waits |
| `WriterObject.FrameWriter.PushAt` | internal/etp/writer.go:160-164 | pushes to one ring, growing it if full, and leaves what the others hold |
| `WriterObject.FrameWriter.PopAt` | internal/etp/writer.go:277-281 | pops one ring and leaves what the others hold |
| `WriterObject.FrameWriter.FindNext` | internal/etp/writer.go:271-288 | the loop around the schedule finds what the schedule prescribes |
| `WriterObject.FrameWriter.PopLocked` | internal/etp/writer.go:271-288 | over the ring buffers, with the frame counter decremented as in the code, refines the pop |
| `WriterObject.FrameWriter.ReleaseAll` | internal/etp/writer.go:310-320 | the nested loops over the rings release every queued frame, priority by priority |
| `WriterObject.FrameWriter.ReleaseOne` | internal/etp/writer.go:310-320 | empties one ring in order |
| `WriterObject.FrameWriter.StartClosing` | internal/etp/writer.go:167-173 | refines the start of closing |
| `WriterObject.FrameWriter.Shut` | internal/etp/writer.go:198-207 | refines close, which acts once |
| `WriterObject.FrameWriter.WriteReturned` | internal/etp/writer.go:231-252 | refines the end of a write, failed or not |
| `Opening.SlotsNeverExceeded` | internal/etp/incoming.go:757-781 | opening plus incoming transfers never exceed the maximum and share no id |
| `Opening.RunningCallbackKeepsSlot` | internal/etp/incoming.go:807-833 | a running callback keeps its slot after its opener timed out, and its id cannot be reused |
| `Opening.NoSlotLeaks` | internal/etp/incoming.go:871-875 | when every attempt is over no slot is left |
| `Opening.WriterDisposedOnce` | internal/etp/incoming.go:799-869 | a writer returned without error is installed or aborted, exactly once, in every interleaving of return, timeout and delivery |
| `Opening.WriterWithErrorDisposedIff` | internal/etp/incoming.go:834-839 | a writer returned with an error is aborted exactly if it belongs to a resume or the context ended first |
| `Opening.LeakedWriterCounterexample` | internal/etp/incoming.go:834-839 | a run in which a begin returns a writer and an error in time: the attempt ends and the writer was neither installed nor aborted |
| `Opening.IncomingHasWriter` | internal/etp/incoming.go:852-861 | every transfer that receives data has an installed writer that was not aborted |
| `Opening.SessionTransfers.ReserveBegin` | internal/etp/incoming.go:757-781 | reserves a slot exactly if the id is new and increasing and a slot is free |
| `Opening.SessionTransfers.ReserveResume` | internal/etp/incoming.go:1291-1308 | reserves a slot exactly if the id is unused and a slot is free |
| `Opening.SessionTransfers.InstallBegin` | internal/etp/incoming.go:852-861 | moves the slot to the incoming map only while the session runs |
| `Opening.SessionTransfers.InstallResume` | internal/etp/incoming.go:1399-1406 | moves the slot and raises the last id |
| `OpeningProgress.AdmittedIff` | internal/etp/incoming.go:757-781 | a transfer is admitted exactly if its id is not in use, a slot is free and, for a begin, the id is higher than every one begun or resumed before |
| `OpeningProgress.BegunIdsIncrease` | RFC.md:331-331 | ids of begins strictly increase, so none is begun twice |
| `OpeningProgress.DecidedBy` | internal/etp/incoming.go:826-861 | a writer is installed exactly if it came in time, without an error and, for a resume, with a valid acceptance; which others are aborted |
| `OpeningProgress.InstalledBy` | internal/etp/incoming.go:852-861 | installing moves the slot to the incoming transfers; only a begin that finds the session stopped loses it |
| `OpeningProgress.StoppedUntilRestarted` | internal/etp/incoming.go:852-861 | nothing but the session itself changes whether it runs |
| `OpeningProgress.GoodAttemptInstalled` | internal/etp/incoming.go:757-875 | an admitted transfer whose callback returns a writer in time is installed under its id |
| `OpeningProgress.EverySlotComesBack` | internal/etp/incoming.go:807-875 | from every reachable state all attempts can be brought to an end and every slot freed |
| `OpeningProgress.RemovedAlone` | internal/etp/incoming.go:1629-1634 | removing one transfer frees its slot and leaves the others |
| `ReceiveBudget.BudgetExact` | internal/etp/incoming.go:1059-1083 | the counter always equals what all transfers hold and never exceeds the limit |
| `ReceiveBudget.ReturnsAreExact` | internal/etp/incoming.go:1072-1083 | the saturating subtraction never loses bytes |
| `ReceiveBudget.FramesReleasedOnce` | internal/etp/incoming.go:942-1018 | no retained frame is released twice, and all are released once the transfer's goroutine has stopped, on every path |
| `ReceiveBudget.NothingSentOnClosedQueue` | internal/etp/incoming.go:926-940 | nothing is sent on a closed queue and no queue is closed twice |
| `ReceiveBudget.BudgetReturned` | internal/etp/incoming.go:1054-1057 | with every transfer at rest the whole budget is available again |
| `ReceiveBudget.StepInv` | internal/etp/incoming.go:921-1083 | every atomic action of every goroutine keeps the budget invariant |
| `ReceiveProgress.RefusedIff` | internal/etp/incoming.go:1059-1070 | a reservation is refused exactly if it would not fit |
| `ReceiveProgress.ChunkRefused` | internal/etp/incoming.go:921-925 | a chunk that does not fit leaves no trace |
| `ReceiveProgress.ChunkHandled` | internal/etp/incoming.go:921-940 | one that fits is queued with its bytes taken, or with a full queue released with its bytes back |
| `ReceiveProgress.ChunkWritten` | internal/etp/incoming.go:942-1018 | the oldest chunk is written unless the transfer failed, counted only after a good write, and in any case released with its bytes back |
| `ReceiveProgress.EverythingComesBack` | internal/etp/incoming.go:921-1083 | from every reachable state all transfers can finish, and then every retained frame has been released and the whole budget is back |
| `ReceiveProgress.TakesData` | internal/etp/incoming.go:885-894 | a new transfer takes data, a failed or closed one none |
| `Wire.ReadWrittenRecord` | internal/etp/payload.go:1006-1075 | reading a written record of any layout gives it back |
| `Wire.WrittenRecordRead` | internal/etp/payload.go:1006-1075 | whatever was read as a record is what writing it produces |
| `Wire.ReadWrittenCounted` | internal/etp/payload.go:1116-1170 | a counted list reads back exactly if its length is admitted |
| `Wire.WrittenCountedRead` | internal/etp/payload.go:202-244 | whatever was read as a counted list is what writing it produces |
| `Wire.CheckedEnd` | internal/etp/payload.go:1337-1342 | a range is accepted exactly if it lies in the payload |
| `PayloadCodec.BeginRoundTrip` | internal/etp/payload.go:968-1075 | decoding inverts encoding for every value within the size limit and at most 1024 parts and fields, and rejects every other encoding |
| `PayloadCodec.BeginCanonicalIff` | internal/etp/payload.go:1006-1075 | a decoded payload re-encodes to itself exactly if it does not spell out an empty field list |
| `PayloadCodec.ExplicitEmptyFields` | internal/etp/payload.go:202-244 | every announcement without fields has a second spelling, with an explicit zero count, that decodes to it |
| `PayloadCodec.BeginCanonicalCounterexample` | internal/etp/payload.go:202-244 | such a payload |
| `PayloadCodec.BeginLength` | internal/etp/payload.go:1089-1091 | the size computed beforehand is the number of bytes written |
| `PayloadCodec.FieldsCanonical` | internal/etp/payload.go:202-244 | decoded fields re-encode to themselves unless the block is a bare zero count |
| `PayloadCodec.TransferPartsPayloadSize` | internal/etp/payload.go:1081-1087 | the loop computes the size of the part list |
| `PayloadCodec.TransferFieldsPayloadSize` | internal/etp/payload.go:171-180 | the loop computes the size of the field list, zero for none |
| `PayloadBuffers.EncodeTransferPartsInto` | internal/etp/payload.go:1093-1114 | writes exactly the part list at its place and changes nothing else |
| `PayloadBuffers.EncodeTransferFieldsInto` | internal/etp/payload.go:182-200 | writes exactly the field list at its place and changes nothing else |
| `PayloadBuffers.EncodeTransferBeginInto` | internal/etp/payload.go:968-1004 | whatever the reused buffer held the result is the encoding; a large enough buffer is changed nowhere else |
| `PayloadBuffers.DecodeTransferParts` | internal/etp/payload.go:1116-1170 | the loop refines the part decoder |
| `PayloadBuffers.DecodeTransferFields` | internal/etp/payload.go:202-244 | the loop refines the field decoder |
| `PayloadBuffers.DecodeTransferBegin` | internal/etp/payload.go:1006-1075 | refines the decoder |
| `Buffers.Resize` | internal/etp/frame.go:307-311 | a slice is reused in place exactly if its capacity suffices |
| `FrameCodec.FrameRoundTrip` | internal/etp/frame.go:291-329 | decoding an encoded frame gives it back with the four fixed header fields filled in |
| `FrameCodec.FrameCanonical` | internal/etp/frame.go:371-445 | every accepted byte string is the encoding of what it decodes to |
| `FrameCodec.HeaderOffsets` | RFC.md:56-70 | every header field stands at the position the wire format fixes |
| `FrameCodec.EncodeFrameHeaderInto` | internal/etp/frame.go:331-349 | writes exactly the header |
| `FrameCodec.EncodeFrameInto` | internal/etp/frame.go:291-329 | whatever the reused buffer held the result is the encoding, and it fails exactly if the frame is invalid |
| `FrameCodec.EventRoundTrip` | internal/etp/payload.go:308-347 | decoding an event message inverts encoding up to 1024 fields |
| `FrameCodec.EncodeEventInto` | internal/etp/payload.go:308-322 | encodes in place if the capacity allows it |
| `FrameCodec.EventFrameInTwoSteps` | internal/etp/session.go:1177-1186 | payload first, then a frame around it |
| `FrameCodec.EventFrameInPlace` | internal/etp/session.go:1150-1165 | the fast path emits the bytes of the frame that encodes the payload |
| `WireFormat.MostSignificantFirst` | internal/etp/payload.go:981-985 | integers are big-endian |
| `WireFormat.BeginFormat` | RFC.md:339-375 | TransferBegin on the wire: the fields in their order, with part and field blocks |
| `WireFormat.EventFormat` | internal/etp/payload.go:308-322 | an event message on the wire: name, data, fields |
| `WireFormat.HeaderFormat` | RFC.md:56-70 | a header on the wire: its thirteen fields in their order |
| `WireFormat.EventFrameFormat` | internal/etp/session.go:1157-1164 | an event frame on the wire with every header value |
| `WireFormat.FrameAcceptedIff` | internal/etp/frame.go:371-445 | bytes are a frame exactly if their header has known values and says how many bytes follow |
| `BeginAgreement.BeginAgreed` | internal/etp/session.go:1601-1670 | what the sender normalised and accepted, the receiver accepts from the bytes as exactly the announced transfer, with a well-formed chunk layout |
| `BeginAgreement.AnnouncementAcceptedIff` | internal/etp/incoming.go:700-751 | the receiver takes an announcement exactly if it is acceptable, and then as what was announced |
| `BeginAgreement.ValidIff` | internal/etp/session.go:1601-1670 | a transfer is valid for the sender exactly if the receiver would take it and it passes what only the sender can check |
| `BeginAgreement.NormalizeKeepsIff` | internal/etp/session.go:492-638 | normalising leaves exactly the usable configurations alone |
| `BeginAgreement.NormalizeIdempotentIff` | internal/etp/session.go:492-638 | normalising twice is normalising once exactly unless only unknown capabilities are named |
| `BeginAgreement.NormalizeIdempotentCounterexample` | internal/etp/session.go:492-638 | such a configuration |
| `BeginAgreement.DefaultsFilledIn` | internal/etp/session.go:492-638 | what is not set gets its default, and the chunk size is the smallest of what it must fit |
| `BeginAgreement.ChunkSizeChosen` | internal/etp/session.go:1531-1542 | the chunk size is the one wanted, or 16 KiB, cut to both sides' limits |
| `BeginAgreement.HelloRefused` | internal/etp/incoming.go:426-442 | what a Hello is refused for |
| `BeginAgreement.NormalizedPeersIntroduced` | internal/etp/session.go:492-638 | two normalised configurations whose Hellos are accepted meet the hypothesis of the agreement |
| `BeginAgreement.HelloAcceptedIff` | internal/etp/incoming.go:426-442 | the Hello of a normalised configuration is accepted exactly if a frame has room for a payload byte and the window survives 32 bits |
| `BeginAgreement.HelloRefusedCounterexample` | internal/etp/session.go:568-589 | a frame limit of the bare header survives normalisation and is refused |
| `BeginAgreement.OptionsFit` | internal/etp/session.go:1531-1542 | normalised options fit both sides' chunk limits |
| `BeginAgreement.CheckParts` | internal/etp/incoming.go:734-747 | the loop accepts exactly the parts whose sizes add up, without overflow |
| `BeginAgreement.PartsTotalAdds` | internal/etp/incoming.go:734-747 | the total is the sum of the part sizes |
| `AuthHistory.SafeIff` | internal/etp/session.go:955-969 | capabilities, trusted states and handler calls imply an earlier authentication throughout a run exactly if no direct call of SendHelloAck, HandleHello or HandleHelloAck took effect before it |
| `AuthHistory.FramesAreSafe` | internal/etp/incoming.go:76-230 | without such calls, frames, timers and the other local calls never break it, in any interleaving |
| `AuthHistory.StepInv` | internal/etp/incoming.go:400-442 | every step between guard and effect that is no such early call keeps the invariant |
| `AuthHistory.HandSentAckCounterexample` | internal/etp/session.go:1017-1029 | a bare SendHelloAck establishes a fresh server session that requires authentication |
| `AuthHistory.UnearnedIsUnsafe` | internal/etp/incoming.go:400-424 | every such call that takes effect too early breaks the property at once |
| `AuthHistory.HandledAckCounterexample` | internal/etp/incoming.go:413-424 | a bare HandleHelloAck stores capabilities and establishes a fresh session that requires authentication |
| `AuthHistory.HandlerCallEarned` | internal/etp/incoming.go:110-123 | a frame that reaches a handler came in while the session was trusted, was then allowed in its state, and then covered by a capability both sides have |
| `AuthHistory.AcceptanceEarned` | internal/etp/incoming.go:91-108 | a session becomes authenticated only by a local call, on a server by a decision about an early Auth frame, on a client by the answer to its own |
| `AuthHistory.HelloEarned` | internal/etp/incoming.go:201-211 | a Hello is stored only by an authenticated and not yet greeted server, a HelloAck only by a client that greeted |
| `AuthHistory.DrainEarned` | internal/etp/session.go:691-703 | a session drains only after graceful close was found supported by both sides |
| `AuthHistory.OneCallPerFrame` | internal/etp/incoming.go:110-173 | no frame reaches a handler more often than it arrived |
| `AuthHistory.ServerCanBeEstablished` | internal/etp/incoming.go:91-128 | a server that authenticates its peer and hears a Hello is established with exactly the common capabilities |
| `AuthHistory.ClientCanBeEstablished` | internal/etp/session.go:994-1015 | so is a client that is accepted, greets and is answered |
| `AuthHistory.LetThroughIff` | internal/etp/incoming.go:110-123 | exactly which frames get past all three guards when authentication is required; a CloseAck does so only while draining |
| `AuthHistory.CanDrain` | internal/etp/incoming.go:148-167 | an established session with graceful close on both sides can drain, whoever asks |
| `AuthHistory.DirectCalls` | internal/etp/incoming.go:400-424 | what the exported calls do without any guard |
| `AuthHistory.StateAfter` | internal/etp/session.go:817-953 | what a verdict, a farewell and a drain make of the session state |
| `RateLimit.RateBound` | internal/etp/incoming.go:372-393 | any half-open second accepts at most 2*max - 1 frames and 2*max bytes, less one header |
| `RateLimit.AcceptedIff` | internal/etp/incoming.go:372-393 | a frame passes exactly if the frames of its window up to it, passed or not, are within both limits |
| `RateLimit.RateBoundIsTight` | internal/etp/incoming.go:372-393 | for every limit some run reaches the frame bound |
| `RateLimit.RateLimiter.Check` | internal/etp/incoming.go:372-393 | refines the limiter, which counts rejected frames too |
| `Patterns.WildcardCoversIff` | router.go:161-215 | a group's wildcard covers a route exactly if there is no prefix, or the prefix has no outer dots and the route has a name |
| `Patterns.LeadingDotCoversNothing` | router.go:161-215 | the wildcard of a group whose prefix starts with a dot covers no route of it |
| `Patterns.WildcardCounterexample` | router.go:161-215 | prefix ".a" and route "x" |
| `Patterns.PrefixPatternCoversIff` | router.go:188-215 | a pattern ending in .* covers exactly the names that go on after its dot |
| `Patterns.PlainNameCoversIff` | router.go:161-215 | a middleware under a plain name covers exactly the routes of its group with that name |
| `Router.CompiledRoute` | router.go:144-159 | a compiled route leads to its function through exactly the matching middlewares of its ancestors and itself, root first, in registration order |
| `Router.WrapLayers` | router.go:147-153 | wrapping from last to first puts the matching middlewares around the handler in order |
| `Router.WrapRoute` | router.go:147-153 | the inner loop computes that wrapping |
| `Router.Append` | router.go:145-145 | appending keeps the prefix of the shared array, in place or not |
| `Router.Grown` | router.go:145-145 | an append finds room in the same array or copies to a larger one |
| `Router.CompiledRouter.Use` | router.go:70-82 | registers a middleware under its scoped pattern, with the error cases |
| `Router.CompiledRouter.On` | router.go:84-102 | registers a route under its full name, with the error cases |
| `Router.CompiledRouter.Group` | router.go:104-118 | adds a group and keeps the tree in order |
| `Router.CompiledRouter.CompileEndpoints` | router.go:146-155 | compiles every route of a group to its intended handler |
| `Router.CompiledRouter.CompileInto` | router.go:144-159 | compiles the whole subtree and leaves the inherited middlewares of the shared array untouched |
| `Router.CompiledRouter.Compile` | router.go:120-130 | the compiled routes are exactly the registered ones, each with its intended handler, and a second call changes nothing |
| `Router.FullPrefix` | router.go:172-186 | walking up and reversing gives the prefixes from the root, joined |
| `Router.PrefixNests` | router.go:172-186 | a group's full prefix is its parent's and its own, joined by a dot |

## Left out

- Adapters, sockets, deadlines and slowloris timing: input and output over other libraries.
- Simultaneous close and its convergence, and graceful drain beyond its effect on the session state.
- Order of transfer ids across concurrent outgoing transfers: one outgoing transfer is modelled at a time.
- Fairness: the progress results say that a good continuation exists from every state, not that every schedule takes it.
- SHA-256 itself, which is any function here; panic recovery, buffer pools, progress and event callbacks.
- Application wiring, body spooling, `FrameScheduler`, heartbeat and the small fixed-size payloads, which would only add easy members.
- Outgoing.ProcessOutgoingTimeouts: takes each transfer's deadline after its scan instead of within it, and sends the collected frames with the scan, without the check the code repeats before each.
- Buffers.PutRecord: writes the fields of a record in a loop where the code has one statement per field.
- Opening.SessionTransfers.InstallBegin: the maps hold the number of the attempt instead of the transfer object.
- AuthHistory.StepInv: stores of pending, rejected, closing, closed and failed states may happen at any time, which is more than the code does; a direct call of the exported `HandleAuth` or `HandleAuthAccept` counts as authentication.
- Router.CompiledRouter.Group: groups are records in one table instead of linked objects, and the panic on a second prefix is a parameter type; registration on a sub-group after compiling succeeds as in the code but reaches no compiled route.
- FrameCodec.DecodeFrame: leases and views are byte sequences, so sharing of received buffers is not modelled.
