# Verified model of can-lite

A Dafny model of the stateful cores of can-lite, a CAN bus protocol library, with proofs of what those cores keep over
whole runs. `dafny verify dfyconfig.toml` checks all of it.

Each component is modelled twice and the two are tied together: as a class whose methods follow the source step by step,
and as a value (`Sender`, `Transport`, `Table`, ...) with functions on it. The contract of each method equates the
object's new value, the frames it handed over and the callbacks it ran with those functions; the lemmas then speak about
the functions and about runs of them. A closure stored by the source is modelled by the value it captured, and a run
records what was sent, reported or told so that statements about whole histories can be made.

| Files | Component |
|---|---|
| `IsoTpCodec`, `IsoTpSender`, `IsoTpReceiver` | ISO 15765-2 frames and the two state machines |
| `IsoTpSenderRuns`, `IsoTpReceiverRuns` | each machine alone, over any run |
| `IsoTpLink`, `IsoTpLinkOrigins` | both machines joined by first-in first-out channels, and where each frame comes from |
| `IsoTpLinkSafety`, `IsoTpLinkStarts`, `IsoTpLinkStaleFlowControl` | safety when frames are lost, exactly which starts keep it, and two runs that break it |
| `IsoTpLinkProgress`, `IsoTpLinkOutcome` | progress and outcome when none is lost |
| `IsoTpChannels`, `IsoTpChannelsRuns`, `IsoTpChannelsOperations`, `IsoTpTransport` | the table of connections |
| `CanFrameTransport`, `SendQueueRefinement`, `CanFrameTransportRuns` | the bounded priority send queue |
| `CanProtocol`, `CanProtocolServer`, `CanProtocolServerRuns`, `ServerHeartbeat` | the server pipeline and its heartbeats |
| `CanProtocolClient`, `CanProtocolClientRuns`, `CanCategory`, `ServerLiveness` | sequence numbers of the client, sending a command, which servers are alive |
| `SequenceExchange` | client and server together |
| `GsUsbBitTiming` | the bit-timing search |
| `Slcan`, `SlcanStream`, `SlcanLines` | the slcan encoder, the streaming decoder, the meaning of lines |
| `CanTypes`, `Slots`, `Arithmetic` | shared values, searches and facts |

Results where the code does not do what one might expect:

- An ISO-TP transfer of several frames can splice two PDUs if it is started too early. With unlimited blocks, the
  default, this is possible exactly when a first frame that fits the receiver is in flight, or the receiver has a
  reception open and a ContinueToSend is in flight (`IsoTpLinkStarts.SplicesExactlyWhenExposed`); two concrete runs are in
  `IsoTpLinkStaleFlowControl`. The one second timeouts of the code are meant to keep clear of such starts.
  `LossyLinkIsSafe` covers every other start.
- A PDU of up to seven bytes that does not fit the receiver is reported done by the sender and as overflow by the
  receiver only; overflow on both sides happens exactly for longer PDUs (`Outcome` in `IsoTpLinkOutcome`, a run in `ShortPduLost`).
- A command whose number the server let through but whose handler turned it down leaves the client one number ahead; the
  next ordinary command is then refused and repairs it (`SequenceExchange.ExchangeResynchronises`, `TwoExchangesSuffice`,
  a run in `RefusalLeavesBehind`).
- The 8-bit epochs of sender and receiver tell transfers apart only within 256 epochs (`TokenAliasesEvery256`); the runs
  assume that a completion is not outstanding for longer.

## Main theorems

The first 48 rows of the table below, by component:

- ISO-TP link: `IsoTpLinkSafety.LossyLinkIsSafe`, `IsoTpLinkStarts.SplicesExactlyWhenExposed`, `IsoTpLinkStarts.HarmlessNeverSplices`, `IsoTpLinkOutcome.LosslessTransferEnds`, `IsoTpLinkProgress.StepKeepsLockstep`, `IsoTpLinkProgress.NeverDeadlocked`.
- ISO-TP machines and codec: `IsoTpSenderRuns.EveryRunIsSound`, `IsoTpSenderRuns.EveryStepIsDue`, `IsoTpSenderRuns.TimersAreDue`, `IsoTpSenderRuns.TransferIsBounded`, `IsoTpReceiverRuns.EveryRunIsSound`, `IsoTpReceiverRuns.EveryAbortIsDue`, `IsoTpReceiver.ReactRefines`, `IsoTpCodec.SegmentationRoundTrip`.
- ISO-TP connections: `IsoTpChannelsRuns.IdentifiersStayDistinct`, `IsoTpChannelsRuns.ConnectionsDoNotInterfere`, `IsoTpChannelsRuns.SendTakenExactly`, `IsoTpChannelsOperations.ReceivesIfRegistered`.
- Send queue: `SendQueueRefinement.QueueRefinesSortAndTruncate`, `SendQueueRefinement.StableOrderIsUnique`, `CanFrameTransportRuns.EveryRunIsSound`, `CanFrameTransportRuns.CompletionIsDue`, `CanFrameTransportRuns.SubmissionIsDue`, `CanFrameTransportRuns.EachAcceptedOnce`, `CanFrameTransportRuns.RefusedNever`, `CanFrameTransportRuns.EveryCallbackRuns`, `CanFrameTransportRuns.IdentifierIsFifo`, `CanFrameTransportRuns.EmergencyOvertakes`, `CanFrameTransportRuns.RefusedExactlyWhenFull`.
- Client, server and both together: `CanProtocolClientRuns.TableRefinesLedger`, `CanProtocolClient.CancelUndoesReserve`, `CanCategory.RefusedCommandLeavesNoTrace`, `CanProtocolServerRuns.EveryRunIsSound`, `CanProtocolServerRuns.GateIsExact`, `CanProtocolServerRuns.TreatedByTheRecord`, `SequenceExchange.ExchangeResynchronises`, `SequenceExchange.TwoExchangesSuffice`, `SequenceExchange.InStepForever`.
- Heartbeats and liveness: `ServerHeartbeat.HeartbeatsCoalesce`, `ServerLiveness.ObserversAreToldInTurn`, `ServerLiveness.HearingDecides`.
- Bit timing and slcan: `GsUsbBitTiming.ComputeBitTiming`, `GsUsbBitTiming.OptimalIsUnique`, `SlcanStream.DecoderYieldsStreamItems`, `SlcanStream.FramesSurvive`, `SlcanStream.LineRoundTrip`, `SlcanLines.DataLineMeans`, `SlcanLines.RemoteLineMeans`.

The rows after them are steps of these theorems that say something on their own and the encoders; the last ones are the
methods of the classes, each equating what the object did with the function of the same step.

## Model

| member | source | states |
|---|---|---|
| `IsoTpLinkSafety.LossyLinkIsSafe` | can-lite/transport/iso-tp/IsoTpReceiver.cpp:74-151 | Over any run of a sender and a receiver joined by lossy first-in first-out channels, with any timers, failures and resets and any number of transfers, each started where it is harmless (up to seven bytes at any time, more when no fitting first frame is in flight and no reception is open while a grant may arrive), the PDUs delivered are a subsequence of the PDUs sent, byte for byte, and none mixes frames of two transfers |
| `IsoTpLinkStarts.SplicesExactlyWhenExposed` | can-lite/transport/iso-tp/IsoTpSender.cpp:17-40 | With unlimited blocks, the default of the code: after any such run a start can be followed by a delivered PDU that mixes two transfers, for some PDU and some losses, if and only if a fitting first frame is in flight, or a reception is open and a ContinueToSend is in flight; and never by starting a PDU of up to seven bytes |
| `IsoTpLinkStarts.HarmlessNeverSplices` | can-lite/transport/iso-tp/IsoTpSender.cpp:17-40 | For every block size, a harmless start is followed by no splice, whatever is lost and whatever starts harmlessly after it |
| `IsoTpLinkOutcome.LosslessTransferEnds` | can-lite/transport/iso-tp/IsoTpSender.cpp:161-211 | From any drained link every lossless run of a transfer of 1 to 4095 bytes has at most 6N + 5 steps plus two for each old report, N consecutive frames, and where it stops the transfer has its one outcome: one delivery and one completion, or overflow at a receiver without room (seen by the sender too unless a single frame carried it) |
| `IsoTpLinkProgress.StepKeepsLockstep` | can-lite/transport/iso-tp/IsoTpSender.cpp:42-81 | Every lossless step of a transfer that fits keeps sender and receiver in block lockstep (a waiting sender whose frames are all consumed has a ContinueToSend on its way) and uses up some of the work left |
| `IsoTpLinkProgress.NeverDeadlocked` | can-lite/transport/iso-tp/IsoTpSender.cpp:145-203 | In lockstep, until the transfer is finished, some lossless step is possible, for every block size and separation time |
| `IsoTpSenderRuns.EveryRunIsSound` | can-lite/transport/iso-tp/IsoTpSender.cpp:93-227 | In every run a busy sender has exactly one of its three timers armed and an idle one none, each accepted PDU ends in exactly one of done, aborted or reset, and the frames handed over are a prefix of its segmentation, all of them when it reports done |
| `IsoTpSenderRuns.EveryStepIsDue` | can-lite/transport/iso-tp/IsoTpSender.cpp:17-218 | In every run a transfer begins exactly with a PDU of 1 to 4095 bytes that fits an idle sender, and ends exactly for a cause told from the record: done for the success of the single or last consecutive frame of the current epoch; send failure for a failed report of that epoch; N_As, N_Bs, an overflow status, an undecodable flow control, the seventeenth wait in a row, a reset. The next frame goes out exactly on a grant or a success without separation time, or when that time is over |
| `IsoTpSenderRuns.TimersAreDue` | can-lite/transport/iso-tp/IsoTpSender.cpp:129-159 | In every run N_As can fire exactly while the report of a frame is awaited, N_Bs exactly while a flow control is due (after a first frame, after a full block), the separation timer exactly while a granted transfer awaits neither |
| `IsoTpSenderRuns.TransferIsBounded` | can-lite/transport/iso-tp/IsoTpSender.cpp:42-81 | A transfer of N consecutive frames changes state at most 18 N + 17 times, whatever flow controls, reports and expiries it meets |
| `IsoTpReceiverRuns.EveryRunIsSound` | can-lite/transport/iso-tp/IsoTpReceiver.cpp:74-164 | On any stream of frames, timeouts, reports and resets the counters describe a reception made of frames that arrived (buffer of 6 + 7k bytes below the announced length and within capacity, number k + 1 mod 16, block position, N_Cr armed exactly while receiving), and every PDU delivered is carried by frames that arrived, in order |
| `IsoTpReceiverRuns.EveryAbortIsDue` | can-lite/transport/iso-tp/IsoTpReceiver.cpp:74-199 | In any run the reasons told are exactly those due: superseded, wrong number, beyond capacity, N_Cr, and send failure if and only if a ContinueToSend of the epoch of an open reception failed |
| `IsoTpReceiver.ReactRefines` | can-lite/transport/iso-tp/IsoTpReceiver.cpp:24-199 | On any event at all the counting receiver delivers, answers and continues as a machine that only remembers the frames it accepted |
| `IsoTpCodec.SegmentationRoundTrip` | can-lite/transport/iso-tp/IsoTpFrameCodec.cpp:17-75 | Cutting any PDU of legal length into frames and reassembling their data gives the PDU |
| `IsoTpChannelsRuns.IdentifiersStayDistinct` | can-lite/transport/IsoTpTransportImpl.cpp:95-118 | From an empty table of any size, over any run of registering, sending, releasing, frames, timers and reports, all receive and transmit identifiers of channels in use are pairwise distinct |
| `IsoTpChannelsRuns.ConnectionsDoNotInterfere` | can-lite/transport/IsoTpTransportImpl.cpp:15-63 | Until it is released a connection goes through exactly what its own events make of it, whatever happens on the others |
| `IsoTpChannelsRuns.SendTakenExactly` | can-lite/transport/IsoTpTransportImpl.cpp:37-53 | A send is taken exactly if its connection exists, or can be opened, and that sender is idle with room for the PDU |
| `IsoTpChannelsOperations.ReceivesIfRegistered` | can-lite/transport/IsoTpTransportImpl.cpp:15-53 | In every run a pair receives exactly if it was registered since either identifier was last released; sending never makes it receive |
| `SendQueueRefinement.QueueRefinesSortAndTruncate` | can-lite/core/CanFrameTransport.cpp:83-155 | Whatever is offered while a frame is being sent, the queue holds exactly the first eight emergency frames and the first min(6, 8 - emergencies) ordinary ones of the stable sort of the old queue and the offers |
| `SendQueueRefinement.StableOrderIsUnique` | can-lite/core/CanFrameTransport.cpp:137-147 | There is only one such order |
| `CanFrameTransportRuns.EveryRunIsSound` | can-lite/core/CanFrameTransport.cpp:63-213 | Over any run the accepted frames are exactly those finished, evicted, queued and current, and no refused one is among them; frames start in order of priority and acceptance; an emergency frame is never evicted and tried at most three times; an evicted frame is told it was not sent; the counters equal the events they count |
| `CanFrameTransportRuns.CompletionIsDue` | can-lite/core/CanFrameTransport.cpp:168-213 | In any run a completion makes another attempt exactly for an emergency frame that failed for the first or second time; otherwise the frame is reported with the outcome and the head of the queue starts |
| `CanFrameTransportRuns.SubmissionIsDue` | can-lite/core/CanFrameTransport.cpp:63-135 | In any run an offer to an idle transport starts its frame; to a busy one it starts nothing, and evicts exactly when it is taken although its places are full: the newest of the least urgent, told that it was not sent |
| `CanFrameTransportRuns.EachAcceptedOnce` | can-lite/core/CanFrameTransport.cpp:128-135 | Each accepted frame is in exactly one place: reported once, evicted once, or still held |
| `CanFrameTransportRuns.RefusedNever` | can-lite/core/CanFrameTransport.cpp:92-126 | A refused frame is never reported, evicted or held: its callback never runs |
| `CanFrameTransportRuns.EveryCallbackRuns` | can-lite/core/CanFrameTransport.cpp:168-213 | After at most three completions a place, whatever their outcomes, nothing is held, and each accepted frame has been reported or evicted exactly once |
| `CanFrameTransportRuns.IdentifierIsFifo` | can-lite/core/CanFrameTransport.cpp:137-147 | Over any run the frames started under one identifier are a subsequence of those accepted under it, the order the ISO-TP link relies on |
| `CanFrameTransportRuns.EmergencyOvertakes` | can-lite/core/CanFrameTransport.cpp:110-126 | An ordinary frame transmitted before an emergency frame was started before that was offered |
| `CanFrameTransportRuns.RefusedExactlyWhenFull` | can-lite/core/CanFrameTransport.cpp:92-126 | An emergency frame is refused exactly when eight are queued, an ordinary one exactly when its places are taken by frames at least as urgent |
| `CanProtocolClientRuns.TableRefinesLedger` | can-lite/client/CanProtocolClient.cpp:146-306 | While commands are sent to at most eight servers the slots cannot be told from a map with an entry for every server: same numbers given out, same timeouts reported, same counters, outstanding commands and deadlines |
| `CanProtocolClient.CancelUndoesReserve` | can-lite/client/CanProtocolClient.cpp:146-178 | Cancelling after reserving restores slot, evicted server, acknowledgement deadline and eviction index exactly |
| `CanCategory.RefusedCommandLeavesNoTrace` | can-lite/core/CanCategory.cpp:129-147 | A refused command queues, sends and calls back nothing and leaves the sequence table as it was |
| `CanProtocolServerRuns.EveryRunIsSound` | can-lite/server/CanProtocolServer.cpp:138-216 | Over any run each accepted ordinary command of a validated category carries the successor of the number accepted before it, emergencies any number; every period stays within both budgets independently; Online and Offline alternate and the timer runs while online |
| `CanProtocolServerRuns.GateIsExact` | can-lite/server/CanProtocolServer.cpp:13-23 | In any run a frame for this node is let through exactly while fewer of its own kind than its own budget have been in the period; a frame held back is counted and does nothing else |
| `CanProtocolServerRuns.TreatedByTheRecord` | can-lite/server/CanProtocolServer.cpp:164-222 | In any run whether a dispatched payload is ignored, answered and with which status and number, or taken up, is told by the first category under its identifier, the last number taken, and the handler |
| `SequenceExchange.ExchangeResynchronises` | can-lite/server/CanProtocolServer.cpp:164-208 | From any client counter and any server state one complete exchange leaves them in step if and only if the handler took the command, the server had no sequence yet, or the number was not the one let through (for an emergency: was the last one) |
| `SequenceExchange.TwoExchangesSuffice` | can-lite/client/CanProtocolClient.cpp:246-274 | Whatever the verdicts, of two ordinary exchanges in a row one leaves client and server in step |
| `SequenceExchange.InStepForever` | can-lite/client/CanProtocolClient.cpp:146-161 | Once in step every command its handler takes is accepted, however many follow and whatever the client does with other servers; the numbers are consecutive modulo 256 |
| `ServerHeartbeat.HeartbeatsCoalesce` | can-lite/server/CanProtocolServer.cpp:248-263 | In every run, through evictions, refusals and failures, the pending flag holds exactly while one heartbeat is queued or being sent, there is never a second, and each accepted one is released once |
| `ServerLiveness.ObserversAreToldInTurn` | can-lite/client/CanProtocolClient.cpp:326-391 | In every run and for every node Online and Offline are told in turn, Online first, and Online was last exactly if the node has a slot, through replacement in turn too |
| `ServerLiveness.HearingDecides` | can-lite/client/CanProtocolClient.cpp:326-375 | A node that is heard is online; Online is told exactly if it was not, after Offline for the node whose turn it is if all slots are taken; no other node is concerned and the turn passes on |
| `GsUsbBitTiming.ComputeBitTiming` | can-lite/drivers/codec/GsUsbProtocol.cpp:81-95 | Returns a timing if and only if some prescaler on the grid and segments within the limits reach the bit rate exactly, and then one whose sample point is nearest to 7/8 of all of them, with the smallest prescaler of those and the longest second segment of that one, split between propagation and phase segment |
| `GsUsbBitTiming.OptimalIsUnique` | can-lite/drivers/codec/GsUsbProtocol.cpp:81-95 | Only one timing meets the contract of ComputeBitTiming |
| `SlcanStream.DecoderYieldsStreamItems` | can-lite/drivers/codec/SlcanCodec.cpp:132-170 | Fed any characters, the decoder yields exactly what splitting at carriage return and bell and parsing each line of at most 64 characters yields |
| `SlcanStream.FramesSurvive` | can-lite/drivers/codec/SlcanCodec.cpp:120-170 | After any garbage that ends with a terminator, the frames of any encoded list come out, in order, behind what the garbage itself stood for |
| `SlcanStream.LineRoundTrip` | can-lite/drivers/codec/SlcanCodec.cpp:79-130 | The line of any frame parses to that frame, is short enough and contains no terminator |
| `SlcanLines.DataLineMeans` | can-lite/drivers/codec/SlcanCodec.cpp:79-95 | A line means a data frame if and only if it begins, digits in either case, with the line the frame is written as |
| `SlcanLines.RemoteLineMeans` | can-lite/drivers/codec/SlcanCodec.cpp:79-95 | A line means a remote frame if and only if it begins with its type, the digits of its identifier and a length of at most eight; it carries no data |
| `IsoTpLinkStarts.OpenReceptionSplices` | can-lite/transport/iso-tp/IsoTpReceiver.cpp:110-145 | A reception open and a ContinueToSend in flight: every PDU of the announced length, started now, can be delivered with the bytes received before in front of its own |
| `IsoTpLinkStarts.OpeningSplices` | can-lite/transport/iso-tp/IsoTpReceiver.cpp:74-108 | A fitting first frame of an earlier transfer in flight: every PDU of its length, started now, can be delivered with the first six bytes of the earlier one |
| `IsoTpLinkSafety.ConsecutiveArrives` | can-lite/transport/iso-tp/IsoTpReceiver.cpp:110-145 | Whatever was lost before it, sixteen frames or more included, a consecutive frame of the current transfer is either the one due or cannot complete a PDU other than the one sent |
| `IsoTpLinkSafety.DeliveryKeepsInv` | can-lite/transport/iso-tp/IsoTpReceiver.cpp:24-42 | The arrival of any frame in flight keeps the link invariant from which safety follows |
| `IsoTpLinkProgress.TakesNextFrame` | can-lite/transport/iso-tp/IsoTpReceiver.cpp:110-164 | The receiver takes the next frame in order, delivers exactly the sent PDU with the last one, and answers exactly at block ends |
| `IsoTpLinkOutcome.SomethingCanHappen` | can-lite/transport/iso-tp/IsoTpSender.cpp:145-203 | On the way to its outcome a lossless transfer can always go on |
| `IsoTpLinkOutcome.SubmitStartsTrack` | can-lite/transport/iso-tp/IsoTpSender.cpp:17-40 | An accepted Send on a drained link starts a transfer with a known bound on its steps |
| `IsoTpLinkOutcome.ShortPduLost` | can-lite/transport/iso-tp/IsoTpReceiver.cpp:54-72 | Three bytes sent to a receiver with room for two: the sender reports them done, the receiver an overflow, nothing is delivered |
| `IsoTpLinkStaleFlowControl.UndrainedStartSplices` | can-lite/transport/iso-tp/IsoTpSender.cpp:17-40 | A concrete run: started while the flow control of a given-up transfer is in flight, a transfer whose first frame is lost ends in a PDU of old head and new tail |
| `IsoTpLinkStaleFlowControl.UndrainedDataSplices` | can-lite/transport/iso-tp/IsoTpSender.cpp:17-40 | The same with no flow control in flight, only the first frame of the given-up transfer |
| `IsoTpSenderRuns.RefusedFrameAborts` | can-lite/transport/iso-tp/IsoTpChannelImpl.cpp:118-122 | A frame the lower layer refuses ends its transfer within the call, as a failed send and never as done |
| `IsoTpSenderRuns.LateReportIsInert` | can-lite/transport/iso-tp/IsoTpSender.cpp:96-109 | A completion that belongs to an earlier transfer changes nothing but the list of outstanding completions |
| `IsoTpSenderRuns.TokenTellsTransfersApart` | can-lite/transport/iso-tp/IsoTpSender.cpp:26 | Within 256 epochs the 8-bit transfer number equals the current one exactly for completions of the current transfer |
| `IsoTpSenderRuns.TokenAliasesEvery256` | can-lite/transport/iso-tp/IsoTpSender.cpp:26 | Without that window the numbers agree exactly when the distance in epochs is a multiple of 256 |
| `IsoTpSenderRuns.ChangesAreBounded` | can-lite/transport/iso-tp/IsoTpSender.cpp:42-81 | From any reachable state the changes still to come are bounded by the rank, over any run within the transfer |
| `IsoTpSenderRuns.TimersAloneEndTransfer` | can-lite/transport/iso-tp/IsoTpSender.cpp:129-159 | A sender left alone has a timer that can fire, and at most two expiries end its transfer |
| `IsoTpSender.ReactKeepsValid` | can-lite/transport/iso-tp/IsoTpSender.cpp:42-227 | Every possible event keeps timers, phase, bytes sent, sequence number and block credit consistent |
| `IsoTpSender.ReactDescends` | can-lite/transport/iso-tp/IsoTpSender.cpp:42-81 | Whatever happens to a busy sender leaves it as it was or lowers the order of frames left, phase, waits left |
| `IsoTpReceiverRuns.CompletionIsCarried` | can-lite/transport/iso-tp/IsoTpReceiver.cpp:110-145 | A completed PDU is the announced-length prefix of the first frame data and the consecutive frame data after it, and fits the capacity |
| `IsoTpReceiverRuns.ReceptionsDiffer` | can-lite/transport/iso-tp/IsoTpReceiver.cpp:91-108 | Each reception is of a later epoch than every flow control handed over before, and its ContinueToSend is of its epoch |
| `IsoTpReceiverRuns.EpochsCount` | can-lite/transport/iso-tp/IsoTpReceiver.cpp:186-199 | The epoch moves once for each reception given up, reset or begun |
| `IsoTpReceiver.EveryAbortHasItsReason` | can-lite/transport/iso-tp/IsoTpReceiver.cpp:24-199 | On any event the callbacks run are the aborts due, in order, and then the completed PDU; a flow control carries status, block size and separation time, and a ContinueToSend the token of its reception |
| `IsoTpReceiver.RefusedFlowControl` | can-lite/transport/iso-tp/IsoTpReceiver.cpp:172-184 | A refused ContinueToSend ends its reception within the call, a refused Overflow changes nothing |
| `IsoTpReceiver.SingleMeans` | can-lite/transport/iso-tp/IsoTpReceiver.cpp:54-72 | A single frame is usable exactly if it begins with that of some PDU, padding ignored |
| `IsoTpReceiver.FirstMeans` | can-lite/transport/iso-tp/IsoTpReceiver.cpp:74-108 | A first frame is usable exactly if it is that of a PDU too long for a single frame |
| `IsoTpReceiver.ConsecutiveMeans` | can-lite/transport/iso-tp/IsoTpFrameCodec.cpp:57-75 | A frame is consecutive with a number exactly if its data is written so under that number |
| `IsoTpReceiver.BlockCountsDown` | can-lite/transport/iso-tp/IsoTpReceiver.cpp:153-164 | Even if the block size was changed meanwhile, a block ends after exactly the frames its counter still lacks, through the wrap of the counter if need be |
| `IsoTpReceiverRuns.LateFcReportIsInert` | can-lite/transport/iso-tp/IsoTpReceiver.cpp:172-184 | A flow control of an earlier reception that fails late does not abort a later one |
| `IsoTpReceiver.ConsecutiveRefines` | can-lite/transport/iso-tp/IsoTpReceiver.cpp:110-164 | The same for a consecutive frame: short frames ignored, a wrong number ends the reception, the right one is appended |
| `IsoTpReceiver.BlockPositionIsModulo` | can-lite/transport/iso-tp/IsoTpReceiver.cpp:153-164 | Counting up to the block size and starting over counts frames modulo the block size |
| `IsoTpCodec.FrameHeaders` | can-lite/transport/iso-tp/IsoTpFrameCodec.cpp:5-75 | Every frame of a segmentation decodes to its own type, length or number, and carries its own slice of the PDU |
| `IsoTpCodec.FlowControlMeans` | can-lite/transport/iso-tp/IsoTpFrameCodec.cpp:77-103 | A flow control decodes exactly to what it is written from, whatever its type nibble and trailing bytes; nothing shorter and no other status decodes |
| `IsoTpCodec.TypeIsTheNibble` | can-lite/transport/iso-tp/IsoTpFrameCodec.cpp:5-15 | Flow control and unknown frames, by the upper nibble |
| `IsoTpCodec.SeparationIsBounded` | can-lite/transport/iso-tp/IsoTpFrameCodec.cpp:105-113 | Separation times: milliseconds, tenths, and 127 ms for reserved values |
| `IsoTpCodec.Segment` | can-lite/transport/iso-tp/IsoTpSender.cpp:161-203 | A PDU becomes one first or single frame and as many consecutive frames as its length needs |
| `IsoTpCodec.EncodeSingleFrame` | can-lite/transport/iso-tp/IsoTpFrameCodec.cpp:17-27 | Encodes exactly PDUs of 1 to 7 bytes |
| `IsoTpCodec.EncodeFirstFrame` | can-lite/transport/iso-tp/IsoTpFrameCodec.cpp:36-48 | Encodes exactly PDUs of 8 to 4095 bytes |
| `IsoTpCodec.EncodeConsecutiveFrame` | can-lite/transport/iso-tp/IsoTpFrameCodec.cpp:57-68 | Number and up to seven bytes, and how many were taken |
| `IsoTpCodec.EncodeFlowControl` | can-lite/transport/iso-tp/IsoTpFrameCodec.cpp:77-83 | What DecodeFlowControl reads back: status, block size, separation time |
| `IsoTpChannelsRuns.After` | can-lite/transport/IsoTpTransportImpl.cpp:15-118 | Every reachable table keeps identifiers disjoint, senders and receivers consistent, and unused channels idle |
| `IsoTpChannelsRuns.OneChannelClaims` | can-lite/transport/IsoTpTransportImpl.cpp:55-63 | At most one channel claims a frame |
| `IsoTpChannelsRuns.RoutingIgnoresOrder` | can-lite/transport/IsoTpTransportImpl.cpp:55-63 | Whether and where a frame is processed, and what it changes, does not depend on the order of the channels |
| `IsoTpChannelsRuns.ConnectionsAreFound` | can-lite/transport/IsoTpTransportImpl.cpp:87-93 | Searching by receive identifier finds every connection that exists |
| `IsoTpChannelsRuns.RefusedSendLeavesConnections` | can-lite/transport/IsoTpTransportImpl.cpp:37-53 | A refused send, on a new pair or an existing one, leaves every connection as it was |
| `IsoTpChannelsRuns.NextKeepsInv` | can-lite/transport/IsoTpTransportImpl.cpp:15-118 | Each operation keeps identifiers disjoint and unused channels idle |
| `IsoTpChannelsOperations.RegisterDoes` | can-lite/transport/IsoTpTransportImpl.cpp:15-28 | Registering succeeds exactly for a pair connected and not receiving yet, or one that can be connected; then its channel receives, a new one under the parameters of the table, and nothing else changes |
| `IsoTpChannelsOperations.SendDoes` | can-lite/transport/IsoTpTransportImpl.cpp:37-53 | A taken send starts the transfer on the connection of its pair, an old one or a new one that does not receive, fails it at once if the first frame is refused, and changes nothing else |
| `IsoTpChannelsOperations.ReleaseDoes` | can-lite/transport/IsoTpTransportImpl.cpp:30-35 | Afterwards nobody uses the identifier, its channel is free with nothing going on and nothing armed, all others are as they were |
| `IsoTpChannelsOperations.FrameDoes` | can-lite/transport/IsoTpTransportImpl.cpp:55-63 | A frame for the receive identifier of a connection is processed exactly if it is a flow control, for its sender, or the connection receives, for its receiver |
| `IsoTpChannelsOperations.StrangersAreIgnored` | can-lite/transport/IsoTpTransportImpl.cpp:55-63 | A frame with any other identifier is left alone |
| `IsoTpChannelsOperations.ConnectionsAreParameterised` | can-lite/transport/IsoTpTransportImpl.cpp:95-118 | In every run every connection answers with the block size and separation time of the table |
| `SendQueueRefinement.StableSortIsStable` | can-lite/core/CanFrameTransport.cpp:137-147 | The sort used there is one: ordered, a permutation, equal priorities in their order |
| `SendQueueRefinement.OfferKeepsValid` | can-lite/core/CanFrameTransport.cpp:63-147 | An offer keeps the queue sorted, within eight frames and six ordinary ones |
| `SendQueueRefinement.CompletedKeepsValid` | can-lite/core/CanFrameTransport.cpp:168-213 | So does a completion |
| `CanFrameTransportRuns.EqualPriorityIsFifo` | can-lite/core/CanFrameTransport.cpp:137-147 | Frames of equal priority are transmitted in the order they were offered |
| `CanFrameTransportRuns.TicksWrap` | can-lite/core/CanFrameTransport.cpp:63-213 | A 32-bit counter is the number of its events modulo 2^32 |
| `CanFrameTransport.InsertedBefore` | can-lite/core/CanFrameTransport.cpp:137-147 | The frame goes behind every frame at least as urgent and before the first less urgent one |
| `CanProtocolClientRuns.SentCommandArmsItsTimer` | can-lite/client/CanProtocolClient.cpp:146-161 | After a sent command its timer runs out exactly at the deadline given; servers that keep their slot keep counter, outstanding command and deadline |
| `CanProtocolClientRuns.TimerRunsWhileAwaiting` | can-lite/client/CanProtocolClient.cpp:207-213 | An acknowledgement timer can fire exactly when a command to its server is outstanding |
| `CanProtocolClientRuns.NinthServerEvicts` | can-lite/client/CanProtocolClient.cpp:192-205 | A ninth server takes the slot whose turn it is: that server is forgotten, all others are kept, numbering starts at zero, and the turn passes on |
| `CanProtocolClientRuns.After` | can-lite/client/CanProtocolClient.cpp:146-306 | In every run one slot a server, timer armed exactly while awaiting |
| `CanProtocolClientRuns.RefusedIsCancelled` | can-lite/client/CanProtocolClient.cpp:163-178 | A refused command leaves the table of a reservation that was cancelled |
| `CanProtocolClient.ReserveKeepsValid` | can-lite/client/CanProtocolClient.cpp:146-161 | Reserving keeps nodes distinct and timers matching |
| `CanProtocolClient.AcknowledgeKeepsValid` | can-lite/client/CanProtocolClient.cpp:246-288 | So does any acknowledgement frame |
| `CanProtocolClient.ExpireKeepsValid` | can-lite/client/CanProtocolClient.cpp:290-306 | So does a timeout |
| `CanCategory.SendCommandAgrees` | can-lite/core/CanCategory.cpp:129-147 | Sending through the transport keeps table and ledger the same: a new number for a taken frame, the number of an evicted frame returned, nothing for a refused one |
| `CanCategory.FailedCommandNumberIsReused` | can-lite/core/CanCategory.cpp:136-140 | A command that fails before the next one to its server gives its number to that one |
| `CanCategory.EvictedNumberIsReused` | can-lite/core/CanCategory.cpp:129-147 | The number of a command evicted by SendCommand is given out again if it was the last one of its server |
| `CanCategory.IdleTransportTakesWhatFits` | can-lite/core/CanCategory.cpp:129-147 | An idle transport takes a command exactly if its payload has at most seven bytes, and sends it at once |
| `CanCategory.StandardIsCommand` | can-lite/core/CanFrameTransport.cpp:8-26 | Frames with an 11-bit identifier have command priority and are never emergencies |
| `CanCategory.CommandFrameIsLabelled` | can-lite/core/CanCategory.cpp:133-142 | The frame goes to the node its number is counted for, carries the number in front, then the payload, under the priority asked for |
| `CanProtocolServerRuns.RejectionLeavesNoTrace` | can-lite/server/CanProtocolServer.cpp:192-208 | A frame or PDU that is not accepted, for whatever reason, leaves sequence and client liveness as they were and tells observers nothing |
| `CanProtocolServerRuns.DispatchHasEffect` | can-lite/server/CanProtocolServer.cpp:164-216 | What a dispatched payload does to sequence and liveness depends only on whether the command is accepted |
| `CanProtocolServerRuns.CountersCountTheirEvents` | can-lite/server/CanProtocolServer.cpp:13-23 | Each counter moves for exactly its own events: refusals of either budget, dispatched payloads that are not accepted, accepted emergencies |
| `CanProtocolServerRuns.OthersAreIgnored` | can-lite/server/CanProtocolServer.cpp:138-156 | What is for other nodes does nothing |
| `CanProtocolServerRuns.ClaimedIsOnlyCharged` | can-lite/server/CanProtocolServer.cpp:138-156 | A frame the segmentation layer claims is charged and does nothing else |
| `CanProtocolServerRuns.FoundIsKnown` | can-lite/server/CanProtocolServer.cpp:224-233 | The search finds the first category with the identifier, or there is none |
| `CanProtocol.StatusesDiffer` | can-lite/core/CanProtocolDefinitions.hpp:45-55 | Different statuses have different codes |
| `CanProtocol.CanIdRoundTrip` | can-lite/core/CanProtocolDefinitions.hpp:91-118 | The parts put into an identifier are the parts taken out |
| `SequenceExchange.AcceptedExactlyInStep` | can-lite/server/CanProtocolServer.cpp:164-216 | A command its handler takes is accepted exactly when client and server are in step or it is an emergency |
| `SequenceExchange.RefusalLeavesBehind` | can-lite/server/CanProtocolServer.cpp:192-208 | Concretely, from a new client and a new server: in step after a command the handler takes, out of step after one it turns down |
| `SequenceExchange.TimerLeftExactlyForSilence` | can-lite/client/CanProtocolClient.cpp:246-288 | After an exchange the acknowledgement timer runs exactly for an accepted command whose handler sent no acknowledgement: every rejection names the command it answers |
| `SequenceExchange.ExchangeCounts` | can-lite/client/CanProtocolClient.cpp:246-274 | The counter after an exchange is the one the server named, or the successor of the number used |
| `ServerHeartbeat.NextKeepsCoalesced` | can-lite/server/CanProtocolServer.cpp:248-263 | Each heartbeat, other frame and completion keeps flag and count equal |
| `ServerHeartbeat.DueHeartbeatGoesOut` | can-lite/server/CanProtocolServer.cpp:248-263 | A due heartbeat goes out when none is on its way and there is room, at once if nothing is being sent, with version 1 and from this node; while one is on its way nothing happens |
| `ServerLiveness.OnlineNodesAreSlots` | can-lite/client/CanProtocolClient.cpp:326-391 | The nodes last told Online are exactly those of occupied slots with their own timer running, at most eight |
| `ServerLiveness.SilenceDecides` | can-lite/client/CanProtocolClient.cpp:377-391 | A timer that runs out takes its own node offline, tells so, and concerns no other |
| `ServerLiveness.BroadcastIsNoServer` | can-lite/client/CanProtocolClient.cpp:215-232 | Frames from the broadcast address concern no server |
| `ServerLiveness.TurnsByPosition` | can-lite/client/CanProtocolClient.cpp:326-391 | Taking turns means that the notifications at even positions are the Online ones |
| `GsUsbBitTiming.Search` | can-lite/drivers/codec/GsUsbProtocol.cpp:81-95 | The loop over prescalers finds the global optimum |
| `GsUsbBitTiming.CandidateFor` | can-lite/drivers/codec/GsUsbProtocol.cpp:32-61 | Finds the best segments of one prescaler, halves rounded up, or none if and only if there are none |
| `GsUsbBitTiming.ClampedIsNearest` | can-lite/drivers/codec/GsUsbProtocol.cpp:49-57 | Rounding an eighth of the quanta and clamping it into the limits of both segments gives the nearest sample point, with the longer second segment of two as near |
| `GsUsbBitTiming.ExtendsBest` | can-lite/drivers/codec/GsUsbProtocol.cpp:85-91 | Keeping the better of the best so far and the new candidate keeps the best |
| `SlcanStream.FeedRefinesSplitting` | can-lite/drivers/codec/SlcanCodec.cpp:132-152 | The same from any state reached by reading a text |
| `SlcanStream.ParseThenEncode` | can-lite/drivers/codec/SlcanCodec.cpp:79-130 | A data line that parses is, up to capitals and text behind its payload, the line of the frame it gives |
| `SlcanStream.LineByLineConcat` | can-lite/drivers/codec/SlcanCodec.cpp:132-152 | Whatever ends with a terminator can be read on its own |
| `SlcanLines.EveryAcknowledgementCounts` | can-lite/drivers/codec/SlcanCodec.cpp:132-170 | A stream of empty lines, z and Z yields exactly as many acknowledgements |
| `SlcanLines.OnlyThreeAcknowledge` | can-lite/drivers/codec/SlcanCodec.cpp:160-170 | No other line acknowledges, and no line ended by a carriage return is an error |
| `Slcan.HexFromTheTop` | can-lite/drivers/codec/SlcanCodec.cpp:55-60 | Digits may be written from the most significant end |
| `Slcan.ParseHex` | can-lite/drivers/codec/SlcanCodec.cpp:39-53 | The value of the digits, or nothing if one is missing or no digit |
| `Slcan.AppendHex` | can-lite/drivers/codec/SlcanCodec.cpp:55-60 | The last digits of the value, in capitals |
| `Slcan.ParsePayload` | can-lite/drivers/codec/SlcanCodec.cpp:67-77 | As many bytes as announced, or nothing |
| `Slcan.ParseFrame` | can-lite/drivers/codec/SlcanCodec.cpp:79-95 | Type, identifier width, length, payload; nothing for anything else |
| `Slcan.EncodeSlcanFrame` | can-lite/drivers/codec/SlcanCodec.cpp:120-130 | The line of the masked identifier and the data, with its terminator |
| `IsoTpSender.IsoTpSender.constructor` | can-lite/transport/iso-tp/IsoTpSender.cpp:7-9 | A new sender is idle with nothing sent |
| `IsoTpSender.IsoTpSender.SendPdu` | can-lite/transport/iso-tp/IsoTpSender.cpp:17-40 | Taken exactly for 1 to 4095 bytes that fit an idle sender; the new state, the frame handed over and the callback run are those of the transfer machine |
| `IsoTpSender.IsoTpSender.Load` | can-lite/transport/iso-tp/IsoTpSender.cpp:24-36 | A new epoch, and every counter of the transfer as at its start |
| `IsoTpSender.IsoTpSender.CountConsecutiveFrame` | can-lite/transport/iso-tp/IsoTpSender.cpp:161-184 | The frame of the next bytes under the next number; bytes, number and block credit move on together |
| `IsoTpSender.IsoTpSender.CountWait` | can-lite/transport/iso-tp/IsoTpSender.cpp:62-72 | One more wait restarts N_Bs, one too many aborts |
| `IsoTpSender.IsoTpSender.Grant` | can-lite/transport/iso-tp/IsoTpSender.cpp:74-79 | A ContinueToSend opens a block with its size and separation time and forgets the waits |
| `IsoTpSender.IsoTpSender.SendFirstOrSingleFrame` | can-lite/transport/iso-tp/IsoTpSender.cpp:93-127 | Up to seven bytes leave as a single frame under N_As, more as a first frame under N_Bs |
| `IsoTpSender.IsoTpSender.ProcessFlowControl` | can-lite/transport/iso-tp/IsoTpSender.cpp:42-81 | Outside the wait nothing; overflow, malformed status and too many waits abort with their reason; ContinueToSend grants a block |
| `IsoTpSender.IsoTpSender.ReportFrame` | can-lite/transport/iso-tp/IsoTpSender.cpp:96-125 | A completion acts only on its own transfer: done, next frame, or abort |
| `IsoTpSender.IsoTpSender.ExpireNAs` | can-lite/transport/iso-tp/IsoTpSender.cpp:137-143 | N_As ends the transfer with its reason |
| `IsoTpSender.IsoTpSender.ExpireNBs` | can-lite/transport/iso-tp/IsoTpSender.cpp:129-135 | N_Bs ends the transfer with its reason |
| `IsoTpSender.IsoTpSender.ExpireStMin` | can-lite/transport/iso-tp/IsoTpSender.cpp:145-159 | The separation time over, the next consecutive frame is handed over |
| `IsoTpSender.IsoTpSender.ResetTransfer` | can-lite/transport/iso-tp/IsoTpSender.cpp:83-86 | Reset silently makes the sender idle |
| `IsoTpSender.IsoTpSender.ScheduleNextCf` | can-lite/transport/iso-tp/IsoTpSender.cpp:145-159 | The next frame waits for the separation time if there is one |
| `IsoTpSender.IsoTpSender.SendNextConsecutiveFrame` | can-lite/transport/iso-tp/IsoTpSender.cpp:161-203 | The next seven bytes under the next number; the block credit decides between waiting for flow control and going on |
| `IsoTpSender.IsoTpSender.ReportFailure` | can-lite/transport/iso-tp/IsoTpSender.cpp:96-109 | A failed frame of the current transfer aborts it |
| `IsoTpSender.IsoTpSender.CompleteTransfer` | can-lite/transport/iso-tp/IsoTpSender.cpp:205-211 | One completion notice, a new epoch |
| `IsoTpSender.IsoTpSender.AbortTransfer` | can-lite/transport/iso-tp/IsoTpSender.cpp:213-218 | One abort notice, timers off, a new epoch |
| `IsoTpSender.IsoTpSender.Clear` | can-lite/transport/iso-tp/IsoTpSender.cpp:220-227 | Timers off, idle, a new epoch |
| `IsoTpSender.IsoTpSender.Transmit` | can-lite/transport/iso-tp/IsoTpChannelImpl.cpp:118-122 | A frame the lower layer refuses is reported failed from inside the call |
| `IsoTpReceiver.IsoTpReceiver.constructor` | can-lite/transport/iso-tp/IsoTpReceiver.cpp:7-9 | A new receiver waits for a first or single frame |
| `IsoTpReceiver.IsoTpReceiver.SetFlowControlParameters` | can-lite/transport/iso-tp/IsoTpReceiver.cpp:18-22 | Only block size and separation time change |
| `IsoTpReceiver.IsoTpReceiver.ProcessFrame` | can-lite/transport/iso-tp/IsoTpReceiver.cpp:24-42 | State, flow control and callbacks are those of the reassembly machine for any frame |
| `IsoTpReceiver.IsoTpReceiver.HandleSingleFrame` | can-lite/transport/iso-tp/IsoTpReceiver.cpp:54-72 | A usable single frame is delivered, or overflows; it ends a reception in progress |
| `IsoTpReceiver.IsoTpReceiver.HandleFirstFrame` | can-lite/transport/iso-tp/IsoTpReceiver.cpp:74-108 | A usable first frame begins a reception answered with ContinueToSend, or overflows and says so |
| `IsoTpReceiver.IsoTpReceiver.BeginReception` | can-lite/transport/iso-tp/IsoTpReceiver.cpp:91-108 | Stores the first six bytes, starts N_Cr, answers |
| `IsoTpReceiver.IsoTpReceiver.HandleConsecutiveFrame` | can-lite/transport/iso-tp/IsoTpReceiver.cpp:110-151 | Appends, delivers when complete, aborts on a wrong number, ignores short frames |
| `IsoTpReceiver.IsoTpReceiver.ContinueCurrentBlock` | can-lite/transport/iso-tp/IsoTpReceiver.cpp:153-164 | Flow control after exactly every full block |
| `IsoTpReceiver.IsoTpReceiver.EndSupersededReception` | can-lite/transport/iso-tp/IsoTpReceiver.cpp:166-170 | A reception cut short is reported once |
| `IsoTpReceiver.IsoTpReceiver.SendFlowControl` | can-lite/transport/iso-tp/IsoTpReceiver.cpp:172-184 | The frame carries status, block size and separation time; a refused one is reported failed at once |
| `IsoTpReceiver.IsoTpReceiver.ReportFlowControl` | can-lite/transport/iso-tp/IsoTpReceiver.cpp:172-184 | Only a failed ContinueToSend of the current reception aborts it |
| `IsoTpReceiver.IsoTpReceiver.ExpireNCr` | can-lite/transport/iso-tp/IsoTpReceiver.cpp:106 | N_Cr ends the reception with its reason |
| `IsoTpReceiver.IsoTpReceiver.ResetReception` | can-lite/transport/iso-tp/IsoTpReceiver.cpp:44-47 | Reset silently ends the reception |
| `IsoTpReceiver.IsoTpReceiver.AbortReception` | can-lite/transport/iso-tp/IsoTpReceiver.cpp:186-191 | One abort notice, buffer dropped, a new epoch |
| `IsoTpReceiver.IsoTpReceiver.Clear` | can-lite/transport/iso-tp/IsoTpReceiver.cpp:193-199 | Timer off, buffer dropped, a new epoch |
| `IsoTpTransport.IsoTpChannel.constructor` | can-lite/transport/iso-tp/IsoTpChannelImpl.cpp:6-9 | A new channel is free |
| `IsoTpTransport.IsoTpChannel.Configure` | can-lite/transport/iso-tp/IsoTpChannelImpl.cpp:11-45 | Takes both identifiers, reception off |
| `IsoTpTransport.IsoTpChannel.EnableReception` | can-lite/transport/iso-tp/IsoTpChannelImpl.cpp:47-50 | Only reception changes |
| `IsoTpTransport.IsoTpChannel.Release` | can-lite/transport/iso-tp/IsoTpChannelImpl.cpp:57-63 | Sender and receiver reset, channel free |
| `IsoTpTransport.IsoTpChannel.ProcessFrame` | can-lite/transport/iso-tp/IsoTpChannelImpl.cpp:85-101 | Claims its own identifier: flow control for the sender, the rest for the receiver if reception is on |
| `IsoTpTransport.IsoTpChannel.SendPdu` | can-lite/transport/iso-tp/IsoTpChannelImpl.cpp:103-106 | Taken exactly when the sender takes it |
| `IsoTpTransport.IsoTpTransport.FindChannel` | can-lite/transport/IsoTpTransportImpl.cpp:77-85 | The first channel that uses the identifier in either role |
| `IsoTpTransport.IsoTpTransport.FindConnection` | can-lite/transport/IsoTpTransportImpl.cpp:87-93 | The channel of exactly this pair |
| `IsoTpTransport.IsoTpTransport.AllocateFreeChannel` | can-lite/transport/IsoTpTransportImpl.cpp:120-128 | The first free channel |
| `IsoTpTransport.IsoTpTransport.OpenConnection` | can-lite/transport/IsoTpTransportImpl.cpp:95-118 | Opens exactly when the identifiers differ, nobody uses either and a channel is free; otherwise nothing changes |
| `IsoTpTransport.IsoTpTransport.RegisterReceiveChannel` | can-lite/transport/IsoTpTransportImpl.cpp:15-28 | False for a pair already receiving or one that cannot be opened; no other channel changes |
| `IsoTpTransport.IsoTpTransport.ReleaseChannel` | can-lite/transport/IsoTpTransportImpl.cpp:30-35 | Frees the channel that uses the identifier, and only it |
| `IsoTpTransport.IsoTpTransport.SendPdu` | can-lite/transport/IsoTpTransportImpl.cpp:37-53 | A new connection whose sender refuses is released again |
| `IsoTpTransport.IsoTpTransport.SendOrRelease` | can-lite/transport/IsoTpTransportImpl.cpp:46-52 | The last step of a send on a new connection |
| `IsoTpTransport.IsoTpTransport.ProcessFrame` | can-lite/transport/IsoTpTransportImpl.cpp:55-63 | At most the claiming channel changes |
| `CanFrameTransport.CanFrameTransport.constructor` | can-lite/core/CanFrameTransport.cpp:29-38 | Nothing queued, nothing sent |
| `CanFrameTransport.CanFrameTransport.SendRawFrame` | can-lite/core/CanFrameTransport.cpp:63-76 | Sends at once when nothing is being sent, otherwise queues or refuses; a notification exactly for taken frames |
| `CanFrameTransport.CanFrameTransport.Enqueue` | can-lite/core/CanFrameTransport.cpp:83-90 | Emergency and ordinary frames each under their own rule |
| `CanFrameTransport.CanFrameTransport.EnqueueOrdinary` | can-lite/core/CanFrameTransport.cpp:92-108 | Takes a place, displaces a less urgent ordinary frame, or is refused and counted |
| `CanFrameTransport.CanFrameTransport.EnqueueEmergency` | can-lite/core/CanFrameTransport.cpp:110-126 | Takes a place, displaces an ordinary frame, or is refused and counted |
| `CanFrameTransport.CanFrameTransport.DisplaceNewestLeastUrgent` | can-lite/core/CanFrameTransport.cpp:128-135 | The last queued frame is evicted, counted and reported failed |
| `CanFrameTransport.CanFrameTransport.Insert` | can-lite/core/CanFrameTransport.cpp:137-147 | Appending and rotating inserts behind frames at least as urgent |
| `CanFrameTransport.CanFrameTransport.CountOrdinary` | can-lite/core/CanFrameTransport.cpp:149-155 | The number of ordinary frames queued |
| `CanFrameTransport.CanFrameTransport.Transmit` | can-lite/core/CanFrameTransport.cpp:157-166 | The current frame is handed to the driver |
| `CanFrameTransport.CanFrameTransport.OnSendComplete` | can-lite/core/CanFrameTransport.cpp:168-176 | Retries an emergency frame, or starts the next frame and reports the finished one, once |
| `CanFrameTransport.CanFrameTransport.RetryCurrent` | can-lite/core/CanFrameTransport.cpp:178-199 | Another attempt exactly for a failed emergency frame within its limit |
| `CanFrameTransport.CanFrameTransport.SendNextQueued` | can-lite/core/CanFrameTransport.cpp:201-213 | The head of the queue becomes current; without one nothing is current |
| `CanProtocolClient.CanProtocolClient.constructor` | can-lite/client/CanProtocolClient.cpp:10-27 | Eight free slots |
| `CanProtocolClient.CanProtocolClient.ClaimSequenceSlot` | can-lite/client/CanProtocolClient.cpp:192-205 | The slot of the node, else a free one, else the next in turn |
| `CanProtocolClient.CanProtocolClient.ReserveSequence` | can-lite/client/CanProtocolClient.cpp:146-161 | The number is the slot counter, zero for a new node; the timer runs for this node |
| `CanProtocolClient.CanProtocolClient.CancelReservation` | can-lite/client/CanProtocolClient.cpp:163-178 | Slot, timer and eviction index as recorded by the reservation |
| `CanProtocolClient.CanProtocolClient.ReturnSequence` | can-lite/client/CanProtocolClient.cpp:180-190 | The counter steps back only if the number was the last given out |
| `CanProtocolClient.CanProtocolClient.HandleCommandAckFrame` | can-lite/client/CanProtocolClient.cpp:246-262 | Only acknowledgements of four bytes or more from a real node change anything; a sequence error sets the counter |
| `CanProtocolClient.CanProtocolClient.ResyncSequence` | can-lite/client/CanProtocolClient.cpp:264-274 | The counter of the node, if it has a slot |
| `CanProtocolClient.CanProtocolClient.ClearAwaitingAck` | can-lite/client/CanProtocolClient.cpp:276-288 | Only the matching outstanding command is cleared |
| `CanProtocolClient.CanProtocolClient.AckTimerFires` | can-lite/client/CanProtocolClient.cpp:207-213 | The command of the slot whose timer fired is reported, once, and nothing else changes |
| `CanProtocolClient.CanProtocolClient.HandleCommandAckTimeout` | can-lite/client/CanProtocolClient.cpp:290-306 | The outstanding command of the node is reported and cleared |
| `CanCategory.CanCategoryClient.SendCommand` | can-lite/core/CanCategory.cpp:129-147 | True exactly when payload and number fit a frame and the transport takes it; table, queue, transmission and callback are those of the composed specification |
| `CanCategory.CanCategoryClient.Transmit` | can-lite/core/CanCategory.cpp:142-143 | The callback of an evicted frame has run when the call returns |
| `CanCategory.CanCategoryClient.RunCallback` | can-lite/core/CanCategory.cpp:136-140 | Only a failed send returns its number |
| `CanProtocolServer.CanProtocolServer.constructor` | can-lite/server/CanProtocolServer.cpp:26-51 | Only the system category, not initialised, offline |
| `CanProtocolServer.CanProtocolServer.ProcessReceivedMessage` | can-lite/server/CanProtocolServer.cpp:138-156 | Address, budget, segmentation layer, admission, dispatch in that order; new state, acknowledgement and notification are those of the pipeline |
| `CanProtocolServer.CanProtocolServer.DispatchPdu` | can-lite/server/CanProtocolServer.cpp:126-136 | A PDU goes through the same pipeline without a budget |
| `CanProtocolServer.CanProtocolServer.RunPipeline` | can-lite/server/CanProtocolServer.cpp:164-222 | Committing the sequence before the handler and restoring it after a refusal equals never having committed |
| `CanProtocolServer.CanProtocolServer.AdmitCommand` | can-lite/server/CanProtocolServer.cpp:164-190 | Discarded, refused with its status, or admitted to its category; admission changes nothing |
| `CanProtocolServer.CanProtocolServer.LookUp` | can-lite/server/CanProtocolServer.cpp:224-233 | The first category with the identifier |
| `CanProtocolServer.CanProtocolServer.CheckAndIncrementRate` | can-lite/server/CanProtocolServer.cpp:288-294 | Each kind of frame is charged to its own budget, refusals counted |
| `CanProtocolServer.CanProtocolServer.SendRejection` | can-lite/server/CanProtocolServer.cpp:218-222 | One acknowledgement with the status and expected number |
| `CanProtocolServer.CanProtocolServer.MarkClientAlive` | can-lite/server/CanProtocolServer.cpp:325-340 | Online is told only when the client was offline |
| `CanProtocolServer.CanProtocolServer.HandleClientTimeout` | can-lite/server/CanProtocolServer.cpp:342-352 | Offline is told only when the client was online |
| `CanProtocolServer.CanProtocolServer.ResetRateCounter` | can-lite/server/CanProtocolServer.cpp:282-286 | Both budgets are full again |
| `ServerHeartbeat.ServerHeartbeat.SendHeartbeat` | can-lite/server/CanProtocolServer.cpp:248-263 | Nothing while one is pending; otherwise the flag follows the transport |
| `ServerHeartbeat.ServerHeartbeat.OnSendComplete` | can-lite/server/CanProtocolServer.cpp:257-260 | The callback of a finished heartbeat clears the flag |
| `ServerHeartbeat.ServerHeartbeat.SendFrame` | can-lite/server/CanProtocolServer.cpp:240-246 | Other frames may evict the heartbeat, which clears the flag |
| `ServerLiveness.ServerLiveness.constructor` | can-lite/client/CanProtocolClient.cpp:10-27 | Eight free slots, nothing told |
| `ServerLiveness.ServerLiveness.MarkServerAlive` | can-lite/client/CanProtocolClient.cpp:326-375 | Known node: timer only; new node: Online; ninth node: Offline for the one replaced, then Online |
| `ServerLiveness.ServerLiveness.Replace` | can-lite/client/CanProtocolClient.cpp:356-374 | The slot in turn changes its node and tells both |
| `ServerLiveness.ServerLiveness.TimeoutTimerFires` | can-lite/client/CanProtocolClient.cpp:377-390 | The slot whose timer fired is freed and Offline told for its node |
| `ServerLiveness.ServerLiveness.HandleServerTimeout` | can-lite/client/CanProtocolClient.cpp:377-390 | Frees the slot of the node, if it has one, and tells Offline |
| `Slcan.SlcanDecoder.Feed` | can-lite/drivers/codec/SlcanCodec.cpp:132-152 | One character: an item at a terminator, discarding after 64 characters |
| `Slcan.SlcanDecoder.Reset` | can-lite/drivers/codec/SlcanCodec.cpp:154-158 | As new |
| `Slcan.SlcanDecoder.ParseLine` | can-lite/drivers/codec/SlcanCodec.cpp:160-170 | Acknowledgement, frame or nothing |

## Left out

- Re-entrancy: a driver that completes a send inside SendData, a handler that causes another receive before it returns, and callbacks that call back into the component that runs them; completions are events of their own, except that a refused ISO-TP frame fails inside the call that handed it over.
- Real time: timers are armed or not and may fire whenever armed; deadlines are kept only for acknowledgement timers.
- Epochs: runs of sender and receiver assume fewer than 256 epochs between handing a frame over and its completion.
- IsoTpLinkStarts.SplicesExactlyWhenExposed: the exact condition is for block size 0, the default of the code; for other block sizes only that starts that are not exposed are safe, because whether an exposed one can splice depends on how many grants are in flight and how far into its block the open reception is.
- IsoTpLinkSafety.LossyLinkIsSafe: covers runs whose starts are harmless, which the theorem above shows to be necessary for block size 0.
- IsoTpReceiver.ReactRefines: the block size stays as it is during a reception, as in the transport, which sets it when a connection opens; what a changed one does is BlockCountsDown.
- GsUsbBitTiming.ComputeBitTiming: compares sample points as exact fractions where the source compares doubles, and assumes constants that DecodeBitTimingConstants accepts and prescaler and segment sums within 32 bits, because the loop counter of the source would wrap otherwise.
- SequenceExchange.ExchangeResynchronises: assumes a lossless exchange of a command of a validated category within the budget, and that handlers leave the sequence error status to the server.
- SequenceExchange.InStepForever: other traffic of the client may not take over the slot of this server, which cannot happen with at most eight servers.
- CanProtocolServer.CanProtocolServer.ProcessReceivedMessage: does not model 11-bit identifiers, which the source ignores; the segmentation layer's claim on the frame and the handler's verdict are parameters.
- RegisterCategory and UnregisterCategory: a run may change the list of categories in any way instead.
- The notification of sends that restarts the heartbeat timers, the client's own heartbeat and category discovery: timers without further state.
- The labels of ISO-TP PDUs and aborts passed to the application: an identifier added by the channel.
- gs_usb frame encoding, payload reader and writer, fixed-point conversion: byte layouts without state.
- Firmware upgrade, system and motor categories, adapters for operating systems and vendors, tracing, observers: application state and plumbing.
