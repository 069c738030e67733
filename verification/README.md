# A verified model of the tunnel's transport core

The repository carries a byte stream reliably over UDP. This project models its transport core in `tunnel/` and
proves what that core promises: the selective-repeat protocol end to end, and the components it stands on.

Each stateful component has a value model (a datatype and the functions that update it), a class whose methods do
what the original does, step by step and in place, and are proved equal to those functions, and lemmas about the
functions. The protocol is a state machine of thirty actions, one per lock region of the original, built from the
same functions; its theorems hold in every reachable state of every run. Every source line below is relative to the
repository.

What is proved, hardest first:

1. **The session** (`Arq`, `ArqInvariant`, `ArqTheorems`, `ArqProgress`): the pump with its changing record cap, window waits,
   sequence and packet numbers, retention, transmit queue, both repair paths, a network that loses, duplicates,
   delays and reorders, the replay filter with rollback, ordered delivery, selective acknowledgements and credit.
   In every run the receiver's output is a prefix of the sender's input, no genuine record is ever refused by an open
   receiver, nothing selectively acknowledged is lost, nothing unacknowledged is forgotten, dropped replays lose
   nothing, and no frame is rescheduled more than fifteen times. Each operation also acts whenever it should: the next
   record is handed over, an overdue frame is rescheduled, only frames sent once are measured.
2. **Its parts**: the bitmap replay filter as a set (`Replay`), the unacknowledged map with its watermark
   (`Outstanding`, and frame by frame `OutstandingMeaning`), ordered delivery (`Delivery`), the SACK codec (`Sack`), the congestion window (`SendFlow`), the
   timeout estimator (`RttEstimator`), feedback coalescing (`AckCoalescer`), the sending pump as a loop (`Uplink`).
3. **Forward error correction** (`FecFrame`, `FecShards`, `FecSender`, `FecReceiver`, `FecTheorems`): for every codec
   in which any k shards determine the data, a rebuilt record is the record that was sent, in every run.
4. **The in-memory pipe** (`ChunkPipe`, `ChunkPipeSteps`): conservation of bytes and no lost wakeup, over every
   interleaving of one reader and one writer per direction.
5. **Algorithms**: message framing (`Framing`), the glob matcher (`Glob`), port sets, their text form and random
   choice from them (`PortRange`, `PortSpec`, `PortPick`).

Where the code does less than its comments or names suggest, the code is modelled and the exact condition is proved:

- `wildcardMatch` decides the usual meaning of `*` and `?` for every pattern exactly when the subject holds no `*`
  (`Glob.ExactIffStarFree`).
- A coalesced acknowledgement leaves before the peer's timeout exactly when the smoothed round trip is at most 9.9 s
  and either it is at least 1 ms or its variation is at least a quarter of that (`RttEstimator.AckBeatsTimeout`); the
  comment at tunnel/session_transport.go:21-26 says always.
- `ackCoalescer` loses an advance exactly when an authorised claim is smaller than the one held back, when the write
  behind an authorised claim, flush or commit fails before the peer was told, or when a claim meets a watermark such a
  failed write had raised (`AckCoalescer.ForgetsExactly`). A claim is committed before its write, so a failed write
  does not leave it uncommitted as the comment at tunnel/client.go:1779-1783 has it: the advance is gone
  until an urgent claim or a larger advance (`AckCoalescer.FailedWriteForgets`, `AckCoalescer.AnnouncedIsNotRepeated`).
- `MessageAssembler.Feed` computes the end of a message in 32 bits: it panics on a message longer than 0xFFFFFFFB bytes,
  and never does exactly when the limit is at most that (`Framing.PanicsExactly`, `Framing.SafeLimitExactly`).
- An oversized prefix, or that panic, drops the messages its own call had already completed
  (`Framing.DeliveredBeforeBreak`).
- `undoLoss` also restores the slow-start threshold, against the comment at tunnel/recovery.go:346-348.
- The special case for whole-word slides computes what the general shift would (`Replay.WholeWordSlide`); it is not
  needed for correctness as the comment at tunnel/server.go:421-426 has it.

Modelling choices. Records are authenticated, so only sealed records arrive and a packet number fixes its record. The
network is the set of records ever sent; it never forgets one. Clock readings, round-trip and bandwidth estimates, the
wanted parity, random numbers, the order of map walks and the success of writes are inputs of the step that reads
them. One direction of a session is modelled; the feedback direction's own replay filter is dropped, which only adds
behaviours. A record rebuilt from parity enters the session as the filed one, which `FecTheorems.RecoveredIsSent`
justifies. Machine words are sequences of 64 bits. Integers are unbounded where the original cannot reach the limit
of its type; where it can, the limit is explicit. The receiver's limit is the negotiated width: the server takes the
lesser of it and its own queue bound (tunnel/server.go:1410), which tunnel/server.go:885 fixes at 4096.

## Model

| member | source | states |
|---|---|---|
| `ArqTheorems.RunInv` | tunnel/client.go:1290-1577 | every state of every run satisfies the whole invariant |
| `ArqTheorems.StreamSafety` | tunnel/delivery.go:120-225 | in every reachable state the bytes written are a prefix of the bytes read; the writes, record by record, are a prefix of the filed payloads and between writes exactly those of sequences 1 to delivered, in order, each once; bytes read are the filed payloads followed by what the pump holds |
| `ArqTheorems.AdmissionNeverRefuses` | tunnel/delivery.go:129-145 | every data record in flight is at most the limit above the delivered prefix and an open receiver admits it |
| `ArqTheorems.SenderRetains` | tunnel/client.go:1410-1519 | every filed sequence above the delivered prefix is still in the unacknowledged map with its payload, and the watermark is an existing key not above it |
| `ArqTheorems.NeverReneges` | tunnel/recovery.go:476-503 | a frame marked selectively acknowledged is buffered or delivered at the peer until it closes |
| `ArqTheorems.NothingStranded` | tunnel/recovery.go:577-594 | a filed sequence the open peer lacks is retained, unmarked, and either waits for a timeout or is on its way through the transmit queue |
| `ArqTheorems.ReplayLosesNothing` | tunnel/server.go:1129-1158 | a data packet number the filter holds as accepted is being processed, or its sequence is buffered or delivered |
| `ArqTheorems.FreshFeedbackAccepted` | tunnel/recovery.go:448-465 | genuine feedback newer than the last is accepted once anything was sent |
| `ArqTheorems.WindowWithinLimit` | tunnel/recovery.go:154-170 | window, congestion window and maximum never exceed what the peer buffers, and neither does the number of outstanding frames |
| `ArqTheorems.SackRoundTrip` | tunnel/recovery.go:448-484 | snapshot, encode, decode and mark: accepted feedback marks exactly the outstanding frames buffered at the snapshot and records its credit |
| `ArqTheorems.FastRepairsOldest` | tunnel/recovery.go:485-536 | feedback that reports three sequences or more schedules every repairable hole up to three, unmarked and unqueued, ascending, passing over only newer ones; other feedback schedules nothing |
| `ArqTheorems.StepBudget` | tunnel/recovery.go:496-624 | each step schedules a sequence at most once, only while retained and within its retries, with half as long a timeout again up to 10 s; otherwise its timeout stays; once sent, its first sending is remembered; it is filed once |
| `ArqTheorems.RepairBudget` | tunnel/recovery.go:496-624 | over a run both repair paths together schedule a sequence at most 15 times, and a retained frame carries the exact count |
| `ArqTheorems.TimeoutNeverShrinks` | tunnel/recovery.go:574-624 | over a run the timeout of a retained frame never shrinks and never passes 10 s |
| `ArqProgress.HandsOverNext` | tunnel/delivery.go:190-214 | whenever the next record in order is buffered and the writer idle, it is taken with its filed payload, and writing and booking it deliver exactly one more record |
| `ArqProgress.HandsOverOnlyNext` | tunnel/delivery.go:191-198 | nothing is taken when the next record is missing, the inbox closed or a write under way |
| `ArqProgress.AdmitsExactly` | tunnel/client.go:1410-1413 | a waiting record goes on exactly when the outstanding frames are fewer than congestion window and credit |
| `ArqProgress.RescheduledGivesNoSample` | tunnel/client.go:1461-1485 | over a run, acknowledging a sequence either repair path ever rescheduled moves neither the timeout estimate nor the round-trip floor |
| `ArqProgress.SentOnceGivesItsSample` | tunnel/client.go:1461-1485 | over a run, acknowledging a retained sequence never rescheduled gives both exactly the time since it was first sent |
| `ArqProgress.OverdueIsRescheduled` | tunnel/recovery.go:574-624 | a frame past its own timeout, neither marked nor queued, is rescheduled by the next pass unless 64 older ones are or the session is given up |
| `ArqProgress.WithinTimeoutIsLeft` | tunnel/recovery.go:579-589 | a frame within its timeout is left alone |
| `ArqProgress.FeedbackRises` | tunnel/recovery.go:453-474 | over a run accepted feedback carries strictly rising packet numbers |
| `ArqProgress.AdmittedIsFiled` | tunnel/client.go:1419-1442 | an admitted record is numbered, sealed and filed under the next numbers with its own payload |
| `ArqProgress.FiledIsSent` | tunnel/client.go:1448-1451 | a filed record is queued and put on the wire |
| `ArqProgress.ArrivalIsAccepted` | tunnel/server.go:1129-1143 | a record whose number is new to the window is let in |
| `ArqProgress.AcceptedIsHeld` | tunnel/delivery.go:120-163 | a record let in is then delivered already or buffered with its filed payload, in an open inbox |
| `ArqProgress.RolledBackIsFree` | tunnel/server.go:1147-1158 | a rolled-back number can be accepted again |
| `ArqProgress.DeliveredIsReleased` | tunnel/client.go:1461-1519 | acknowledging what was delivered releases exactly that from the map |
| `ArqInvariant.StepKeeps` | tunnel/client.go:1290-1577 | every action keeps the whole invariant |
| `ArqInvariant.InitInv` | tunnel/recovery.go:154-164 | a new session satisfies the invariant |
| `ArqInvariant.ReadKeeps` | tunnel/client.go:1333-1336 | reading more bytes into the accumulator keeps the invariant |
| `ArqInvariant.ChunkKeeps` | tunnel/client.go:1383-1392 | cutting a record at any cap keeps it: no byte is lost or moved |
| `ArqInvariant.AdmitKeeps` | tunnel/client.go:1405-1417 | passing the window wait keeps it: the admitted frame fits the peer |
| `ArqInvariant.NumberKeeps` | tunnel/client.go:1419 | allocating a sequence number keeps it |
| `ArqInvariant.SealKeeps` | tunnel/client.go:1420-1427 | allocating a packet number keeps it: numbers are given once |
| `ArqInvariant.FileKeeps` | tunnel/client.go:1429-1442 | retaining the sealed record keeps it: the map is exactly the filed, unacknowledged range |
| `ArqInvariant.TransmitKeeps` | tunnel/transmit.go:54-90 | writing a batch keeps it: only released records reach the wire |
| `ArqInvariant.MarkSentKeeps` | tunnel/transmit.go:92-106 | marking a batch transmitted keeps it, including where queued frames are |
| `ArqInvariant.ApplyAckKeeps` | tunnel/client.go:1461-1519 | a cumulative acknowledgement keeps it |
| `ArqInvariant.ApplySackKeeps` | tunnel/client.go:1925-1936 | feedback, accepted or not, keeps it |
| `ArqInvariant.TimeoutKeeps` | tunnel/client.go:1521-1577 | a retry pass, abandoning or not, keeps it |
| `ArqInvariant.ArriveKeeps` | tunnel/server.go:1129-1143 | an arrival, replayed or new, keeps it |
| `ArqInvariant.OfferDataKeeps` | tunnel/client.go:771-777 | offering a record and refusing it keeps it |
| `ArqInvariant.RollbackKeeps` | tunnel/server.go:1147-1158 | rolling a refused number back keeps it |
| `ArqInvariant.OfferRecoveredKeeps` | tunnel/client.go:1898-1910 | offering a rebuilt record keeps it |
| `ArqInvariant.WriteBeginKeeps` | tunnel/delivery.go:190-198 | taking the next payload to write keeps it |
| `ArqInvariant.WriteFailKeeps` | tunnel/delivery.go:205-210 | a write that fails part-way keeps it |
| `ArqInvariant.CompleteKeeps` | tunnel/delivery.go:211-214 | counting a written payload as delivered keeps it |
| `ArqInvariant.CloseKeeps` | tunnel/delivery.go:227-233 | closing at any moment keeps it |
| `ArqInvariant.SnapshotKeeps` | tunnel/delivery.go:165-181 | a snapshot tells the truth, and goes on telling it |
| `Replay.ReplayFilter.constructor` | tunnel/server.go:374-379 | a new filter stands for the empty set |
| `Replay.ReplayFilter.Seen` | tunnel/server.go:381-398 | answers as the set of accepted numbers does |
| `Replay.ReplayFilter.Accept` | tunnel/server.go:400-459 | succeeds exactly for a nonzero number less than 4096 behind the maximum and not accepted; the bitmap then stands for the larger set |
| `Replay.ReplayFilter.AcceptAhead` | tunnel/server.go:410-441 | a number above the maximum slides or clears the bitmap and is accepted |
| `Replay.ReplayFilter.AcceptBehind` | tunnel/server.go:442-452 | a number behind the maximum is accepted once while in the window |
| `Replay.ReplayFilter.Remove` | tunnel/server.go:463-474 | takes exactly that number out of the set |
| `Replay.ReplayFilter.Slide` | tunnel/server.go:415-436 | the loop slides the array by the distance, in steps of at most a word |
| `Replay.SlideBySlides` | tunnel/server.go:415-436 | sliding by any distance moves every bit by that distance, across words, and fills with zeros |
| `Replay.WholeWordSlide` | tunnel/server.go:420-433 | the general shift formula at 64 equals moving whole words |
| `Replay.Answers` | tunnel/server.go:374-482 | every sequence of calls to a new filter is answered as a plain set would |
| `Replay.AcceptedOnce` | tunnel/server.go:400-459 | an accepted number is never accepted again unless it was removed |
| `Outstanding.SendBuffer.Add` | tunnel/client.go:1429-1442 | files a frame; the watermark still bounds every key |
| `OutstandingMeaning.FiledFrame` | tunnel/client.go:1429-1442 | a new frame is queued, unmarked, unretried, with the timeout in force; nothing else changes |
| `Outstanding.SendBuffer.HandleAck` | tunnel/client.go:1461-1519 | walking from the watermark equals the full scan: exactly the keys up to the acknowledgement go, with sample, credit and undo; the watermark still bounds every key |
| `OutstandingMeaning.AckedFrames` | tunnel/client.go:1461-1519 | an acknowledgement removes exactly what it covers, or is ignored |
| `OutstandingMeaning.AckedSample` | tunnel/server.go:2024-2037 | only a frame sent once and out of the queue gives a sample, the time since it was sent |
| `OutstandingMeaning.AckedWindow` | tunnel/server.go:2042-2080 | the cut is undone exactly when a covered frame was retransmitted less than a smoothed round trip ago, then the window grows by what is covered |
| `Outstanding.SendBuffer.DropThrough` | tunnel/server.go:2042-2061 | removes exactly the covered keys, counts them, and retracts a cut if any of them proves a timeout spurious |
| `Outstanding.SendBuffer.MoveWatermark` | tunnel/server.go:2062-2077 | the watermark becomes the least remaining key |
| `Outstanding.UndoStep` | tunnel/recovery.go:373-381 | undoing for each covered frame equals undoing once if any is spurious |
| `Outstanding.SendBuffer.UpdateSack` | tunnel/recovery.go:448-547 | accepts exactly well-shaped, in-range, newer feedback; changes nothing otherwise; marks, takes credit and returns the wires of the repaired holes |
| `OutstandingMeaning.SackedWindow` | tunnel/recovery.go:448-475 | feedback is accepted exactly when well shaped, newer and about sequences sent; it sets number and credit, up to 4096, or changes nothing |
| `OutstandingMeaning.SackedFrame` | tunnel/recovery.go:476-536 | exactly the reported frames are newly marked; a frame is rescheduled or keeps its times |
| `OutstandingMeaning.FastRepairsExactly` | tunnel/recovery.go:485-536 | with three reports or more, exactly the holes in reach that are old enough, by 5 ms, a quarter round trip and a quarter of a retried timeout, are rescheduled, unless three older ones are |
| `OutstandingMeaning.ReportCountMeaning` | tunnel/recovery.go:458-465 | the count is the number of sequences reported |
| `Outstanding.Validate` | tunnel/recovery.go:456-465 | accepts a bitmap exactly when every reported sequence was sent, and counts the reports |
| `Outstanding.SendBuffer.MarkReports` | tunnel/recovery.go:476-484 | marks exactly the reported outstanding frames |
| `Outstanding.SendBuffer.FindHoles` | tunnel/recovery.go:496-521 | finds the three oldest repairable holes in reach of the bitmap |
| `Outstanding.SendBuffer.Repair` | tunnel/recovery.go:525-536 | reschedules exactly the picked frames and returns their wires in order |
| `Outstanding.SendBuffer.RetryDue` | tunnel/recovery.go:574-624 | abandons without changing anything, or reschedules the 64 lowest expired frames whatever the map order; sleeps no longer than any waiting frame allows, and no shorter than a frame, a probe or the idle limit asks |
| `OutstandingMeaning.AbandonedExactly` | tunnel/recovery.go:579-594 | the session is given up exactly when a frame past its own timeout has had its 15 retries, and then nothing changes |
| `OutstandingMeaning.RetriedFrame` | tunnel/recovery.go:579-616 | otherwise exactly the frames past their own timeout are rescheduled, unless 64 older ones are, with one more retry and half as long a timeout again |
| `OutstandingMeaning.RetriedWindow` | tunnel/recovery.go:595-622 | the window is cut exactly when something was overdue, and the probe clock restarts exactly when the credit is zero or something is marked |
| `Outstanding.SendBuffer.CollectDue` | tunnel/recovery.go:577-605 | one pass in any order, a sort and a cut give the 64 lowest expired sequences |
| `Outstanding.SendBuffer.Probing` | tunnel/session_transport.go:158-176 | computes the credit probe interval |
| `OutstandingMeaning.ProbeMeaning` | tunnel/session_transport.go:158-176 | 25 ms while a gap lies below something marked, 100 ms otherwise |
| `Outstanding.SendBuffer.OnTransmitted` | tunnel/transmit.go:92-106 | stamps exactly the frames a batch carries |
| `OutstandingMeaning.TransmittedFrame` | tunnel/transmit.go:92-106 | a carried frame leaves the queue and is sent now, the first time also starting its measurement; others stay |
| `Delivery.OrderedDelivery.constructor` | tunnel/delivery.go:102-109 | a new inbox is empty |
| `Delivery.OrderedDelivery.OfferObserved` | tunnel/delivery.go:120-163 | admits, recognises duplicates and asks for feedback exactly as its fields say; buffers exactly a new payload; keeps the inbox valid |
| `Delivery.OrderedDelivery.Snapshot` | tunnel/delivery.go:165-181 | the bitmap has exactly the bits of the buffered sequences within the limit; the credit is the free room |
| `Delivery.OrderedDelivery.Next` | tunnel/delivery.go:191-198 | the payload right after the delivered prefix, exactly when it is buffered and the inbox open |
| `Delivery.OrderedDelivery.Done` | tunnel/delivery.go:211-214 | moves that payload from buffered to delivered |
| `Delivery.OrderedDelivery.Shut` | tunnel/delivery.go:227-233 | closing empties the buffer |
| `Delivery.RefusedIff` | tunnel/delivery.go:129-145 | a valid inbox refuses a sequence exactly when it is zero, closed, or more than the limit ahead: room never runs out |
| `Delivery.CompleteValid` | tunnel/delivery.go:211-214 | delivering the next payload keeps the inbox valid |
| `Delivery.CreditFits` | tunnel/delivery.go:165-181 | the credit is between 0 and 4096 |
| `Sack.EncodeWords` | tunnel/recovery.go:38-49 | the loops write the credit and the words up to the last non-zero one |
| `Sack.WordRoundTrip` | tunnel/recovery.go:38-49 | a word survives its eight big-endian bytes |
| `Sack.EncodeDecodes` | tunnel/recovery.go:38-49 | decoding gives the credit and a prefix of the words; only zero words are missing |
| `Sack.SnapshotRoundTrip` | tunnel/session_transport.go:393-405 | for 8 or 64 words, the encoded snapshot claims exactly the buffered sequences |
| `SendFlow.Sender.constructor` | tunnel/recovery.go:154-164 | a new window is the initial one, capped by what the peer buffers |
| `SendFlow.NewFlowMeaning` | tunnel/recovery.go:154-164 | maximum, initial window of 256, threshold and credit of a new flow |
| `SendFlow.Sender.ObserveSample` | tunnel/recovery.go:172-181 | a positive sample leaves the round-trip floor positive, at most the sample and at least the lesser of sample and old floor; any other sample leaves it |
| `SendFlow.FloorFollowsSamples` | tunnel/recovery.go:172-181 | over every run the floor lies between the least sample and the latest, and is unset exactly while there was none |
| `SendFlow.FloorStep` | tunnel/recovery.go:172-181 | only samples move the floor: at once down to one, or up by a 64th of the way |
| `SendFlow.Sender.OnAcknowledged` | tunnel/recovery.go:218-236 | slow start and additive growth |
| `SendFlow.SlowStartGrows` | tunnel/recovery.go:227-230 | below the threshold the window grows by exactly the frames acknowledged, up to the maximum |
| `SendFlow.PartWindowWaits` | tunnel/recovery.go:231-235 | at or above it, less than a window of acknowledgements only counts |
| `SendFlow.FullWindowGrowsByOne` | tunnel/recovery.go:231-235 | completing a window raises it by one, up to the maximum, carrying the excess |
| `SendFlow.RestartGrows` | tunnel/recovery.go:220-230 | with a restart pending the window climbs as in slow start up to the restart point |
| `SendFlow.Sender.OnLoss` | tunnel/recovery.go:262-318 | cuts at most once per round trip, gently for a random loss |
| `SendFlow.LossExactly` | tunnel/recovery.go:262-318 | a loss too close to the last does nothing; a random one keeps the window or cuts it to three quarters; any other halves it; threshold and restart point follow |
| `SendFlow.Sender.Undo` | tunnel/recovery.go:349-364 | retracts the remembered cut, once |
| `SendFlow.UndoExactly` | tunnel/recovery.go:349-364 | undoing restores the window and lifts the threshold to what it was at the cut |
| `SendFlow.LossBounds` | tunnel/recovery.go:262-318 | a loss never raises the window nor cuts below half, or three quarters on an uncongested path in Westwood mode; it remembers the old window exactly when undoable |
| `SendFlow.UndoBounds` | tunnel/recovery.go:349-364 | an undo lifts the window to its value before the cut at most, and undoing again changes nothing |
| `SendFlow.UndoInvertsLoss` | tunnel/recovery.go:262-364 | undoing right after an undoable loss restores the window, and the threshold when it was not below the window |
| `SendFlow.WindowAlwaysSound` | tunnel/recovery.go:154-364 | over every sequence of samples, acknowledgements, losses, undos and credits the window stays between min(2, max) and max, which stays within the peer limit |
| `SendFlow.UndoRestoresLatestCut` | tunnel/recovery.go:262-364 | over every run an effective undo restores the window to its value before the latest undoable loss, which no undo has used |
| `RttEstimator.Estimator.Sample` | tunnel/rtt_estimator.go:60-102 | updates the smoothed time, the variation and the timeout |
| `RttEstimator.SampleMeaning` | tunnel/rtt_estimator.go:60-102 | the first sample sets both averages; a later one takes the smoothed time exactly an eighth of the way, the variation a quarter; the timeout follows from both |
| `RttEstimator.SteadySamplesConverge` | tunnel/rtt_estimator.go:60-102 | equal samples shrink the gap to the smoothed time by an eighth each |
| `RttEstimator.CoalesceMeaning` | tunnel/session_transport.go:27-36 | the coalescing delay is half the smoothed time between 1 ms and 100 ms |
| `RttEstimator.TimeoutBounds` | tunnel/rtt_estimator.go:60-102 | after any samples the timeout is between 1 ms and 10 s and at least twice the smoothed time, up to the maximum |
| `RttEstimator.SmoothedInHull` | tunnel/rtt_estimator.go:60-102 | the smoothed time stays within any bounds the samples respect |
| `RttEstimator.AckBeatsTimeout` | tunnel/session_transport.go:21-36 | smoothed time plus coalescing delay fits the timeout exactly under the stated condition |
| `RttEstimator.SteadyFastPathIsLate` | tunnel/session_transport.go:27-36 | a steady path under 1 ms breaks it |
| `RttEstimator.SlowPathIsLate` | tunnel/session_transport.go:27-36 | so does a path above 9.9 s |
| `AckCoalescer.AckCoalescer.CommitSent` | tunnel/session_transport.go:65-77 | raises the watermark and drops what it covers |
| `AckCoalescer.AckCoalescer.CommitSentBatch` | tunnel/session_transport.go:82-93 | commits the largest acknowledgement of a batch |
| `AckCoalescer.AckCoalescer.ClaimFeedback` | tunnel/session_transport.go:106-124 | authorises or defers one datagram |
| `AckCoalescer.AckCoalescer.FlushDue` | tunnel/session_transport.go:130-145 | releases a deferred advance when its time has come and says how long to wait otherwise |
| `AckCoalescer.WatermarkIsAnnounced` | tunnel/session_transport.go:53-153 | over any run the watermark is the highest value taken for sent, never less than what was written; what is held back is above it and was asked for |
| `AckCoalescer.WatermarkToldExactly` | tunnel/session_transport.go:53-153 | all along a run the watermark is what was written exactly when no write failed that would have raised it |
| `AckCoalescer.NoWaste` | tunnel/session_transport.go:106-145 | a datagram that is not urgent carries more than was ever announced, hence something new |
| `AckCoalescer.Spaced` | tunnel/session_transport.go:106-145 | a datagram that is not urgent leaves at least one interval after every earlier one |
| `AckCoalescer.ForgetsExactly` | tunnel/session_transport.go:65-153 | no advance is ever lost in a run exactly when no authorised claim is below the one held back, no write fails of something the peer was not told, and no claim meets a watermark beyond what was written |
| `AckCoalescer.OrderedForgetsNothing` | tunnel/session_transport.go:106-145 | while writes succeed, nondecreasing claims lose nothing |
| `AckCoalescer.ReorderedClaimsForget` | tunnel/session_transport.go:106-124 | a run of three written claims that loses an advance |
| `AckCoalescer.FailedWriteForgets` | tunnel/client.go:1815-1832 | one authorised claim whose write fails loses its advance, with nothing held back |
| `AckCoalescer.AnnouncedIsNotRepeated` | tunnel/session_transport.go:106-145 | after an announcement, written or not, only an urgent claim or a larger advance is emitted |
| `AckCoalescer.FlushCatchesUp` | tunnel/session_transport.go:130-145 | a written flush tells everything asked for, or names a wait within the interval after which a written flush does |
| `AckCoalescer.FailedFlushForgets` | tunnel/session_transport.go:130-145 | a due flush whose write fails loses what it was to send |
| `Uplink.SendData` | tunnel/client.go:1383-1392 | records shipped plus the rest are the payload, each record cut at the cap of its own moment, only the last one shorter; it stops only when done or refused |
| `Uplink.Receive` | tunnel/client.go:1333-1347 | a read joins the accumulator, which is shipped exactly when it fills the current cap |
| `Uplink.LocalToRemote` | tunnel/client.go:1290-1376 | for every script of read outcomes and every change of cap, records shipped plus the accumulator are the bytes read, the accumulator leaves room, a timeout empties it, and the pump stops only on a broken read or a refusal |
| `FecFrame.ApplyToFrame` | tunnel/fec.go:234-266 | packs exactly the metadata that fits, clearing the old |
| `FecFrame.MetadataRoundTrip` | tunnel/fec.go:234-308 | block metadata survives the header, standard or extended, whatever the other flags |
| `FecFrame.OtherFlagsStay` | tunnel/fec.go:245-264 | packing changes no flag outside the metadata bits |
| `FecShards.FillShard` | tunnel/fec.go:566-571 | writes length, payload and zero padding |
| `FecShards.ShardRoundTrip` | tunnel/fec.go:811-823 | the payload reads back from its padded shard |
| `FecSender.FecSender.Add` | tunnel/fec.go:417-462 | extends, breaks or completes the pending block |
| `FecSender.FecSender.FlushTimer` | tunnel/fec.go:477-489 | a stale timer does nothing; a current one detaches the block |
| `FecSender.FecSender.EmitBlock` | tunnel/fec.go:499-600 | encodes a consecutive block that fits and tags its parity |
| `FecSender.FecSender.Close` | tunnel/fec.go:602-618 | drops the pending block, once |
| `FecSender.ParityCount` | tunnel/fec.go:532-559 | parity is the wanted amount, one at least while bootstrapping, but never above the block size less one nor the negotiated maximum |
| `FecSender.AddedKeeps` | tunnel/fec.go:417-462 | pending and detached blocks are consecutive, at most eight, with the recorded payloads |
| `FecSender.AddedConserves` | tunnel/fec.go:430-456 | no added record is dropped or duplicated between pending and detached blocks |
| `FecSender.AddedExactly` | tunnel/fec.go:417-462 | a block is detached exactly at a gap or at eight records, and a new timer generation starts exactly with a block |
| `FecSender.EmittedExactly` | tunnel/fec.go:499-600 | a consecutive block that fits is counted while open and all its parity shards are sent, in index order |
| `FecSender.EmittedGenuine` | tunnel/fec.go:499-600 | every parity shard is the encoding of recorded payloads and fits its frame |
| `FecReceiver.FecReceiver.OnData` | tunnel/fec.go:666-701 | caches, prunes, tries every block that holds the sequence, in any map order, and drops stale blocks |
| `FecReceiver.FecReceiver.OnParityFrame` | tunnel/fec.go:703-737 | files a parity shard whose geometry matches, then tries the block |
| `FecReceiver.FecReceiver.TryRecover` | tunnel/fec.go:739-840 | counts, lays out shards, rebuilds, reads the missing payloads back and caches them |
| `FecReceiver.FecReceiver.PruneRecent` | tunnel/fec.go:842-867 | cuts the cache below the window and evicts down to the hard cap |
| `FecReceiver.FecReceiver.PruneBlocks` | tunnel/fec.go:869-886 | keeps unexpired blocks, at most sixteen, dropping none newer than one it keeps |
| `FecReceiver.KeepLargestMeaning` | tunnel/fec.go:859-866 | the hard cap evicts only the smallest sequences and no more than it must |
| `FecReceiver.RetainedExactly` | tunnel/fec.go:675-687 | the first copy of a record is cached; a later one changes nothing |
| `FecReceiver.TidiedExactly` | tunnel/fec.go:842-867 | the cache drops exactly what lies more than 64 below the highest, every eight numbers, and the oldest beyond 128 |
| `FecReceiver.DropsOnlyStale` | tunnel/fec.go:869-886 | a block goes only after two seconds untouched or when sixteen others are no older |
| `FecReceiver.FiledExactly` | tunnel/fec.go:712-731 | a parity shard is filed exactly when its geometry matches; it fills its own empty slot and changes no other slot or block |
| `FecTheorems.TriedExactly` | tunnel/fec.go:739-840 | an attempt returns exactly the missing records, as sent, when shards suffice, and nothing otherwise |
| `FecTheorems.TriedSettles` | tunnel/fec.go:739-840 | a block is done with exactly when shards suffice, and then all its records are cached; otherwise nothing changes |
| `FecTheorems.DataEventTrue` | tunnel/fec.go:666-701 | a genuine data record leaves cache and blocks true and yields only true records |
| `FecTheorems.DataRecoversExactly` | tunnel/fec.go:666-701 | while blocks do not overlap, a data record yields exactly the missing records of its block once the shards suffice, whatever the order of the walk |
| `FecTheorems.DataOutsideYieldsNothing` | tunnel/fec.go:666-701 | a data record outside every block yields nothing |
| `FecTheorems.OrderDoesNotMatter` | tunnel/fec.go:689-694 | while blocks do not overlap, the order of the walk changes neither yield nor state |
| `FecTheorems.ParityEventTrue` | tunnel/fec.go:703-737 | a genuine parity frame leaves cache and blocks true and yields only true records |
| `FecTheorems.ParityRecoversExactly` | tunnel/fec.go:703-840 | a matching parity frame yields a record exactly when it is in the block, missing, and the parity at hand with this shard is as much as is missing |
| `FecTheorems.MismatchIsIgnored` | tunnel/fec.go:703-725 | a frame that does not parse or match changes and yields nothing |
| `FecTheorems.EnoughParityRebuilds` | tunnel/fec.go:703-840 | of as many distinct parity frames as records missing, in any order, all but the last yield nothing and the last yields exactly the missing records |
| `FecTheorems.RecoveredIsSent` | tunnel/fec.go:417-840 | in every run of sender, network and receiver, every rebuilt record is the one sent under its number |
| `ChunkPipe.ChunkDir.Push` | tunnel/chunkpipe.go:78-87 | queues up to one chunk when there is room |
| `ChunkPipe.ChunkDir.Take` | tunnel/chunkpipe.go:90-111 | hands out the front bytes across chunks and keeps the rest |
| `ChunkPipe.PushedSound` | tunnel/chunkpipe.go:78-87 | the byte count stays the queued total and below the bound |
| `ChunkPipe.TakenBytes` | tunnel/chunkpipe.go:90-111 | taking removes exactly a prefix of the queued bytes |
| `ChunkPipeSteps.StepKeeps` | tunnel/chunkpipe.go:130-211 | every step of readers, writers, signallers and close keeps the invariant |
| `ChunkPipeSteps.PipeConserves` | tunnel/chunkpipe.go:59-211 | over every run bytes read plus bytes queued are bytes written, the count is exact and below 320 KiB, and end of file comes only after everything was read |
| `ChunkPipeSteps.NoLostWakeup` | tunnel/chunkpipe.go:59-76 | a parked reader with data or close pending, or a stalled writer with room, has a token or a signaller about to give it one |
| `Framing.EncodeMessage` | tunnel/framing.go:60-68 | frames a message within the limit and refuses a larger one |
| `Framing.EncodeMessages` | tunnel/framing.go:72-91 | frames a batch exactly when every message and the total fit, in as many bytes as computed |
| `Framing.MessageAssembler.constructor` | tunnel/framing.go:114-119 | a zero limit means the default |
| `Framing.MessageAssembler.FeedChunk` | tunnel/framing.go:124-173 | returns the messages complete in buffer plus chunk and keeps the rest, breaks on a length over the limit, or panics on one whose 32-bit end wraps |
| `Framing.MessageAssembler.Reset` | tunnel/framing.go:181-184 | forgets buffer and breakage |
| `Framing.EveryChunkingOfPrefix` | tunnel/framing.go:124-173 | for every message list within a 32-bit limit and every chunking of every prefix of its encoding, the messages complete so far come out in order and the rest is kept, unless one of them is too long to slice |
| `Framing.EveryChunking` | tunnel/framing.go:60-173 | every chunking of the whole encoding gives the whole list and an empty buffer, for messages short enough to slice |
| `Framing.PanicsExactly` | tunnel/framing.go:145-154 | feeding an encoding within a 32-bit limit panics, however cut, exactly when a message is longer than 0xFFFFFFFB bytes |
| `Framing.SafeLimitExactly` | tunnel/framing.go:145-154 | no stream makes the assembler panic exactly when its limit is at most 0xFFFFFFFB |
| `Framing.CutDoesNotMatter` | tunnel/framing.go:124-173 | feeding in pieces answers as feeding at once: messages, error or panic, with the same assembler left unless it panicked |
| `Framing.DeliveredBeforeBreak` | tunnel/framing.go:138-144 | before an error or panic exactly the messages completed by earlier calls were delivered |
| `Framing.BreakLosesMessages` | tunnel/framing.go:138-144 | the same stream delivers a message from two chunks and none from one |
| `Glob.WildcardMatch` | tunnel/server.go:647-676 | the loop terminates and computes the backtracking function |
| `Glob.AcceptsOnlyMatches` | tunnel/server.go:647-676 | what it accepts matches, for all strings |
| `Glob.DecidesStarFree` | tunnel/server.go:647-676 | for a subject without a star it decides matching, so the last star is enough |
| `Glob.MisjudgesStar` | tunnel/server.go:653-660 | for every subject with a star some matching pattern is rejected |
| `Glob.ExactIffStarFree` | tunnel/server.go:647-676 | it agrees with matching on all patterns exactly when the subject holds no star |
| `PortRange.NewPortRange` | tunnel/portrange.go:173-202 | fails exactly for an empty list or a port out of range; otherwise the intervals are sorted, disjoint, not adjacent, hold exactly the given ports, and the total is their number |
| `PortRange.Merged` | tunnel/portrange.go:183-196 | the merging loop gives separated intervals for the same set |
| `PortRange.Canonical` | tunnel/portrange.go:173-202 | the set determines the intervals |
| `PortRange.Contains` | tunnel/portrange.go:209-224 | the binary search is membership |
| `PortRange.PortAt` | tunnel/portrange.go:227-245 | the clamped index into the enumeration of the set |
| `PortRange.EnumeratesSet` | tunnel/portrange.go:227-245 | that enumeration is strictly increasing and onto the set |
| `PortSpec.ParsePortRangeSpec` | tunnel/portrange.go:80-129 | the loops compute the parse |
| `PortSpec.ParseMeaning` | tunnel/portrange.go:80-129 | a specification parses exactly when it is not blank and each segment is a port or range; the result is strictly increasing and holds exactly the covered ports |
| `PortSpec.PortMeans` | tunnel/portrange.go:110-122 | a number with any blanks around it is its port, or an error out of range |
| `PortSpec.RangeMeans` | tunnel/portrange.go:92-109 | two numbers around a dash, with any blanks, are the ports between, or an error when reversed or out of range |
| `PortSpec.String` | tunnel/portrange.go:249-262 | joins the printed intervals |
| `PortSpec.RoundTrip` | tunnel/portrange.go:80-262 | parsing the printed set gives its ports back |
| `PortSpec.FormatPortList` | tunnel/portrange.go:133-139 | any list of valid ports prints as text that parses to the same set |
| `PortPick.PickPortsFromRange` | tunnel/spread.go:245-276 | for every sequence of random choices the map-backed shuffle picks what swapping a full array would |
| `PortPick.PicksDistinct` | tunnel/spread.go:245-276 | the picks are distinct ports of the range |
| `PortPick.PortSelector.constructor` | tunnel/portrange.go:285-295 | a bag is filled exactly in random mode for a range that fits, and holds the range |
| `PortPick.FillBag` | tunnel/portrange.go:311-320 | the shuffled bag is a permutation of the range |
| `PortPick.PortSelector.Next` | tunnel/portrange.go:331-340 | deals by mode and moves the counter or the bag |
| `PortPick.PortSelector.NextUniform` | tunnel/portrange.go:345-358 | deals from the bag, reshuffling when it is used up |
| `PortPick.EveryRoundIsPermutation` | tunnel/portrange.go:345-358 | cut into rounds, everything drawn from the bag is permutation after permutation of the range |
| `PortPick.RobinCovers` | tunnel/portrange.go:331-340 | until the counter wraps, round-robin draws as many as the range are distinct ports of it |
| `PortPick.DealsMembers` | tunnel/portrange.go:331-358 | every draw in every mode is a port of the range |

## Left out

- Sockets, batching, original-destination replies, socket pools and the packet reader: kernel I/O with little to specify.
- Noise, key derivation, AEAD and share links: library cryptography, taken as unforgeable records with unique numbers.
- Reed-Solomon arithmetic: `AnyKSuffice` is a hypothesis about the codec, restricted to the block shapes in use.
- Loss, rate and bandwidth estimators in floating point (tunnel/fec.go:84-213, tunnel/recovery.go:187-216): their results are inputs.
- Pacing in `waitBurst` and the weighted port choice: they only delay or bias steps that are modelled.
- The receive path used when a session has no ordered delivery (tunnel/client.go:1640-1715, tunnel/server.go:2113-2205).
- Frame header codec, target records, MTU probing, SYN cache, configuration, CLI and logging: easier members.
- Liveness: no claim is made that every record is eventually delivered, nor that lost credit is always recovered.
- That every retransmission passes the replay filter: it need not, once 4096 newer numbers were accepted.
- Uplink.LocalToRemote: what the accumulator holds when the local read fails is dropped, as in the original; the contract says which bytes those are.
- FecReceiver.FecReceiver.TryRecover: the second length and count checks (tunnel/fec.go:782-803) repeat the first under the same lock and are not repeated here.
- FecReceiver.FecReceiver.OnData: the loss estimate it feeds is not modelled.
- FecSender.FecSender.EmitBlock: buffer pools, codec caches and codec errors are not modelled; blocks hold at most eight records, as every detached block does.
- SendFlow.Sender.OnLoss: the bandwidth-delay product it may restart from is an input.
- Outstanding.SendBuffer.HandleAck: the outcome it reports to the parity estimator per frame is not modelled, and its clock readings are one.
- ChunkPipeSteps.NoLostWakeup: one reader and one writer per direction; a single token wakes only one of several.
- PortSpec.ParsePortRangeSpec: errors are not told apart, and text is a sequence of characters rather than bytes.
- AckCoalescer.AckCoalescer.CommitSentBatch: a wire is its acknowledgement field, absent when it is too short for a header.
