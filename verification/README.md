# Numark NS6 driver: model and proofs

This project models the logic of the Numark NS6 audio and MIDI driver in Dafny and proves what that logic keeps
over every run. It covers six parts of the driver.

- **Rings and resampling.** `AudioOutputRing` (module `AudioOutputRing`, one thread at a time; module `SpscRing`, two
  interleaved threads; `SpscResampling`, the resampled consumer against a running producer; `SpscOverrun`, which
  capacities are safe for ever), `NS6Transport` (`Transport` for the tagged
  ring, `TransportTimeline` for what it means, `TransportMixing` for the order of mixes, `TransportQueue` for the plain
  queue it is without mixing, `TransportOutput` for the samples that come out), and the fractional consumer both share (`Resampling`).
- **Packet scheduling and clock recovery.** `AudioPacketPolicy` (`PacketSchedule` is the simple form, `AudioPacketPolicy`
  the circular buffers), `AudioFeedbackPatternPolicy` and the feedback window (`FeedbackWindow`), `NS6ClockControl`
  (`ClockControl`), and packets and batches (`OutputPackets`, `AudioOutTransfer`). `ClosedLoop` puts ring, packets and
  trim together as a control loop.
- **Reclamation protocols.** `NS6HALMapping` (`HalMapping`) and `NS6DeviceSession` (`DeviceSession`) as step relations
  over any number of readers or callbacks and one owner.
- **Completion queues.** `AudioInputReader` and `MIDIInputReader` (`ReadQueue`, `InputReaders`).
- **MIDI framing.** Parser (`MidiInputParser`), encoder (`MidiEncoder`), bridge and report builder (`MidiBridge`) and
  handshake matcher (`Handshake`).
- **Client and hardware lifecycle.** `AudioClientLifecycle` and `AudioDeviceLifecycle` (`ClientLifecycle`) and the
  driver's client table with its one USB session (`DriverState`, `DriverInvariant`, `AudioDriver`).

`RingIndex`, `Runs` and `Samples24` hold the index arithmetic, the induction over runs and the 24-bit samples.

How the model reads the source:

- Code that updates fields is a class whose methods are proved against a function of the old state. That function's
  own properties are proved as lemmas. Ghost fields (`accepted`, `consumed`, `blocks`) hold the history behind a buffer.
- Atomic operations are sequentially consistent steps. The protocols and the two-thread ring take one step for each
  atomic load, store or read-modify-write and for each frame copied.
- Samples and phases are exact reals. Counters are naturals; the 32-bit wrap of `AudioOutputRing` is written out.
- A call into IOKit, CoreAudio or a socket is a parameter (accepted or refused, current or not, the hardware started
  or not) or an event that may happen at any time.
- A null pointer check of the source has no counterpart, since Dafny values are never null.

## Properties that hold only under a condition

- Two mixes cannot always be swapped. On a fresh ring the first one places the reader, so an earlier block that comes
  second loses its start: `TransportMixing.FreshRingHearsTheOrder`. Over frames already
  there clipping makes the order audible too (`TransportTimeline.ThirdBlockBreaksCommutation`).
  `TransportMixing.OrdersAgreeIff` gives the exact condition on the state before the calls, clipping included.
- A mix a whole ring behind an empty reader moves the reader back over old tags. After the call the tagged ring is an
  account of everything written, with the high-water mark above it, exactly when everything written from the new cursor
  on lies below the block's end and is still in its slot or is drowned out by the block: `Transport.MixKeepsAccountIff`.
  `Transport.BackwardRebaseMeetsAStaleTag` runs into a case where it is not.
- An enqueue whose end passes 2^64 does not act on a queue: `TransportQueue.EnqueuesAsAQueueIff` says exactly when it does.
- `AudioOutputRing` accepts any capacity up to half the counter range, but keeps every unread frame on every run
  exactly when the capacity divides 2^32: `SpscOverrun.RingIsSafeForEverIff`. The driver's 16384 does. For every other
  capacity `SpscOverrun.WrapOverwritesAnUnreadFrame` gives the run that loses a frame; such a ring is right for the
  first 2^32 frames.
- Queue and phase of `AudioOutputRing` move by one step per frame produced exactly when no step taken from inside the
  queue passes its end, where the ring cuts the whole frames off: `Resampling.PullMovesByProducedSteps`. Steps of at
  most one frame always qualify; one queued frame at phase 0.75 and step 1.5 does not.
- The feedback queue loses a report exactly when one arrives while 32 wait: `PacketSchedule.NoReportIsLostIff`.

`AudioTransportRuntime::stop` always reports success, so the early return in `stopHardware` is never taken and an open
session implies an active client.

## Model

| member | source | states |
|---|---|---|
| `RingIndex.WindowsStayApartIffCapacityDividesWord` | numark-ns6/audio-out/AudioOutputRing.cpp:21-61 | the slots of every window of `capacity` positions are distinct for ever if and only if the capacity divides 2^32 |
| `RingIndex.CopyIndexIsSlot` | numark-ns6/audio-out/AudioOutputRing.cpp:29-37 | the two-piece copy puts each frame in the slot of its own position, counter wrap included |
| `RingIndex.Sub32IsDistance` | numark-ns6/audio-out/AudioOutputRing.cpp:26-27 | the wrapped difference of the 32-bit counters is the true number of frames in use |
| `SpscRing.InvariantOfEveryInterleaving` | numark-ns6/audio-out/AudioOutputRing.cpp:21-61 | on every interleaving of both threads' loads, copies and stores, occupancy stays within capacity, unread frames sit in their slots and everything copied out equals what was accepted at that position |
| `SpscRing.FramesReadAreAPrefixOfFramesAccepted` | numark-ns6/audio-out/AudioOutputRing.cpp:21-61 | on runs whose consumer only calls `read`, whatever the interleaving, the frames copied out are a prefix of the frames `write` accepted |
| `SpscRing.ReadCallCopiesTheFront` | numark-ns6/audio-out/AudioOutputRing.cpp:42-61 | on every run, resampled calls included, a call of `read` has copied the oldest frames waiting when it loaded the write counter, in order, as many as there are up to the request |
| `SpscRing.CallSeesASnapshot` | numark-ns6/audio-out/AudioOutputRing.cpp:69-100 | as long as a call of `readResampled` runs, whatever the producer does, the available frames are those waiting when the write counter was loaded and every offset shows its frame |
| `SpscRing.StoreReleasesFromTheFront` | numark-ns6/audio-out/AudioOutputRing.cpp:97-108 | the frames given back come off the front of that snapshot and the frames that arrived meanwhile stand behind the rest |
| `SpscRing.ResampledCallRuns` | numark-ns6/audio-out/AudioOutputRing.cpp:69-108 | from idle a resampled call can always run, see any waiting frame and give back up to all of them |
| `SpscRing.DriverRingReadsAPrefixForEver` | numark-ns6/audio-out/AudioOutputRing.cpp:21-100 | with the driver's 16384 frames the invariant holds on every run of any length, and the prefix property on those that only call `read` |
| `SpscResampling.ConcurrentOutputIsTakenFromTheSnapshot` | numark-ns6/audio-out/AudioOutputRing.cpp:69-95 | whatever the interleaving, and at whatever moment of the call each look at the ring falls, the output is the resampled read of the frames waiting when the write counter was loaded |
| `SpscResampling.ConcurrentCallIsReadResampled` | numark-ns6/audio-out/AudioOutputRing.cpp:69-100 | output, carried phase and queue of a whole call against a running producer are those of the resampled read of the snapshot, with the frames that arrived meanwhile behind |
| `SpscResampling.ConcurrentSkip` | numark-ns6/audio-out/AudioOutputRing.cpp:102-108 | the same for the queue after a skip |
| `SpscResampling.DriverRingResamplesForEver` | numark-ns6/audio-out/AudioOutputRing.cpp:69-100 | with the driver's 16384 frames the call theorem holds on every run, of any length and with any calls before it |
| `SpscRing.UnreadFramesAreNeverOverwritten` | numark-ns6/audio-out/AudioOutputRing.cpp:24-38 | in every reachable state every accepted frame not yet given back is still in its slot |
| `SpscRing.CopyNeverBlocked` | numark-ns6/audio-out/AudioOutputRing.cpp:29-59 | a copy in progress can always take its next step, so the index guards of the step relation exclude nothing |
| `SpscRing.ReadCopySeesAccepted` | numark-ns6/audio-out/AudioOutputRing.cpp:45-58 | each copied frame is the frame accepted at that position |
| `SpscRing.PeekSeesAccepted` | numark-ns6/audio-out/AudioOutputRing.cpp:74-93 | each frame the resampler looks at is the frame accepted at that position |
| `SpscRing.StepKeepsInv` | numark-ns6/audio-out/AudioOutputRing.cpp:21-100 | every single step of either thread keeps the ring invariant |
| `SpscOverrun.RingIsSafeForEverIff` | numark-ns6/audio-out/AudioOutputRing.cpp:12-61 | the ring keeps every unread frame in its slot on every run of both threads if and only if its capacity divides 2^32 |
| `SpscOverrun.WrapOverwritesAnUnreadFrame` | numark-ns6/audio-out/AudioOutputRing.cpp:21-38 | for every other capacity, a run whose last copy overwrites a frame that was accepted and not read |
| `AudioOutputRing.Ring.constructor` | numark-ns6/audio-out/AudioOutputRing.cpp:12-19 | a new ring is empty with zero phase |
| `AudioOutputRing.Ring.Create` | numark-ns6/audio-out/AudioOutputRing.cpp:12-19 | refused are exactly zero or too large capacities, zero channels, and channels times capacity beyond a 64-bit size |
| `AudioOutputRing.Ring.Write` | numark-ns6/audio-out/AudioOutputRing.cpp:21-40 | appends exactly as many frames as fit, in order, and returns that number |
| `AudioOutputRing.Ring.Read` | numark-ns6/audio-out/AudioOutputRing.cpp:42-61 | removes and returns the oldest frames, as many as there are up to the request |
| `AudioOutputRing.Ring.AvailableFrames` | numark-ns6/audio-out/AudioOutputRing.cpp:63-67 | returns the number of queued frames |
| `AudioOutputRing.Ring.ReadResampled` | numark-ns6/audio-out/AudioOutputRing.cpp:69-100 | output, remaining queue and carried phase are those of the resampled read of the queue, and queue and phase stand one given step further per frame produced |
| `AudioOutputRing.Ring.AdvanceResampled` | numark-ns6/audio-out/AudioOutputRing.cpp:102-108 | queue and phase stand the given number of given steps further on, never past the end of the queue, whenever the phase fits the 32-bit conversion |
| `Resampling.TakenAt` | numark-ns6/audio-out/AudioOutputRing.cpp:76-95 | output frame i is made at phase fraction + i steps, none earlier starves, and a short result is starved at its end |
| `Resampling.GivenStep` | numark-ns6/audio-out/AudioOutputRing.cpp:71-72 | a step from 0.5 to 1.5 is used as given, any other as 1 |
| `Resampling.SkipTakesTheGivenStep` | numark-ns6/audio-out/AudioOutputRing.cpp:102-108 | a skip of n frames ends n given steps further on; inside the queue, queue plus phase move by exactly that |
| `Resampling.ReadTakesTheGivenStep` | numark-ns6/audio-out/AudioOutputRing.cpp:69-100 | a read moves by one given step per frame produced and produces all n frames exactly if the last one lies inside the queue |
| `Resampling.ReadsAllIff` | numark-ns6/audio-out/AudioOutputRing.cpp:79-95 | all n frames come out if and only if the phase of the last one is inside the queue |
| `Resampling.LerpAtIsTheWeightedMean` | numark-ns6/audio-out/AudioOutputRing.cpp:79-93 | at any phase each channel is the weighted mean of the frame there and the next, and the last frame alone at the end |
| `Resampling.LerpIsOnTheLine` | numark-ns6/audio-out/AudioOutputRing.cpp:88-92 | an interpolated channel lies between the two samples, the given fraction of the way |
| `Resampling.PhaseAtIsMultiple` | numark-ns6/audio-out/AudioOutputRing.cpp:94-105 | accumulating the step in the loop equals the product used when skipping |
| `Resampling.PhaseAfter` | numark-ns6/audio-out/AudioOutputRing.cpp:104 | the one multiplication of a skip gives the phase the loop would reach |
| `Resampling.PullInChunks` | numark-ns6/audio-out/AudioOutputRing.cpp:69-100 | for any interpolation that depends only on positions, taking n and then m frames is taking n + m, in output, queue and phase |
| `Resampling.ReadInChunks` | numark-ns6/audio-out/AudioOutputRing.cpp:69-100 | the same for `readResampled`, the clamp at the end of the queue included |
| `Resampling.UnitStepIsPlainRead` | numark-ns6/audio-out/AudioOutputRing.cpp:42-100 | at step 1 and zero phase the resampled read is the plain read |
| `Resampling.PullMovesByProducedSteps` | numark-ns6/audio-out/AudioOutputRing.cpp:97-99 | queue plus phase move by exactly one step per frame produced if and only if no step from a phase with a frame under it passes the end of the queue |
| `Resampling.EndsInsideIff` | numark-ns6/audio-out/AudioOutputRing.cpp:76-99 | the phase at the end of a call lies inside the queue if and only if that holds |
| `Resampling.ShortStepsStayInside` | numark-ns6/audio-out/AudioOutputRing.cpp:94-99 | steps of at most one frame never pass the end |
| `Resampling.LastStepCanBeCutOff` | numark-ns6/audio-out/AudioOutputRing.cpp:97-99 | with one queued frame, phase 0.75 and step 1.5, one frame comes out and queue and phase end at 1.25 where the step leads to 2.25 |
| `Samples24.UnpackOfPack` | coreaudio/NS6Transport.c:17-26 | unpacking the three packed bytes gives the sample back |
| `Samples24.PackOfUnpack` | coreaudio/NS6Transport.c:17-26 | packing the unpacked sample gives the three bytes back |
| `Samples24.LowByteFirst` | coreaudio/NS6Transport.c:22-26 | the three bytes are the sample in two's complement, low byte first |
| `Samples24.SaturatingOrderIrrelevantIff` | coreaudio/NS6Transport.c:28-32 | exactly when two values may be added in either order under saturation |
| `TransportTimeline.WrittenIffCovered` | coreaudio/NS6Transport.c:208-228 | a position holds a frame if and only if some block covers it |
| `TransportTimeline.TwoBlocksCommute` | coreaudio/NS6Transport.c:215-227 | two blocks already accepted and trimmed, added where nothing was, leave the same frame in either order |
| `TransportTimeline.ThirdBlockBreaksCommutation` | coreaudio/NS6Transport.c:215-227 | with a third block underneath, clipping makes the order audible |
| `TransportTimeline.MixDropsOnlyTheLatePart` | coreaudio/NS6Transport.c:170-234 | an accepted mix drops only what lies behind the reader and adds the rest, saturating, to what each position held |
| `TransportTimeline.MixTakenIffWithinTheRing` | coreaudio/NS6Transport.c:182-206 | a mix is refused if and only if it reaches beyond one ring ahead of the reader, and then adds nothing |
| `TransportTimeline.OutputComesFromWrittenPositions` | coreaudio/NS6Transport.c:277-309 | every output frame is made from two positions at or after the cursor that were written for those positions |
| `TransportOutput.DequeuedSamplesAreNear` | coreaudio/NS6Transport.c:252-309 | at any phase and step, each channel of each output frame is within half a step of the point its phase marks between that channel of the frames written around it, and between those two samples |
| `TransportOutput.PlainDequeueStopsAtAGapOrTheEnd` | coreaudio/NS6Transport.c:277-313 | at unit step and whole phase a dequeue hands out exactly the frames written from the cursor on, up to the request, a gap (missing tag) or the end (empty), and moves by that many |
| `TransportOutput.MixThenDequeue` | coreaudio/NS6Transport.c:170-314 | a block of at most 16384 frames mixed into a fresh ring is handed back sample for sample; a longer one is refused |
| `TransportOutput.EnqueueThenDequeue` | coreaudio/NS6Transport.c:117-314 | so is a block enqueued on a fresh ring |
| `TransportOutput.PlainGetReturnsTheFront` | coreaudio/NS6Transport.c:264-314 | at unit step and whole phase a get on the queue is the plain read of its front |
| `TransportOutput.GotSamplesAreNear` | coreaudio/NS6Transport.c:252-262 | at any phase a sample got off the queue is near the line between its neighbours in the queue |
| `TransportOutput.GetsAllIff` | coreaudio/NS6Transport.c:277-308 | a get hands out all n frames if and only if the last one does not lie beyond the last queued frame |
| `TransportOutput.AdvanceTakesTheGivenStep` | coreaudio/NS6Transport.c:329-342 | an advance moves cursor plus fraction by n given steps, or by n frames for a step outside 0.5 to 1.5, and nothing else |
| `TransportOutput.DequeueTakesTheGivenStep` | coreaudio/NS6Transport.c:272-313 | a dequeue moves them by that much per frame handed out |
| `TransportOutput.AvailableIsTheRun` | coreaudio/NS6Transport.c:236-250 | the scan counts the written positions from the cursor to the first gap or the high-water mark |
| `TransportOutput.MixPastTheEndIsRefused` | coreaudio/NS6Transport.c:175 | a mix whose end passes 2^64 - 1 is refused and changes nothing |
| `TransportTimeline.DequeueInChunks` | coreaudio/NS6Transport.c:264-314 | dequeuing n and then m frames is dequeuing n + m: output, final state and stop reason, with or without mixing |
| `TransportTimeline.StoppedStaysStopped` | coreaudio/NS6Transport.c:281-301 | a reader that stopped short stays stopped until the timeline changes |
| `TransportTimeline.DequeueMovesByOutput` | coreaudio/NS6Transport.c:309-313 | cursor plus fraction advance by exactly produced times step |
| `TransportTimeline.NoRunMeetsTheRingLimit` | coreaudio/NS6Transport.c:170-342 | over any run of mixes, dequeues and skips nothing lies more than a ring ahead of the reader and no dequeue meets the ring limit |
| `TransportTimeline.ReaderMovesBackIff` | coreaudio/NS6Transport.c:182-195 | a step moves the reader back if and only if a block that reaches the ring lies a whole ring behind a reader with nothing to read |
| `TransportTimeline.ForwardRunsStaySound` | coreaudio/NS6Transport.c:170-342 | on runs without such a step the reader never moves back and everything written lies below the high-water mark |
| `TransportMixing.SettledMixesCommute` | coreaudio/NS6Transport.c:170-234 | two mix calls that leave the reader in place give the same answers, cursor, high-water mark and fraction in either order, and the same frame at every silent position |
| `TransportMixing.OrdersAgreeIff` | coreaudio/NS6Transport.c:170-234 | two mix calls give the same answers, the same reader and the same frame at every position still to be read in either order, if and only if one of these holds before them: neither moves the reader, or both put it at one place, and nothing clips where both meet a frame already there; or one moves it and the other is not refused and gives the reader nothing to read |
| `TransportMixing.OverlongMixMovesTheReader` | coreaudio/NS6Transport.c:189-209 | a block longer than the ring is refused and adds nothing, and still moves a reader with nothing to read to its start |
| `TransportMixing.FreshRingHearsTheOrder` | coreaudio/NS6Transport.c:183-187 | on a fresh ring 2 frames at 100 and 2 at 99 leave cursor 100 and silence at 99 in one order, cursor 99 and a frame there in the other |
| `TransportMixing.BlockOrderIsInaudibleIff` | coreaudio/NS6Transport.c:208-228 | over whatever a position holds, two blocks leave the same frame in either order if and only if they do not meet there or no channel clips |
| `TransportMixing.FreshRunIsSumOfAcceptedFrames` | coreaudio/NS6Transport.c:170-342 | over any run of mixes, dequeues and skips from a fresh ring, each position holds the in-order saturating sum of the frames for it of the mixes that were accepted with it at or after the reader |
| `TransportQueue.EveryRunAnswersAsAQueue` | coreaudio/NS6Transport.c:98-349 | on every run of enqueue, dequeue, advance, discard and reset the tagged ring answers exactly as a bounded frame queue |
| `TransportQueue.EnqueueRefines` | coreaudio/NS6Transport.c:117-160 | enqueue appends the whole block or nothing |
| `TransportQueue.EnqueuesAsAQueueIff` | coreaudio/NS6Transport.c:117-160 | enqueue answers and leaves the queue as a bounded queue would if and only if the block is empty, ends below 2^64, or is refused by both |
| `TransportQueue.DequeueRefines` | coreaudio/NS6Transport.c:264-314 | dequeue is the resampled read of the queue and ends full or empty, never on a missing tag or the ring limit, even after the cursor overran the end |
| `TransportQueue.AdvanceRefines` | coreaudio/NS6Transport.c:329-342 | advance skips on the queue as it does on the ring |
| `TransportQueue.AvailableIsQueueLength` | coreaudio/NS6Transport.c:236-250 | the tag scan equals max(0, high water - cursor) |
| `TransportQueue.StopsOnlyAtTheEnd` | coreaudio/NS6Transport.c:283-300 | on a contiguous timeline the end of the queue is the only stop |
| `TransportQueue.GetsInChunks` | coreaudio/NS6Transport.c:264-314 | on the bounded queue a dequeue of n and then of m frames is one of n + m, in frames, queue, phase and stop reason |
| `Transport.Shared.constructor` | coreaudio/NS6Transport.c:79-86 | a new ring is the fresh timeline |
| `Transport.Shared.Reset` | coreaudio/NS6Transport.c:98-105 | forgets everything but the reader's fraction |
| `Transport.Shared.Discard` | coreaudio/NS6Transport.c:107-115 | forgets everything, the fraction included |
| `Transport.Shared.EnqueueAt` | coreaudio/NS6Transport.c:117-160 | tags and samples afterwards represent the timeline with the block appended, or dropped where its end wraps past 2^64; the timestamp plays no part |
| `Transport.Shared.MixAt` | coreaudio/NS6Transport.c:170-234 | tags and samples afterwards represent the timeline with the block mixed in, in every case but those in which a rebase backwards makes that false |
| `Transport.Shared.Align` | coreaudio/NS6Transport.c:182-195 | initialises, or rebases an empty ring, forwards or backwards, to a block at least a ring away |
| `Transport.MixKeepsAccountIff` | coreaudio/NS6Transport.c:182-231 | after the write loop of a mix, rebased or not, the ring is an account of everything written with the high-water mark above it, if and only if every position written before lies below that mark and, from the cursor on, still carries its tag or is covered by a frame of the block that the sum equals |
| `Transport.BackwardRebaseMeetsAStaleTag` | coreaudio/NS6Transport.c:182-228 | a run from a fresh ring: mix at 0, take, mix at 16384, skip, take. A mix of x at 0 then leaves x in the slot where the frames written add up to the first one and x |
| `Transport.Shared.AvailableFrames` | coreaudio/NS6Transport.c:236-250 | the scan over tags counts the written positions from the cursor |
| `Transport.Shared.Pick` | coreaudio/NS6Transport.c:277-308 | the stop test on tags decides as the timeline does, and the slots hold the frames of those positions |
| `Transport.Shared.DequeueResampled` | coreaudio/NS6Transport.c:264-314 | output, stop reason and new state are those of the timeline's dequeue |
| `Transport.Shared.AdvanceResampled` | coreaudio/NS6Transport.c:329-342 | new cursor and fraction are those of the timeline's advance |
| `Transport.Shared.AdvanceFrames` | coreaudio/NS6Transport.c:344-349 | moves the cursor by whole frames |
| `Transport.Shared.WriteBlock` | coreaudio/NS6Transport.c:208-228 | the write loop leaves in every slot the frame of the block that belongs there, added to what the slot held exactly if it carried that position, and touches no other slot |
| `FeedbackWindow.ObserveTracks` | numark-ns6/audio-out/AudioPacketPolicy.cpp:74-80 | the running sum is always the sum of the last min(n, 40000) valid reports |
| `FeedbackWindow.FullWindowRateIsExact` | numark-ns6/audio-out/AudioPacketPolicy.cpp:81-82 | once full, the measured rate is 25 times the sum with no rounding |
| `FeedbackWindow.Build` | numark-ns6/audio-feedback/AudioFeedbackPatternPolicy.cpp:3-18 | a pattern exists exactly for reports 42 to 46, totals the report and uses packets of 5 or 6 |
| `FeedbackWindow.PatternTable` | numark-ns6/audio-feedback/AudioFeedbackPatternPolicy.cpp:6-16 | the five rows packet by packet, and no others |
| `FeedbackWindow.WholeOfSum` | numark-ns6/audio-out/AudioPacketPolicy.cpp:62-67 | adding an interval's frames to the phase carries exactly when the remainders fill a service interval |
| `PacketSchedule.InvalidReportRepeatsGroupSixteenEarlier` | numark-ns6/audio-out/AudioPacketPolicy.cpp:35-48 | an invalid report sends exactly the group of the report sixteen earlier, or the seed |
| `PacketSchedule.EveryGroupIsGood` | numark-ns6/audio-out/AudioPacketPolicy.cpp:22-50 | every group, replayed ones included, uses packets of 5 or 6 and totals 42 to 46 |
| `PacketSchedule.EveryRunIsGood` | numark-ns6/audio-out/AudioPacketPolicy.cpp:27-102 | over any mix of reports and requests at most 32 reports wait, the waiting ones are the end of the report stream in order, and every packet has 5 or 6 frames |
| `PacketSchedule.EveryRunAccounts` | numark-ns6/audio-out/AudioPacketPolicy.cpp:27-102 | on every run, overflowing or not, the consumed reports are reports of the stream in order and once each, none is still waiting, and every one of the newest 32 that is not waiting was consumed; so a report is lost only once 32 newer ones have arrived |
| `PacketSchedule.OverflowsAreTheReportsLost` | numark-ns6/audio-out/AudioPacketPolicy.cpp:84-102 | reports consumed, reports waiting and overflows add up to the reports that arrived |
| `PacketSchedule.NoReportIsLostIff` | numark-ns6/audio-out/AudioPacketPolicy.cpp:27-102 | every report is consumed or waiting, once and in order, if and only if none arrives while 32 wait |
| `PacketSchedule.EightPacketsAreOneGroup` | numark-ns6/audio-out/AudioPacketPolicy.cpp:58-60 | eight requests from a boundary send the group chosen there |
| `PacketSchedule.EightPacketsFollowTheReport` | numark-ns6/audio-out/AudioPacketPolicy.cpp:27-61 | with a valid report waiting, the next eight packets are its row of the pattern table and the report is used up |
| `PacketSchedule.EightPacketsWithoutAReport` | numark-ns6/audio-out/AudioPacketPolicy.cpp:51-61 | without one they are the 44-frame row, or the 45-frame row every tenth time |
| `PacketSchedule.OtherServiceRatesAreExact` | numark-ns6/audio-out/AudioPacketPolicy.cpp:62-68 | at any other service rate n intervals total floor(n rate / service) |
| `AudioPacketPolicy.EffectiveClock` | numark-ns6/audio-out/AudioPacketPolicy.cpp:104-107 | the measured rate inside 44100000 to 44100300 mHz, and the nearer end outside |
| `AudioPacketPolicy.SourceStep` | numark-ns6/audio-out/AudioPacketPolicy.cpp:109-115 | the source step lies in [0.995, 1.005] |
| `AudioPacketPolicy.SourceStepMonotone` | numark-ns6/audio-out/AudioPacketPolicy.cpp:109-115 | a longer queue is never drained more slowly |
| `AudioPacketPolicy.BalancedAtTargetIff` | numark-ns6/audio-out/AudioPacketPolicy.cpp:109-115 | with 4096 frames queued the step times the effective clock is exactly the sample rate in millihertz, if and only if the band of the step allows it |
| `AudioPacketPolicy.DriverIsBalancedAtTarget` | numark-ns6/audio-out/AudioPacketPolicy.cpp:109-115 | at 44100 Hz that holds for every measured clock |
| `AudioPacketPolicy.TrimPullsToTheTarget` | numark-ns6/audio-out/AudioPacketPolicy.cpp:109-115 | strictly inside the band the step lies above the balance exactly for more than 4096 queued frames and below it exactly for fewer |
| `AudioPacketPolicy.TrimSlope` | numark-ns6/audio-out/AudioPacketPolicy.cpp:109-115 | inside the band each further frame raises the step by two millionths of the balance |
| `AudioPacketPolicy.TrimSaturates` | numark-ns6/audio-out/AudioPacketPolicy.cpp:112-113 | from 2500 frames off the target on the step no longer changes |
| `AudioPacketPolicy.LockOnValid` | numark-ns6/audio-out/AudioPacketPolicy.cpp:35-41 | comparing the history cursor with the reference locks exactly at the sixteenth valid report of a fresh stream and the fifteenth after an invalid one |
| `AudioPacketPolicy.LockOnInvalid` | numark-ns6/audio-out/AudioPacketPolicy.cpp:42-44 | an invalid report unlocks and moves the reference to the present |
| `AudioPacketPolicy.Policy.constructor` | numark-ns6/audio-out/AudioPacketPolicy.cpp:13-25 | a new policy is the initial schedule with the seeded history |
| `AudioPacketPolicy.Policy.Create` | numark-ns6/audio-out/AudioPacketPolicy.cpp:13-25 | zero rates are refused, and only those |
| `AudioPacketPolicy.Policy.ObserveFeedback` | numark-ns6/audio-out/AudioPacketPolicy.cpp:71-92 | the circular queue and window afterwards are the schedule's queue and window with the report added |
| `AudioPacketPolicy.Policy.ObserveInvalidFeedback` | numark-ns6/audio-out/AudioPacketPolicy.cpp:94-102 | an invalid report is queued as 0 and does not enter the window |
| `AudioPacketPolicy.Policy.UseReport` | numark-ns6/audio-out/AudioPacketPolicy.cpp:30-50 | the oldest report is consumed, its group chosen, and history, lock and reference kept right |
| `AudioPacketPolicy.Policy.NextPacketFrames` | numark-ns6/audio-out/AudioPacketPolicy.cpp:27-69 | packet size and new state are those of the schedule |
| `ClockControl.AdaptiveTotalIsFloorOfRates` | coreaudio/NS6ClockControl.c:107-120 | frames sent are the whole part of the sum of the rates used since reset, and the stored fraction is the rest |
| `ClockControl.SpreadInBaseAndRemainder` | coreaudio/NS6ClockControl.c:130-141 | the first k packets of a millisecond carry k base + floor(k rem / 8) frames and all eight carry everything |
| `ClockControl.Spread` | coreaudio/NS6ClockControl.c:130-141 | the accumulator loop gives every prefix of packets its share of the frames, rounded down |
| `ClockControl.SourceStepMonotone` | coreaudio/NS6ClockControl.c:191-209 | a longer queue never lowers the step |
| `ClockControl.OutputRate` | coreaudio/NS6ClockControl.c:177-189 | nominal in the fixed build, while unlocked or without a rate; otherwise the rate, limited to 44000000 to 44100300 mHz |
| `ClockControl.SourceStep` | coreaudio/NS6ClockControl.c:191-209 | the step lies in [0.995, 1.005] |
| `ClockControl.TrimPullsToTheTarget` | coreaudio/NS6ClockControl.c:191-209 | at every output rate the step balances the nominal rate exactly at 4096 queued frames, lies above it exactly for more and below it exactly for fewer |
| `ClockControl.TrimSlope` | coreaudio/NS6ClockControl.c:200-207 | inside the band each further frame raises the step by one millionth of the balance; from 9096 frames on it stays |
| `ClockControl.Control.SourceFramesPerOutputFrame` | coreaudio/NS6ClockControl.c:191-209 | the step for the rate being output, which at 4096 queued frames balances it |
| `ClockControl.Control.Observe` | coreaudio/NS6ClockControl.c:41-76 | totals, lock, target and window follow the valid reports since the last reset; other values change nothing |
| `ClockControl.Control.AdaptiveFrames` | coreaudio/NS6ClockControl.c:112-120 | 44 or 45 frames, so the 40 and 48 clamps never fire, and no millionth is lost |
| `ClockControl.Control.NextMillisecond` | coreaudio/NS6ClockControl.c:78-143 | in both builds the total sent stays exact and the eight packets share the millisecond evenly |
| `ClockControl.Control.ResetFeedback` | coreaudio/NS6ClockControl.c:24-39 | forgets reports and totals |
| `ClockControl.Control.Debt` | coreaudio/NS6ClockControl.c:145-150 | the debt is requested less sent |
| `OutputPackets.Quantize` | numark-ns6/audio-out/AudioOutPacket.cpp:20-22 | a sample in range is quantised to within half a step; from full scale on it is 8388607 or -8388608 |
| `OutputPackets.PacketIsSentIff` | numark-ns6/audio-out/AudioOutPacket.cpp:11-13 | at most 13 frames are sent, 12 bytes each; more are refused, and then the schedule has moved on and the queue has not |
| `OutputPackets.PacketCarriesTheFramesRead` | numark-ns6/audio-out/AudioOutPacket.cpp:14-30 | frame i of a packet is the i-th frame read off the queue at the policy's step, or silence if it was missing, and the missing ones are counted |
| `OutputPackets.FrameDecodes` | numark-ns6/audio-out/AudioOutPacket.cpp:19-28 | the bytes of a frame decode to its quantised samples |
| `OutputPackets.FramesDecode` | numark-ns6/audio-out/AudioOutPacket.cpp:19-28 | frame i of a packet sits at byte 12 i |
| `OutputPackets.DrawMovesByAllSteps` | numark-ns6/audio-out/AudioOutPacket.cpp:15-18 | full or not, a packet moves queue and phase by the steps of all its frames |
| `OutputPackets.EveryBatchIsFourWholeGroups` | numark-ns6/audio-out/AudioOutTransferBatch.cpp:5-25 | from a group boundary a batch never fails, is four whole groups, has 2016 to 2208 bytes equal to the sum of its packet sizes, and ends at a boundary |
| `OutputPackets.EveryBatchOfEveryRun` | numark-ns6/audio-out/AudioOutTransferBatch.cpp:5-25 | the same for a batch at any point of any run of feedback, mixed audio and batches |
| `OutputPackets.MicroframeBatchFollowsSchedule` | numark-ns6/audio-out/AudioOutTransferBatch.cpp:11-23 | a batch takes the schedule's packets one for one |
| `OutputPackets.RequestsAreWholeGroups` | numark-ns6/audio-out/AudioPacketPolicy.cpp:27-61 | 8 k requests from a boundary are k whole groups |
| `OutputPackets.ScheduleWithoutFeedbackIsExact` | numark-ns6/audio-out/AudioPacketPolicy.cpp:27-61 | a schedule that gets no feedback sends exactly floor(441 n / 10) frames in its first 8 n packets |
| `OutputPackets.BytesAreSumOfSizes` | numark-ns6/audio-out/AudioOutTransferBatch.cpp:18-22 | the transfer is as long as its packet sizes add up to |
| `OutputPackets.FailureIsFinal` | numark-ns6/audio-out/AudioOutTransferBatch.cpp:13-17 | a failed batch draws nothing after its failed packet |
| `AudioOutTransfer.OutPacket.Build` | numark-ns6/audio-out/AudioOutPacket.cpp:6-31 | bytes, counts, ring and policy afterwards are those of the packet drawn from the old ring and policy; a ring without four channels is refused untouched |
| `AudioOutTransfer.OutPacket.DrawFrames` | numark-ns6/audio-out/AudioOutPacket.cpp:15-18 | the frames read, and the skip over what was missing |
| `AudioOutTransfer.OutPacket.PutFrames` | numark-ns6/audio-out/AudioOutPacket.cpp:19-28 | the packing loop leaves the encoded frames followed by silence |
| `AudioOutTransfer.TransferBatch.Build` | numark-ns6/audio-out/AudioOutTransferBatch.cpp:5-25 | the buffer holds the batch's packets back to back and zeros after them, with their sizes, or on failure no counts at all |
| `ClosedLoop.NoWriteIsEverShort` | numark-ns6/audio-out/AudioPacketPolicy.cpp:104-115 | with at least 44 frames sent per millisecond and a mixer limited to 44.2 frames per millisecond and bursts of 8192, from at most 6700 queued frames the 16384-frame ring never fills and every write is taken whole, on every run |
| `ClosedLoop.HighQueueDrains` | numark-ns6/audio-out/AudioPacketPolicy.cpp:109-115 | from 6596 queued frames on the step is at least 1.0049 whatever the measured clock |
| `ClosedLoop.DrawInFull` | numark-ns6/audio-out/AudioOutPacket.cpp:11-18 | a packet drawn from a long queue takes exactly its steps off queue and phase |
| `ClosedLoop.EventKeepsInv` | numark-ns6/audio-out/AudioOutputRing.cpp:69-108 | no write, packet or passing of time raises the potential of queue and tokens above its bound |
| `ClosedLoop.SendIsThePacketDrawn` | numark-ns6/audio-out/AudioOutPacket.cpp:14-18 | what a send does to queue and phase is what drawing a packet does, with the step a packet uses |
| `ClosedLoop.NothingElseIsExcluded` | numark-ns6/audio-out/AudioOutPacket.cpp:11-13 | runs may send packets of up to 13 frames, write within the tokens and let time pass at any point |
| `HalMapping.NoLeaseOutlivesWithdraw` | coreaudio/NS6HALMapping.h:45-56 | from the return of withdraw until the next publication completes no reader has a pointer to any mapping |
| `HalMapping.LeasesAreTheLatestPublication` | coreaudio/NS6HALMapping.h:26-56 | every lease pairs the pointer and session id published last together, and its memory is still mapped |
| `HalMapping.InvOfEveryRun` | coreaudio/NS6HALMapping.h:26-56 | for any number of readers, on every interleaving with an owner that withdraws before publishing and unmaps only what is withdrawn or replaced, `readers` counts the threads inside |
| `HalMapping.StepKeepsInv` | coreaudio/NS6HALMapping.h:26-56 | each step of a reader or the owner keeps that |
| `HalMapping.DrainingOnlyLosesHolders` | coreaudio/NS6HALMapping.h:45-49 | while withdraw spins no reader can gain a pointer |
| `HalMapping.WithdrawEndsIffNobodyIsInside` | coreaudio/NS6HALMapping.h:47-48 | the spin ends exactly when no reader is inside |
| `HalMapping.LoadFindsTheMappingIff` | coreaudio/NS6HALMapping.h:29-34 | after its load a thread can take a lease if and only if the mapping was published, and fail if and only if it was not |
| `HalMapping.AcquireSucceedsIff` | coreaudio/NS6HALMapping.h:26-38 | on every run, whatever happens after its load, a thread goes on to a lease if and only if its load fell in a publication |
| `HalMapping.AcquireLeasesThePublication` | coreaudio/NS6HALMapping.h:26-38 | and then the lease is exactly the pointer and session id of that publication, even if a withdraw has begun |
| `HalMapping.AcquireAndRelease` | coreaudio/NS6HALMapping.h:26-43 | uninterrupted, acquire gives the published lease and counts the reader, and release undoes it; unpublished, acquire leaves no trace |
| `HalMapping.WithdrawAndPublish` | coreaudio/NS6HALMapping.h:45-56 | with nobody inside, withdraw ends at its first look, and mapping and publishing then makes exactly that the lease to be had |
| `HalMapping.PublicationIsWhatWasStored` | coreaudio/NS6HALMapping.h:52-56 | what a publication hands out is what its caller stored, whatever readers do between the two stores |
| `HalMapping.UnmapUnmaps` | coreaudio/NS6HALMapping.h:45-46 | withdrawn memory can be unmapped |
| `DeviceSession.AdmittedUnderActiveOrDrainingId` | coreaudio/NS6DeviceSession.h:20-49 | in every reachable state an admitted callback's id is the active id, or no id is active and the begin in progress took that id away |
| `DeviceSession.SuccessfulBeginIsClean` | coreaudio/NS6DeviceSession.h:23-27 | when begin succeeds no callback of any session is in flight |
| `DeviceSession.OnlyTheNewSessionIsAdmitted` | coreaudio/NS6DeviceSession.h:20-45 | after a successful begin, until the next successful one, only callbacks of the new id are admitted, whatever begins start, drain or give up meanwhile |
| `DeviceSession.SessionLastsUntilNextSuccess` | coreaudio/NS6DeviceSession.h:20-32 | only a successful begin changes the id that is active or that a begin in progress would restore |
| `DeviceSession.NothingIsAdmittedBeforeABegin` | coreaudio/NS6DeviceSession.h:20-45 | before the first successful begin no callback is admitted |
| `DeviceSession.FailedBeginRestoresTheSession` | coreaudio/NS6DeviceSession.h:22-31 | a begin that gives up leaves the session that was active before it |
| `DeviceSession.TestAdmitsIff` | coreaudio/NS6DeviceSession.h:34-42 | from a successful begin to the next, a callback that tests is admitted if and only if it carries the new id and no begin is in progress |
| `DeviceSession.UndisturbedSessionAdmitsItsOwn` | coreaudio/NS6DeviceSession.h:20-42 | while no other begin has started, its callbacks are admitted and no others |
| `DeviceSession.TestDuringBeginRefuses` | coreaudio/NS6DeviceSession.h:22-42 | a test during a begin always refuses |
| `DeviceSession.CallbackComesAndGoes` | coreaudio/NS6DeviceSession.h:39-49 | uninterrupted, a callback is counted, admitted exactly under the active id, and gone without a trace |
| `DeviceSession.IdleBeginSucceeds` | coreaudio/NS6DeviceSession.h:20-27 | with nobody in flight begin succeeds at its first look and makes the new id active |
| `DeviceSession.BeginGivesUpIff` | coreaudio/NS6DeviceSession.h:23-32 | a begin gives up exactly after 100000 looks that all found callbacks in flight, and drains at the first that finds none |
| `DeviceSession.InvOfEveryRun` | coreaudio/NS6DeviceSession.h:20-49 | the counter equals the callbacks inside and begin tries at most 100000 times, on every interleaving |
| `ReadQueue.EveryRunIsGood` | numark-ns6/audio-in/AudioInputReader.cpp:128-206 | for every order of completions, refusal and stop: live slots carry exactly the pending sequence numbers, all slots are live while running, and deliveries are the results of reads 0, 1, 2, ... once each |
| `ReadQueue.EveryReadMayComplete` | numark-ns6/audio-in/AudioInputReader.cpp:128-142 | runs may complete any read in flight next, with any outcome, and stop at any time |
| `ReadQueue.NoResultIsStranded` | numark-ns6/audio-in/AudioInputReader.cpp:93-106 | whenever nothing is in flight every read ever submitted has been delivered |
| `ReadQueue.DrainKeepsInv` | numark-ns6/audio-in/AudioInputReader.cpp:144-187 | the drain keeps the invariant and stops only when the next read in sequence has not completed |
| `ReadQueue.DrainStepTakesOne` | numark-ns6/audio-in/AudioInputReader.cpp:144-187 | each turn of the drain uses up one completed slot, so it ends |
| `ReadQueue.SubmitAllKeepsInv` | numark-ns6/audio-in/AudioInputReader.cpp:80-90 | start leaves all slots live, or is stopped |
| `ReadQueue.StoppedReaderOnlyDelivers` | numark-ns6/midi/MIDIInputReader.cpp:149-163 | after an error or stop nothing more is submitted and what completed is still delivered |
| `ReadQueue.ReadingGoesOnExactlyWhile` | numark-ns6/audio-in/AudioInputReader.cpp:80-187 | whatever order reads complete in, the reader runs if and only if nobody stopped it, every read delivered so far lets it go on and none submitted was refused |
| `ReadQueue.Reader.constructor` | numark-ns6/audio-in/AudioInputReader.cpp:80-90 | the start loop submits in order up to the first refusal |
| `ReadQueue.Reader.SubmitSlot` | numark-ns6/audio-in/AudioInputReader.cpp:189-206 | a read takes the next sequence number exactly when it is accepted |
| `ReadQueue.Reader.Deliver` | numark-ns6/audio-in/AudioInputReader.cpp:156-185 | one delivery and the attempt to queue the slot again |
| `ReadQueue.Reader.DrainCompletions` | numark-ns6/audio-in/AudioInputReader.cpp:144-187 | the loop computes the drain |
| `ReadQueue.Reader.DidComplete` | numark-ns6/audio-in/AudioInputReader.cpp:128-142 | a completion marks its slot and drains |
| `InputReaders.MidiRead` | numark-ns6/midi/MIDIInputReader.cpp:125-153 | a read is handed on, and the reading goes on, exactly for a successful 42-byte report |
| `InputReaders.AudioRead` | numark-ns6/audio-in/AudioInputReader.cpp:156-176 | a block is handed on exactly on success, and the reading ends exactly on a lost device or a stall that cannot be cleared |
| `InputReaders.AudioRunsUntilDeviceIsLost` | numark-ns6/audio-in/AudioInputReader.cpp:80-187 | the 8-slot audio reader runs exactly until it is stopped, a read is refused or a lost device or uncleared stall is delivered, and has published the data of the successful reads in submission order |
| `InputReaders.MidiRunsWhileReportsAreFull` | numark-ns6/midi/MIDIInputReader.cpp:19-165 | the 4-slot MIDI reader runs exactly until it is stopped, a read is refused or anything but a full report is delivered, and has handed its parser the full reports in submission order |
| `InputReaders.PublishedInSubmissionOrder` | numark-ns6/audio-in/AudioInputReader.cpp:144-187 | whatever order reads complete in, what is handed on follows submission order |
| `InputReaders.MidiIsParsedInSubmissionOrder` | numark-ns6/midi/MIDIInputReader.cpp:106-180 | the MIDI published on any run is one pass, without filler, over the payloads of the successful reports in submission order |
| `MidiInputParser.ReportsAreOneStream` | numark-ns6/midi/MIDIInputParser.cpp:3-38 | any sequence of 42-byte reports is parsed as one pass over the joined payloads with 0xfd removed |
| `MidiInputParser.EmitsWholeMessages` | numark-ns6/midi/MIDIInputParser.cpp:13-37 | only whole channel messages come out, and no more bytes than went in |
| `MidiMessages.SizeByKind` | numark-ns6/midi/MIDIInputParser.cpp:21-25 | program change and channel pressure have two bytes on every channel, the other channel messages three |
| `MidiInputParser.EmitsExactlyWholeMessages` | numark-ns6/midi/MIDIInputParser.cpp:13-37 | after any stream the parser holds the unfinished message the stream ends with, and the next byte brings out a message if and only if the stream then ends with that message whole |
| `MidiInputParser.OnlyPayloadIsParsed` | numark-ns6/midi/MIDIInputParser.cpp:3-15 | only the first 41 bytes of a 42-byte report are parsed; any other length drops the message in progress |
| `MidiInputParser.ReportFitsOutput` | numark-ns6/midi/MIDIInputParser.cpp:3-38 | one report yields at most 43 bytes |
| `MidiInputParser.ParseWhole` | numark-ns6/midi/MIDIInputParser.cpp:13-37 | whole messages written one after the other parse to themselves |
| `MidiInputParser.Parser.Parse` | numark-ns6/midi/MIDIInputParser.cpp:3-38 | output and state of the loop are those of the parse; a report of another length resets it |
| `MidiInputParser.Parser.Feed` | numark-ns6/midi/MIDIInputParser.cpp:15-35 | one byte moves the message in progress and emits it when complete |
| `MidiEncoder.EncodesIffWholeMessages` | numark-ns6/midi/MIDIInputEventEncoder.cpp:3-22 | bytes are accepted if and only if they are at most `capacity` whole channel messages |
| `MidiEncoder.WholeMessagesEncode` | numark-ns6/midi/MIDIInputEventEncoder.cpp:3-22 | whole messages encode to one word each, in order, or are refused when they do not fit |
| `MidiEncoder.UnpackOfWord` | numark-ns6/midi/MIDIInputEventEncoder.cpp:17-18 | a word has message type 2 and group 0 and decodes to its message |
| `MidiEncoder.EncodeInto` | numark-ns6/midi/MIDIInputEventEncoder.cpp:3-22 | the loop writes the words, or returns 0 when the bytes are refused |
| `MidiBridge.DatagramsCarryForwardedBytes` | numark-ns6/midi/MIDIUserSessionBridge.cpp:44-70 | for any packets, datagrams have 1 to 41 bytes and joined are exactly the forwarded bytes in order |
| `MidiBridge.WholeMessagesAreBatchedWhole` | numark-ns6/midi/MIDIUserSessionBridge.cpp:44-70 | packets of whole channel messages give datagrams of whole messages that join to the input |
| `MidiBridge.DatagramsAreFull` | numark-ns6/midi/MIDIUserSessionBridge.cpp:44-70 | a datagram is closed only when the next message does not fit into it |
| `MidiBridge.SystemExclusiveGoesThrough` | numark-ns6/midi/MIDIUserSessionBridge.cpp:53-58 | a system exclusive message is forwarded whole, in pieces of 41 bytes and a rest |
| `MidiBridge.StrayBytesAreDropped` | numark-ns6/midi/MIDIUserSessionBridge.cpp:59-67 | data without a status and other system bytes are not forwarded |
| `MidiBridge.RoundTrip` | numark-ns6/midi/MIDIUserSessionBridge.cpp:38-70 | batched, wrapped into reports, parsed by a fresh parser and encoded, the same messages come back, one word each |
| `MidiBridge.PayloadsAreDatagrams` | numark-ns6/midi/ControllerActivation.cpp:188-196 | the report payloads without filler are the datagrams |
| `MidiBridge.ParserOutputAlwaysEncodes` | numark-ns6/midi/MIDIInputEventEncoder.cpp:3-22 | whatever reports arrive the encoder accepts the parser's output given room |
| `MidiBridge.ReceiveFromApplication` | numark-ns6/midi/MIDIUserSessionBridge.cpp:44-70 | the loops send these datagrams |
| `MidiBridge.ReceivePacket` | numark-ns6/midi/MIDIUserSessionBridge.cpp:49-67 | one packet: messages batched, system exclusive sent through, other bytes skipped |
| `MidiBridge.ForwardSysex` | numark-ns6/midi/MIDIUserSessionBridge.cpp:54-58 | the rest of the packet in pieces of at most 41 bytes |
| `MidiBridge.BuildPacket` | numark-ns6/midi/ControllerActivation.cpp:188-196 | a message of 1 to 41 bytes becomes message, filler and a zero; others are refused and leave the buffer alone |
| `Handshake.FirstReplyIsFoundForEverySplit` | numark-ns6/midi/ControllerActivation.cpp:162-179 | for every split into buffers, until the first report the state is the longest start of the reply the filler-free stream ends with, and a buffer is reported exactly when it completes the first occurrence |
| `Handshake.TheReplyIsReported` | numark-ns6/midi/ControllerActivation.cpp:162-179 | the seven bytes of the reply are reported, whole or in two buffers with filler |
| `Handshake.MatchTracks` | numark-ns6/midi/ControllerActivation.cpp:169-176 | one byte keeps the state equal to the longest match |
| `Handshake.ReplyParser.Feed` | numark-ns6/midi/ControllerActivation.cpp:162-179 | the loop computes that, dropping the rest of the buffer after a match |
| `ClientLifecycle.StartCounts` | numark-ns6/coreaudio/AudioClientLifecycle.cpp:5-24 | a start counts one for that client and no other, and is refused only at the counter limit or for a new client in a full table |
| `ClientLifecycle.StopCounts` | numark-ns6/coreaudio/AudioClientLifecycle.cpp:26-35 | a stop takes one off and is refused exactly for a client without starts |
| `ClientLifecycle.RemoveCounts` | numark-ns6/coreaudio/AudioClientLifecycle.cpp:37-45 | removal takes all of that client's starts off the total |
| `ClientLifecycle.ActiveIffSomeoneStarted` | numark-ns6/coreaudio/AudioClientLifecycle.cpp:5-45 | the total is zero exactly when no client has started |
| `ClientLifecycle.Device.StartClient` | numark-ns6/coreaudio/AudioClientLifecycle.cpp:5-24 | the search loop starts the client's own entry or the first free one |
| `ClientLifecycle.Device.StopClient` | numark-ns6/coreaudio/AudioClientLifecycle.cpp:26-35 | the loop stops the client's entry and clears it at zero |
| `ClientLifecycle.Device.DropClient` | numark-ns6/coreaudio/AudioClientLifecycle.cpp:37-45 | the loop removes the client's entry |
| `ClientLifecycle.Device.StartIO` | numark-ns6/coreaudio/AudioDeviceLifecycle.cpp:3-9 | the transition says whether the start was refused, the first or a further one |
| `ClientLifecycle.Device.StopIO` | numark-ns6/coreaudio/AudioDeviceLifecycle.cpp:11-16 | the transition says whether the client was active and whether any is left |
| `ClientLifecycle.Device.RemoveClient` | numark-ns6/coreaudio/AudioDeviceLifecycle.cpp:18-23 | likewise for removal |
| `DriverInvariant.EveryReachableStateIsConsistent` | numark-ns6/coreaudio/NS6AudioDriver.cpp:107-181 | in every reachable state lifecycles and client table agree client by client and in total, activity keys and clients correspond one to one, an open session has an active client, the session is never opened twice, and the input flag is the input's activity |
| `DriverInvariant.StartIsRefusedOnlyAtTheCounterLimit` | numark-ns6/coreaudio/NS6AudioDriver.cpp:772-778 | a registered client's start is never refused for capacity |
| `DriverInvariant.AddIsRefusedIffTableIsFull` | numark-ns6/coreaudio/NS6AudioDriver.cpp:229-249 | a new client is refused exactly when 64 are registered; a free activity slot is always found |
| `DriverInvariant.StartIODoes` | numark-ns6/coreaudio/NS6AudioDriver.cpp:772-797 | a done start counts one for that client alone and the first one leaves a session; a failed one leaves every count as it was and no session; a refused one changes nothing |
| `DriverInvariant.StopIODoes` | numark-ns6/coreaudio/NS6AudioDriver.cpp:798-818 | a stop takes one start off that client alone, and the session goes exactly with the last start of all |
| `DriverInvariant.RemoveClientDoes` | numark-ns6/coreaudio/NS6AudioDriver.cpp:258-279 | removal unlists that client alone with all its starts |
| `DriverInvariant.AddClientDoes` | numark-ns6/coreaudio/NS6AudioDriver.cpp:229-249 | registering lists that client alone, with no starts |
| `DriverState.KeyParts` | numark-ns6/coreaudio/NS6AudioDriver.cpp:246-247 | an activity key is the device object above the client id |
| `DriverInvariant.MonitorDoes` | numark-ns6/coreaudio/NS6AudioDriver.cpp:113-150 | while clients are active a turn keeps a current session and otherwise has one exactly if it could open one; it never touches the clients |
| `DriverInvariant.StartIOKeepsTable` | numark-ns6/coreaudio/NS6AudioDriver.cpp:772-797 | starting, and taking a start back when the hardware fails, keep table and lifecycles in agreement |
| `DriverInvariant.StopIOKeepsTable` | numark-ns6/coreaudio/NS6AudioDriver.cpp:798-818 | stopping keeps them in agreement |
| `DriverInvariant.AddClientKeepsTable` | numark-ns6/coreaudio/NS6AudioDriver.cpp:229-249 | registering keeps keys and rows one to one |
| `DriverInvariant.RemoveClientKeepsTable` | numark-ns6/coreaudio/NS6AudioDriver.cpp:258-279 | removing a row by moving the last one into its place keeps keys, rows and lifecycles in agreement |
| `DriverInvariant.StepKeepsHardware` | numark-ns6/coreaudio/NS6AudioDriver.cpp:701-818 | every entry point keeps session, transport and input flag in step with the active clients |
| `AudioDriver.Driver.RegisterClient` | numark-ns6/coreaudio/NS6AudioDriver.cpp:229-249 | the loops find the client or a free slot and register it |
| `AudioDriver.Driver.Unregister` | numark-ns6/coreaudio/NS6AudioDriver.cpp:258-279 | removes the client, its key and its starts, and closes the hardware with the last one |
| `AudioDriver.Driver.Begin` | numark-ns6/coreaudio/NS6AudioDriver.cpp:772-797 | counts the start, opens the hardware for the first one and undoes the count if that fails |
| `AudioDriver.Driver.End` | numark-ns6/coreaudio/NS6AudioDriver.cpp:798-818 | takes a start back and closes the hardware with the last one |
| `AudioDriver.Driver.Watch` | numark-ns6/coreaudio/NS6AudioDriver.cpp:113-150 | one monitor turn closes an outdated session and reopens a missing one while clients are active |
| `AudioDriver.Driver.OpenHardware` | numark-ns6/coreaudio/NS6AudioDriver.cpp:701-760 | may only be entered with no session open, and leaves session and transport both there or both gone |
| `AudioDriver.Driver.CloseHardware` | numark-ns6/coreaudio/NS6AudioDriver.cpp:762-770 | leaves neither session nor transport |
| `AudioDriver.Driver.SyncInputCapture` | numark-ns6/coreaudio/NS6AudioDriver.cpp:172-175 | the transport's input flag becomes the input's activity |
| `AudioDriver.Driver.Handle` | numark-ns6/coreaudio/NS6AudioDriver.cpp:107-818 | any entry point keeps the whole invariant |

## Left out

- Weak memory: `AudioOutputRing`, `NS6HALMapping` and `NS6DeviceSession` are modelled with sequentially consistent atomics, not with the acquire and release orders of the source.
- Floating point: phases, steps and samples are exact reals, so rounding, non-finite steps and non-finite samples are not modelled.
- Transport.Shared.MixAt: excludes exactly the rebases backwards after which the ring is no account of everything written (`Transport.MixKeepsAccountIff`); what the ring answers from then on is not modelled.
- Transport.Shared.EnqueueAt: the cursor is an unbounded natural that has to be below 2^64 when it is called; its own wrap is not modelled.
- TransportQueue.EnqueueRefines: assumes the block ends below 2^64; `TransportQueue.EnqueuesAsAQueueIff` says what happens otherwise.
- TransportQueue.EveryRunAnswersAsAQueue: assumes the same of every enqueue of the run.
- TransportTimeline.ForwardRunsStaySound: covers runs whose rebases move forward, because a reader rebased backwards does move back.
- SpscRing.FramesReadAreAPrefixOfFramesAccepted: covers runs without resampled calls, which skip frames; `SpscRing.ReadCallCopiesTheFront` covers `read` on every run.
- TransportMixing.OrdersAgreeIff: covers blocks of at most one ring and calls that do not move the reader back; `TransportMixing.SettledMixesCommute` and `TransportMixing.OverlongMixMovesTheReader` cover longer ones.
- TransportMixing.FreshRunIsSumOfAcceptedFrames: speaks of everything written, which after a rebase backwards is what the ring holds only as `Transport.MixKeepsAccountIff` says.
- AudioOutputRing.Ring.Write: requires that the capacity divides 2^32 or that no more than 2^32 frames are written, because beyond that the ring overwrites unread frames (`SpscOverrun.WrapOverwritesAnUnreadFrame`).
- AudioOutputRing.Ring.AdvanceResampled: requires that the phase fits the 32-bit conversion, which is undefined in the source otherwise.
- ClosedLoop.NoWriteIsEverShort: assumes a 44100 Hz stream, the rate the driver uses.
- HalMapping.InvOfEveryRun: counts threads without the 32-bit wrap of `readers`.
- Termination of the spin in `withdraw`: shown to wait only for leases taken before it, but fairness of the scheduler is not modelled.
- Conversion of CoreAudio sample formats (`convert_frame`, `valid_format`): frames arrive as 24-bit samples and validity of the format is a parameter.
- The pattern-scheduler build of `NS6ClockControl`, which repeats the report queue and the pattern table of `AudioPacketPolicy`.
- `NS6CaptureRing` and `NS6CaptureDecoder`, whose ring and 24-bit decoding work as those modelled here.
- The recovery worker in `NS6MIDI.c`, which is bound to pipe calls.
- `AudioOutSchedule` and `AudioFeedbackSchedule`, which the workers do not use.
- Statistics, timing, logging and the error values kept for them.
- Property tables of both HAL plug-ins, the status applications, packaging and probes.
- MIDIInputReader's parser call inside its drain loop: `ReadQueue.Reader` records deliveries, and what the parser publishes from them is a function of that record.
- MidiBridge.ReceivePacket: the 41-byte report buffer is a sequence value, not an array with a fill count.
- AudioPacketPolicy.Policy.NextPacketFrames: the pattern history, the report queue and the feedback window are sequence values that the methods replace, not arrays updated in place; likewise the feedback window of `ClockControl.Control` and the three-byte message of `MidiInputParser.Parser`.
