# Real-time audio path of the receiver

A model, in Dafny, of the code that takes RTP packets in, orders and times them, converts the
rate and encodes them for output, with proofs of what that code keeps over every run. State that
the firmware updates in place is a class or an array here; each such method is proved against a
function on values, and the properties are lemmas about those functions.

`dafny verify dfyconfig.toml` checks everything.

## What is modelled

* **Retransmission window** (`ResendWindow`, `Delivery`, `Redelivery`, `RetryRuns`,
  `RequestRuns`). The 64-bit mask over a wrapping 16-bit base denotes a set of missing sequence
  numbers. A receiver with unbounded numbers and a set of holes is the reference; the wire receiver
  takes exactly its decisions while packets and holes stay within 2^15 of the newest packet, so no
  packet is delivered twice. A hole that is never filled and comes round again breaks this;
  `Redelivery` follows the holes the window tracks over every run and says exactly when a packet is
  delivered again. Which requests go out, when and why, is proved of every run too.
* **Jitter buffer** (`FramePool`, `AudioBuffer`, `QueueRuns`, `PoolRuns`). Slot pool, sorted index
  and free stack refine, over whole runs and however often the 32-bit time comes round, a bounded
  priority queue on unbounded time. Ownership of slots and conservation of frames hold under every
  interleaving of packets, flushes and timing changes with the takes inside a read.
* **Timing engine** (`Timing`, `Playout`, `OnTime`, `StartRuns`, `HeardRuns`). `audio_timing_read`
  with its start gate, drain loop, pending frame, deferred flush and stuck-anchor fallback. A call
  drops exactly the late prefix; what it plays is heard within the threshold of its moment on the
  clock in use; over whole runs what is heard is the PCM of the frames played.
* **Receiver operations and seek gates** (`Receiver`, `ReceiverState`, `ReceiverRuns`, `Ledgers`,
  `SeekGates`). Conservation of frames and the bound on the early counter over every run; the
  one-shot gates with each write of one task interleaved with the frames of the other.
* **S/PDIF encoder** (`SpdifCode`, `SpdifStream`, `SpdifWaveform`). From the lookup table to the
  line signal: a legal biphase-mark waveform that a reference receiver decodes to the samples.
* **Sinc resampler** (`ResampleCounts`, `FilterBank`, `Resampler`, `FixedRatio`, `Polyphase`,
  `ResampleDriver`). The streaming form refines filtering of the whole input; the dry runs are
  exact; the reduced filter count makes interpolation unnecessary; the driver loses no input.
* **Limiter** (`Limiter`) and **artwork thumbnail** (`Thumbnail`, `ArtworkDecoder`).

`Words`, `BitMask` and `Pcm` hold machine integers, bit words and sample conversion.

Integers are unbounded; every cast that can wrap is written out. Floating-point numbers are
reals, except in the filter builder, where rounding is any function of bounded error. Clocks,
the outcome of sends, and the wait on the semaphore are parameters.

## Where the code does not do what its comments or design say

* At-most-once delivery needs the holes to be near. It fails for a duplicate of the newest packet
  (`Redelivery.StaleHoleRedelivers`), for an older packet after a later gap
  (`Redelivery.ForgottenHoleRedelivers`), and for a retransmission ahead of its time
  (`Redelivery.EarlyRetransmitRedelivers`). The exact condition over every run is
  `Redelivery.AtMostOnceExactly`; for near packets, retransmitted only once passed, it is
  `Redelivery.RedeliveredExactly`: another tracked hole has the packet's number.
* A pause is meant to leave the buffer usable however long it lasts (audio_receiver.c:370-377 and
  632-637). The snapshot this needs is taken by `audio_receiver_set_playing(false)` alone, which
  nothing calls: rtsp_handlers.c:1326, 1351, 1361 and 1878 pass true. Both pauses
  (rtsp_handlers.c:1692 and 1871) call `audio_receiver_pause`, which takes none, so the position
  estimate runs on and a resume after more than five seconds empties the buffer
  (`Receiver.MinutePauseLosesBuffer`). The estimate also stops ten minutes after the anchor, so
  once play has gone on for over five seconds more, a resume after any pause empties it
  (`Receiver.LongPlayLosesBuffer`). The exact conditions are `Receiver.ResumeKeepsExactly` and
  `Receiver.ResumeInPlaceExactly`. The header's account of the pause as flushing the buffer and
  recording the time (audio_receiver.h:140-146) does not fit it either.
* All frames are to be rejected from a seek flush to the next anchor (audio_receiver.c:614-617). A
  second seek flush in between writes the blanket gate open before it closes it again, and a frame
  checked there passes (`SeekGates.SecondFlushLetsFramePass`; exact condition
  `SeekGates.PassesBeforeAnchorExactly`). So does an anchor of the control task begun before the
  flush and finished after it (`SeekGates.EarlierAnchorLetsFramePass`; exact condition while the
  RTP gates are off `SeekGates.UnarmedPassesExactly`).
* The two RTP gates are described as handling both seek directions. They reject a drained
  sequence exactly when the frames below the anchor come before those above the window
  (`SeekGates.StaleRejectedExactly`); above then below lets the second frame in.
* The comments on the early counter speak of calls that returned silence; the code counts new
  early frames only, and never a re-check of the pending one.
* A new early frame larger than the pending buffer is neither held nor given back, so its slot
  is lost. The buffer allocated at start-up is large enough for every frame that is queued.
* Immediate attack is said to prevent exceeding the threshold; a frame met by an already lowered
  gain may exceed it by the recovery step, as the second of two equal loud frames from reset
  always does (`Limiter.SecondLoudFrameExceeds`; exact condition `Limiter.OutputBound`).
* A source of another rate is to be resampled automatically (main/Kconfig.projbuild:205-222) into a
  buffer for the most one input frame can give (audio_output.c:40-42). That buffer is sized for
  44100 and above; at 22050 a read of 353 frames loses 169 (`ResampleDriver.SlowSourceLosesInput`;
  exact condition `ResampleDriver.InputIsKept`).
* The block length constant is commented as counting sub-frames; it counts frames of two.

## Model

| member | source | states |
|---|---|---|
| `ResendWindow.MaskForCountBit` | main/audio/audio_stream_realtime.c:86-88 | The mask for a gap of n has exactly bits 0 to n-1, up to the full 64. |
| `ResendWindow.SlideKeepsMissing` | main/audio/audio_stream_realtime.c:90-95 | Sliding changes no missing number, and a non-empty mask then has bit 0 set. |
| `ResendWindow.MarkRemovesOne` | main/audio/audio_stream_realtime.c:102-120 | Marking removes exactly the number received from the missing set. |
| `ResendWindow.TrackAddsGap` | main/audio/audio_stream_realtime.c:122-143 | Tracking adds the whole gap; older numbers stay exactly when the window holds both, and are forgotten otherwise. |
| `ResendWindow.LowestRunIsMaximal` | main/audio/audio_stream_realtime.c:145-167 | Of an anchored window: the range consists of missing numbers, starts at the lowest one and cannot be extended. |
| `ResendWindow.RealtimeReceiver.SlideWindow` | main/audio/audio_stream_realtime.c:90-100 | The slide loop reaches the anchored window and zeroes the request time when the mask is empty. |
| `ResendWindow.RealtimeReceiver.MarkReceived` | main/audio/audio_stream_realtime.c:102-120 | Reports whether the number was missing, and leaves the tracker with only that number removed. |
| `ResendWindow.RealtimeReceiver.TrackMissing` | main/audio/audio_stream_realtime.c:122-143 | The three cases of gap tracking, with nothing else of the tracker changed. |
| `ResendWindow.RealtimeReceiver.NextRange` | main/audio/audio_stream_realtime.c:145-167 | Two bit loops find the lowest maximal run, and find it exactly when something is missing. |
| `ResendWindow.RealtimeReceiver.RequestRange` | main/audio/audio_stream_realtime.c:173-215 | A request is logged unless disabled, within the back-off after an error, or failing now, which starts the back-off. |
| `ResendWindow.RealtimeReceiver.RetryIfDue` | main/audio/audio_stream_realtime.c:217-229 | A retry goes out exactly when something is missing and the interval has passed. |
| `ResendWindow.RealtimeReceiver.TrackRegular` | main/audio/audio_stream_realtime.c:231-267 | The signed 16-bit distance decides between next, gap, too large a gap and late; late packets pass only if missing. |
| `ResendWindow.RealtimeReceiver.ReceivePacket` | main/audio/audio_stream_realtime.c:316-327 | Which packets go on to the decoder, and the tracker after each, for regular and retransmitted packets. |
| `ResendWindow.RealtimeReceiver.ResetResendState` | main/audio/audio_receiver.c:33-39 | Reset leaves nothing tracked and no request or error time; counts are kept. |
| `RetryRuns.StepSends` | main/audio/audio_stream_realtime.c:217-327 | Every packet, time-out or reset, however far astray, keeps the window anchored, and what it sends is the new gap or the lowest run. |
| `RetryRuns.AlwaysAnchored` | main/audio/audio_stream_realtime.c:90-100 | In every reachable state a non-empty mask has its lowest bit set. |
| `RetryRuns.EveryRequestHasItsReason` | main/audio/audio_stream_realtime.c:217-267 | Every request ever sent names the gap its packet opened or the lowest maximal run of the numbers missing then, over every run and with no assumption on packets. |
| `RequestRuns.QuietAsksExactly` | main/audio/audio_stream_realtime.c:217-229 | A time-out asks for the lowest maximal run if and only if something is missing, none was asked for within 250 ms, asking is enabled, no send failed within 300 ms and this one succeeds. |
| `RequestRuns.PacketAsksExactly` | main/audio/audio_stream_realtime.c:173-267 | A packet asks for exactly the gap of 1 to 64 that it opens and then, if accepted, for the lowest run still missing, on the same terms; in every other case for nothing. |
| `RequestRuns.LowestIsUnique` | main/audio/audio_stream_realtime.c:145-167 | There is one lowest maximal run. |
| `RequestRuns.SteadyRetries` | main/audio/audio_stream_realtime.c:217-229 | While something is missing and sends succeed, time-outs at least 250 ms apart send one request each, over every such run. |
| `RequestRuns.AsksWithinInterval` | main/audio/audio_stream_realtime.c:217-267 | Over every run whose sends succeed: after a time-out or accepted packet that leaves something missing, the last request went out less than 250 ms before. |
| `RequestRuns.RunRemembers` | main/audio/audio_stream_realtime.c:209-229 | Over every run the request time kept is that of the last request, or none. |
| `RequestRuns.DropsCounted` | main/audio/audio_stream_realtime.c:247-251 | Exactly the skipped numbers that the window can hold are counted as dropped. |
| `RequestRuns.ResetStartsAfresh` | main/audio/audio_receiver.c:33-39 | After a reset nothing is missing or asked for, a retransmission is refused, and the first regular packet is accepted and opens no gap. |
| `Delivery.MissingIsHole` | main/audio/audio_stream_realtime.c:102-120 | A 16-bit number is marked missing if and only if it is that of some hole. |
| `Delivery.StepRefines` | main/audio/audio_stream_realtime.c:231-327 | One packet: the 16-bit receiver decides as a receiver with unbounded numbers and a set of holes does, and its mask still stands for that set. |
| `Delivery.RunRefines` | main/audio/audio_stream_realtime.c:269-327 | Whole runs: every decision agrees while packets and holes stay within 2^15 of the newest packet. |
| `Delivery.IdealAtMostOnce` | main/audio/audio_stream_realtime.c:231-327 | The unbounded receiver never accepts an index twice, in any order of packets. |
| `Delivery.AtMostOnce` | main/audio/audio_stream_realtime.c:102-143 | No packet reaches the decoder twice, for every order of regular, late, duplicate and retransmitted packets that stay near. |
| `Redelivery.FollowTracks` | main/audio/audio_stream_realtime.c:231-327 | One packet, with no assumption: it is accepted if and only if it is taken for a head or its number is that of a hole the window tracks, and the set of those holes is kept. |
| `Redelivery.AcceptedExactly` | main/audio/audio_stream_realtime.c:231-327 | The same of every packet of every run from a fresh receiver. |
| `Redelivery.AtMostOnceExactly` | main/audio/audio_stream_realtime.c:231-327 | Over every run, with no assumption: two packets deliver one index if and only if the first was accepted and the second is taken for a head or finds a tracked hole of its number. |
| `Redelivery.NearHead` | main/audio/audio_stream_realtime.c:235-262 | A near packet is taken for a head if and only if it is regular and newer than the newest. |
| `Redelivery.LatePacketExact` | main/audio/audio_stream_realtime.c:256-267 | Over every run of near packets, with holes anywhere: a late or retransmitted packet is accepted if and only if some tracked hole has its number. |
| `Redelivery.RedeliveredExactly` | main/audio/audio_stream_realtime.c:256-267 | Over every such run whose retransmissions are of the past: a delivered packet is accepted again if and only if some other tracked hole has its number. |
| `Redelivery.DeliveredApart` | main/audio/audio_stream_realtime.c:231-267 | Over every such run, what was delivered is behind the newest packet and is not itself a hole. |
| `Redelivery.InOrderKeepsHoles` | main/audio/audio_stream_realtime.c:239-244 | In-order packets are all accepted and leave a never filled hole where it is. |
| `Redelivery.StaleHoleRedelivers` | main/audio/audio_stream_realtime.c:260-262 | Once round to a never filled hole, a duplicate of the newest packet passes for it: an explicit run. |
| `Redelivery.ForgottenHoleRedelivers` | main/audio/audio_stream_realtime.c:122-143 | A far hole outlives a later gap that fits beside it, though its unbounded counterpart is forgotten, and a duplicate passes for it: an explicit run. |
| `Redelivery.EarlyRetransmitRedelivers` | main/audio/audio_stream_realtime.c:316-327 | A retransmission ahead of the newest packet passes for a stale hole, and the regular packet then passes too: an explicit run. |
| `SpdifCode.TableIsBiphaseMark` | main/audio/audio_output_spdif.c:92-122 | Every table entry has a transition at each inner cell boundary, ends at level 1, and decodes to its index. |
| `SpdifCode.WordBits` | main/audio/audio_output_spdif.c:175-176 | The joined data word is a legal code and decodes to the two sample bytes, up to the lowest bit. |
| `SpdifCode.SampleBitByShift` | main/audio/audio_output_spdif.c:170-176 | The bits of a sample, low byte first. |
| `SpdifCode.CodedWordLevels` | main/audio/audio_output_spdif.c:170-176 | A data word starts at level 0, ends at level 1 and changes at every cell boundary. |
| `SpdifCode.CellsAreSampleBits` | main/audio/audio_output_spdif.c:170-176 | Cells 1 to 15 of a data word are bits 1 to 15 of the sample. |
| `SpdifCode.OnesAreEven` | main/audio/audio_output_spdif.c:174-176 | Clearing the top bit makes the number of ones even, so only the lowest sample bit is altered. |
| `SpdifStream.EmittedGrows` | main/audio/audio_output_spdif.c:182-193 | Writing more only appends to what was sent, in whole half blocks, and less than a half block is ever held back. |
| `SpdifStream.PreambleSchedule` | main/audio/audio_output_spdif.c:185-188 | In the reference stream preamble B stands exactly at the first sub-frame of each 192-frame block, M at every other left and W at every right sub-frame. |
| `SpdifStream.SubframeInBlock` | main/audio/audio_output_spdif.c:152-157 | The preamble of each sub-frame in half block b: B or M first by the parity of b, then W and M in turn. |
| `SpdifStream.HalfBlockIsStream` | main/audio/audio_output_spdif.c:152-188 | A full buffer holding M/W preambles, the toggled first preamble and the data words is the next stretch of the reference stream. |
| `SpdifStream.SpdifEncoder.constructor` | main/audio/audio_output_spdif.c:152-157 | Starts with preambles ready and nothing sent. |
| `SpdifStream.SpdifEncoder.FillPreambles` | main/audio/audio_output_spdif.c:152-157 | The exclusive-or walk leaves M and W alternating in the even words and the odd words untouched. |
| `SpdifStream.SpdifEncoder.Flush` | main/audio/audio_output_spdif.c:217-224 | A flush restarts the block count; data left in the buffer is never sent. |
| `SpdifStream.SpdifEncoder.PushHalfBlock` | main/audio/audio_output_spdif.c:182-193 | The toggled first preamble makes the buffer the next half block, and the buffer is ready again. |
| `SpdifStream.SpdifEncoder.Put` | main/audio/audio_output_spdif.c:175-193 | One data word is added, and what was sent is a prefix of what is sent now. |
| `SpdifStream.SpdifEncoder.Write` | main/audio/audio_output_spdif.c:166-195 | What has been sent is a function of the concatenated PCM alone, however it was cut into writes. |
| `SpdifStream.SpdifEncoder.SentIsEmitted` | main/audio/audio_output_spdif.c:182-193 | In every reachable state the words sent are the whole half blocks of the reference stream. |
| `SpdifStream.SpdifEncoder.SentSchedule` | main/audio/audio_output_spdif.c:152-195 | The words an encoder has sent alternate preamble and data, and their preambles follow that schedule. |
| `SpdifWaveform.WordIsLegal` | main/audio/audio_output_spdif.c:79-122 | Every emitted word, preamble or data, starts at level 0, ends at level 1 and is biphase-mark outside the preamble. |
| `SpdifWaveform.WaveformIsBiphase` | main/audio/audio_output_spdif.c:152-195 | The whole stream, for any PCM, changes level at every cell boundary outside preambles, across words too. |
| `SpdifWaveform.StreamDecodes` | main/audio/audio_output_spdif.c:166-180 | A receiver recovers from every complete sub-frame its preamble, the sample with its lowest bit adjusted, and zeros elsewhere. |
| `SpdifWaveform.SubframeParity` | main/audio/audio_output_spdif.c:174-176 | Slots 4 to 31 of each sub-frame hold an even number of ones (clause 4.1 of IEC 60958-1). |
| `FramePool.TsCmpExact` | main/audio/audio_buffer.c:23-25 | Within a half circle the wrapped comparison is the true difference of times. |
| `FramePool.BisectIsLowerBound` | main/audio/audio_buffer.c:29-40 | The search finds the lower bound: all before are earlier, all from there on are not. |
| `FramePool.OrderedInsertKeepsOrder` | main/audio/audio_buffer.c:87-96 | Reference insertion keeps the order. |
| `FramePool.InsertionRefines` | main/audio/audio_buffer.c:87-96 | Inserting where the search says is ordered insertion. |
| `FramePool.EvictedPartition` | main/audio/audio_buffer.c:54-63 | Overflow drops exactly the oldest frame, and only at capacity; slots stay partitioned. |
| `FramePool.EnqueuePartition` | main/audio/audio_buffer.c:52-98 | Queueing keeps every slot in exactly one of index, free stack and borrowed set. |
| `FramePool.EnqueueContents` | main/audio/audio_buffer.c:52-98 | The buffered frames afterwards are those before, less an evicted one, with the new frame in its place. |
| `FramePool.EnqueueSparesBorrowed` | main/audio/audio_buffer.c:73-85 | A slot lent to the consumer keeps its frame while others are queued. |
| `FramePool.EnqueueSucceeds` | main/audio/audio_buffer.c:54-71 | A chunk is refused if and only if no slot is free and there is none to evict. |
| `FramePool.EnqueueRefines` | main/audio/audio_buffer.c:44-107 | One operation in a half circle: queueing is ordered insertion with the oldest evicted; QueueRuns.RunRefines has whole runs. |
| `FramePool.Rebase` | main/audio/audio_buffer.c:23-25 | Frames in order in one half circle are in order in every other that holds them. |
| `FramePool.TakePartition` | main/audio/audio_buffer.c:271-297 | Taking yields the oldest frame with its data unchanged and lends its slot. |
| `FramePool.GiveBackPartition` | main/audio/audio_buffer.c:302-313 | Giving a borrowed slot back keeps the partition and the contents. |
| `FramePool.FlushPartition` | main/audio/audio_buffer.c:208-221 | A flush empties the index, keeps the partition and leaves borrowed slots borrowed. |
| `AudioBuffer.AudioBuffer.constructor` | main/audio/audio_buffer.c:111-147 | A new buffer has all slots free. |
| `AudioBuffer.AudioBuffer.FrameCount` | main/audio/audio_buffer.c:230-240 | The count is the number of buffered frames. |
| `AudioBuffer.AudioBuffer.OldestTimestamp` | main/audio/audio_buffer.c:331-345 | The time of the first buffered frame, or nothing when empty. |
| `AudioBuffer.AudioBuffer.SortedInsertPos` | main/audio/audio_buffer.c:29-40 | The loop over the index array computes the specified position. |
| `AudioBuffer.AudioBuffer.Evict` | main/audio/audio_buffer.c:54-63 | The overflow loop drops exactly what the specification drops. |
| `AudioBuffer.AudioBuffer.QueueChunk` | main/audio/audio_buffer.c:44-107 | The array form equals the specified queueing, both in its result and in the state left. |
| `AudioBuffer.AudioBuffer.Insert` | main/audio/audio_buffer.c:73-96 | The popped slot holds the frame and is indexed at its place; a moved index keeps the rest in order. |
| `AudioBuffer.AudioBuffer.Take` | main/audio/audio_buffer.c:260-298 | Lends the oldest frame, or does nothing when the wait failed or the buffer is empty. |
| `AudioBuffer.AudioBuffer.Return` | main/audio/audio_buffer.c:302-313 | The slot is free again and the buffered frames are unchanged. |
| `AudioBuffer.AudioBuffer.FlushAll` | main/audio/audio_buffer.c:208-221 | No frame is left and what the consumer holds is untouched. |
| `AudioBuffer.AudioBuffer.QueueDecoded` | main/audio/audio_buffer.c:349-380 | Queues the chunks of the frame in order up to the first that finds no slot. |
| `AudioBuffer.FrameOkFits` | main/audio/audio_buffer.c:73-85 | Whatever the producer queues is no larger than a slot. |
| `AudioBuffer.ChunksJoin` | main/audio/audio_buffer.c:360-377 | The chunks of a frame join to its PCM: none lost, none repeated. |
| `AudioBuffer.ChunkAt` | main/audio/audio_buffer.c:360-377 | Chunk k carries the wrapped time 352 k samples on, and all but the last are full. |
| `AudioBuffer.ChunksAreSolid` | main/audio/audio_buffer.c:353-377 | Every chunk queued has samples and channels. |
| `AudioBuffer.ChunkCount` | main/audio/audio_buffer.c:360-377 | There are just enough chunks to hold the samples. |
| `PoolRuns.NextSound` | main/audio/audio_timing.c:327-549 | One step of producer, consumer or control task, anywhere inside a read, keeps ownership of slots and the balance of frames. |
| `PoolRuns.InterleavingsAreSound` | main/audio/audio_timing.c:327-549 | Packets, flushes and timing changes fall between the takes of a read: each slot has exactly one place, the frame in hand is the one taken, and queued frames equal played + late + discarded + lost + evicted + flushed + pending + in hand + buffered. |
| `PoolRuns.NextRoomy` | main/audio/audio_timing.c:480-486 | With a pending buffer as large as a slot, each step keeps every slot that is borrowed in the hand of the consumer. |
| `PoolRuns.NothingLost` | main/audio/audio_timing.c:480-488 | From that buffer size alone, under every interleaving: what is borrowed is the slot in hand, no frame is lost, and between calls nothing is borrowed. |
| `PoolRuns.UndisturbedIsDrain` | main/audio/audio_timing.c:326-551 | With nothing in between, the steps of a call leave the state, the buffer and the loop as the call specified as a whole. |
| `QueueRuns.RefusalAgrees` | main/audio/audio_buffer.c:54-71 | The pool refuses a chunk exactly when the reference queue, which only counts, does. |
| `QueueRuns.PutAgrees` | main/audio/audio_buffer.c:44-107 | One insertion: times modulo 2^32 give the queue that unbounded times give. |
| `QueueRuns.StepAgrees` | main/audio/audio_buffer.c:44-313 | Queue, take, give back and flush each keep the agreement with the reference. |
| `QueueRuns.RunRefines` | main/audio/audio_buffer.c:44-313 | Whole runs, with no fixed base: if at each insertion the buffered times and the new one span less than 2^31, the buffer is the bounded priority queue on true time throughout. |
| `QueueRuns.OrderedFromEveryBase` | main/audio/audio_buffer.c:29-40 | After any such run the buffer is in order from every base whose half circle holds it. |
| `QueueRuns.ReachableIsOrdered` | main/audio/audio_buffer.c:29-40 | After any such run the buffer is in order together with an anchor near it. |
| `QueueRuns.DecodedIsRun` | main/audio/audio_buffer.c:349-380 | Queueing a decoded frame is queueing its chunks one by one up to the first refusal, and reports whether there was none. |
| `QueueRuns.RunKeepsSolid` | main/audio/audio_buffer.c:44-313 | If only chunks with samples and channels are queued, only such are ever buffered. |
| `QueueRuns.ReadAfterRun` | main/audio/audio_timing.c:262-552 | A read after any such run of chunks with samples and channels drops exactly the late frames: the order and the form it needs are proved and not assumed. |
| `Timing.TargetIsLeast` | main/audio/audio_timing.c:70-79 | Beyond the minimum of four the target is the least number of frames that holds the latency. |
| `Timing.EarlyMonotone` | main/audio/audio_timing.c:89-132 | Lateness, with both truncating divisions, never decreases along wrapped RTP order. |
| `Timing.JudgeFacts` | main/audio/audio_timing.c:357-548 | What one examination may do to pending frame, anchor and flush; a frame played is within the threshold, one dropped was late. |
| `Timing.JudgeCounts` | main/audio/audio_timing.c:429-527 | The early counter: an early frame adds one when new and nothing on a re-check; it is zero after a frame that is played, dropped or flushes, and as it was after a discarded one. |
| `Timing.DrainAccounts` | main/audio/audio_timing.c:327-549 | A call examines the pending frame and then a prefix of the buffer, in order; every frame is examined, flushed or left. |
| `Timing.DrainShape` | main/audio/audio_timing.c:326-551 | At most 256 examinations; all but the last discard or drop; only a due deferred flush empties the buffer. |
| `Timing.DrainHoldsOrLeaks` | main/audio/audio_timing.c:480-488 | A new early frame is held, its slot given back, or loses its slot exactly when it does not fit the pending buffer. |
| `Timing.DrainNeverLeaks` | main/audio/audio_timing.c:480-486 | With a pending buffer as large as a slot no examination of a call loses one. |
| `Timing.DrainPending` | main/audio/audio_timing.c:480-488 | A frame is pending after a call only because the call held it or examined nothing. |
| `Timing.LatePrefixIsAllLate` | main/audio/audio_timing.c:425-490 | In an ordered buffer the late frames are exactly a prefix. |
| `Timing.DrainDropsLatePrefix` | main/audio/audio_timing.c:490-522 | The drain loop drops exactly that prefix, up to its attempts. |
| `Timing.ReadDropsExactlyTheLate` | main/audio/audio_timing.c:262-552 | With a valid anchor, no pending frame and no deferred flush: every late frame goes (up to 256), no other does, none is left behind. |
| `Timing.PlayedIsOnTime` | main/audio/audio_timing.c:425-548 | A frame played with the anchor still valid afterwards is neither too early nor too late. |
| `OnTime.TruncAtMost` | main/audio/audio_timing.c:98-129 | Division cut toward zero, without division. |
| `OnTime.LateExactly` | main/audio/audio_timing.c:89-132 | Too early and too late, against the heard moment and the anchored moment, with nothing divided. |
| `OnTime.DroppedExactly` | main/audio/audio_timing.c:89-132 | A frame n samples from the anchor is dropped if and only if, given out now, it would be heard more than the threshold after its moment on the PTP clock, the NTP clock or locally, after hardware and pipeline latency, in whole microseconds. |
| `OnTime.PlayedIsHeardOnTime` | main/audio/audio_timing.c:262-552 | What a call plays under an anchor still valid is heard within the threshold and a microsecond of that moment, for each of the three clocks. |
| `OnTime.JudgedExactly` | main/audio/audio_timing.c:357-548 | Each verdict, if and only if: from the frame, the clocks, the anchor and the count alone. |
| `OnTime.FlushedExactly` | main/audio/audio_timing.c:389-423 | A deferred flush takes effect at a frame n samples from its time if and only if n is not negative. |
| `StartRuns.TargetHoldsLatency` | main/audio/audio_timing.c:61-80 | The target lasts the output latency but for less than a sample, and beyond four frames one frame less would not. |
| `StartRuns.OpensAtOnce` | main/audio/audio_timing.c:283-309 | Once started or with a frame pending the gate is open; with an anchor only the frames count. |
| `StartRuns.OpensAfterASecond` | main/audio/audio_timing.c:291-309 | Without an anchor, over every run of calls, the gate opens if and only if there are enough frames a second or more after the first call that found enough. |
| `StartRuns.PlayedKeepsOpen` | main/audio/audio_timing.c:541-546 | Once a frame is played the gate stays open, however few frames are buffered. |
| `StartRuns.OthersKeepGate` | main/audio/audio_timing.c:393-423 | Of the fields of the gate, a frame not played changes only what a due flush resets. |
| `StartRuns.PausedGivesNothing` | main/audio/audio_receiver.c:632-640 | A paused receiver gives nothing and keeps what is buffered; playing again needs no new start. |
| `StartRuns.FlushClears` | main/audio/audio_receiver.c:585-600 | A flush leaves no frame, anchor, gate, snapshot or flush to come, and keeps the play flag and the target. |
| `StartRuns.SeekStartsAtOnce` | main/audio/audio_receiver.c:602-618 | After a seek flush and the next anchor a single buffered frame opens the gate. |
| `StartRuns.DeferSetsOnlyFlush` | main/audio/audio_receiver.c:620-630 | A deferred flush changes its time and flag only. |
| `HeardRuns.HeardIsPlayed` | main/audio/audio_timing.c:526-548 | Over whole runs with reads of at least 352 samples, the audio written is the PCM of the played frames, joined in order. |
| `HeardRuns.PlayedIsBooked` | main/audio/audio_timing.c:526-548 | Those frames are exactly the ones the ledger books as played. |
| `HeardRuns.CallIsHeard` | main/audio/audio_timing.c:526-548 | One call with room for a chunk writes the frame it plays in full. |
| `Playout.Playout.Reset` | main/audio/audio_timing.c:151-165 | Everything but the play flag, the target and the stored anchor values is cleared. |
| `Playout.Playout.UpdateTimingTargets` | main/audio/audio_timing.c:61-80 | Stores the specified target. |
| `Playout.Playout.SetAnchor` | main/audio/audio_timing.c:212-230 | Stores the anchor, makes it valid and zeroes the early counter. |
| `Playout.Playout.SetPlaying` | main/audio/audio_timing.c:245-260 | A pause drops the pending frame and nothing else. |
| `Playout.Playout.MayStart` | main/audio/audio_timing.c:291-309 | Opens for enough frames with an anchor, or after a second without one, counted from when enough frames were there. |
| `Playout.Playout.ExamineTiming` | main/audio/audio_timing.c:425-546 | The early and late handling gives the specified verdict and state; only a late frame adds to the late count. |
| `Playout.Playout.Examine` | main/audio/audio_timing.c:357-548 | Malformed frame, deferred flush, then timing. |
| `Playout.Playout.WriteOut` | main/audio/audio_timing.c:487-548 | Copies no more than asked for, or clears exactly the span, and leaves the rest of the output. |
| `Playout.Playout.AttemptBorrowed` | main/audio/audio_timing.c:399-539 | The slot goes back on every path except for an early frame that does not fit the pending buffer. |
| `Playout.Playout.AttemptNew` | main/audio/audio_timing.c:342-355 | Examines the oldest buffered frame, or changes nothing when there is none. |
| `Playout.Playout.Turn` | main/audio/audio_timing.c:327-549 | One turn of the loop moves one frame from what is left to the log of the specified call. |
| `Playout.Playout.DrainFrames` | main/audio/audio_timing.c:326-551 | The loop performs the specified call: state, frames left, slots, late count, output and return value. |
| `Playout.Playout.Read` | main/audio/audio_timing.c:262-552 | The whole call performs its specification on the arrays. If its last frame was played, as much of it as was asked for stands in front of the output and is returned; if held or lost, a span of zeros; else nothing; the rest of the output is as it was. With a pending buffer as large as a slot nothing more is borrowed after than before. |
| `Playout.ReadNeverLeaks` | main/audio/audio_timing.c:480-486 | So a whole call does not end by losing a slot when the pending buffer is as large as one. |
| `Playout.DrainEndsWith` | main/audio/audio_timing.c:526-548 | What a call puts out is settled by the last frame it examined. |
| `Playout.DrainUnfolds` | main/audio/audio_timing.c:327-549 | One turn of the specified drain, whatever it did before. |
| `SeekGates.BlanketHolds` | main/audio/audio_stream.c:36-39 | While the blanket gate is closed no frame passes or changes a gate, whatever else is written meanwhile. |
| `SeekGates.SeekFlushCloses` | main/audio/audio_receiver.c:602-618 | However frames fall among its writes, a seek flush ends with the blanket gate closed, arming requested and both RTP gates off. |
| `SeekGates.NoFrameBeforeAnchor` | main/audio/audio_receiver.c:206-315 | With no further flush before the anchor: in every interleaving no frame passes before the blanket gate opens, and then both gates are armed for it. |
| `SeekGates.PassesWhileOpen` | main/audio/audio_receiver.c:585-618 | Part way through a seek flush and any number more, an event is a passing frame exactly while the last write to the blanket gate left it open. |
| `SeekGates.PlanArms` | main/audio/audio_receiver.c:206-230 | However frames fall among them, any number of seek flushes and the arming leave both gates armed behind the closed blanket gate. |
| `SeekGates.PassesBeforeAnchorExactly` | main/audio/audio_receiver.c:206-315 | Any number of seek flushes and then the anchor: before the anchor opens the blanket gate a frame passes if and only if a later flush opened that gate and has not yet closed it; then both gates are armed. |
| `SeekGates.SecondFlushLetsFramePass` | main/audio/audio_receiver.c:585-618 | A second seek flush while the gate is closed: a frame checked right after it opens the gate passes, whatever its time. |
| `SeekGates.UnarmedPassesExactly` | main/audio/audio_stream.c:36-58 | Whichever tasks write in whatever order: while none arms an RTP gate, a frame passes if and only if the last write to the blanket gate opened it. |
| `SeekGates.EarlierAnchorLetsFramePass` | main/audio/audio_receiver.c:314-315 | An anchor begun before a seek flush and finished after it opens the blanket gate with both RTP gates off, and the next frame passes. |
| `SeekGates.WindowPassesExactly` | main/audio/audio_stream.c:41-58 | Freshly armed gates pass exactly the frames from the anchor to the end of the window, both included. |
| `SeekGates.OnlyAboveGate` | main/audio/audio_stream.c:53-58 | With only the upper gate armed, all frames are rejected exactly when all lie above it. |
| `SeekGates.StaleRejectedExactly` | main/audio/audio_stream.c:41-58 | Drained frames are all rejected if and only if those below the anchor come first and all others lie above the window. |
| `SeekGates.OneSidedIsRejected` | main/audio/audio_stream.c:41-58 | Frames all below or all above the window meet that condition, across 32-bit wraparound. |
| `SeekGates.FirstInWindowPasses` | main/audio/audio_stream.c:47-58 | After such frames the first one in the window passes and both gates end disarmed. |
| `SeekGates.AboveThenBelowPasses` | main/audio/audio_stream.c:41-58 | A frame above the window followed by one below it: the second passes, for every anchor. |
| `Receiver.ProtocolMatches` | main/audio/audio_receiver.c:206-315 | The gate writes of flush and anchor, taken together, give the gate states of the receiver operations. |
| `Receiver.ResumeKeepsBuffer` | main/audio/audio_receiver.c:363-397 | Of the entry point set_playing(false), which nothing calls: with its snapshot a resume within five seconds of the paused position keeps the buffer and arms no gate, however long the pause. |
| `Receiver.ResumeKeepsExactly` | main/audio/audio_receiver.c:632-640 | After the pause the firmware performs, the buffer survives the next anchor if and only if that is within five seconds of the estimate that ran on and of the oldest frame; otherwise both gates are armed. |
| `Receiver.ResumeInPlaceExactly` | main/audio/audio_receiver.c:274-312 | A resume at the true position keeps the buffer if and only if the estimate of the samples played, which runs on in a pause and stops at ten minutes, is within five seconds of them. |
| `Receiver.MinutePauseLosesBuffer` | main/audio/audio_receiver.c:256-312 | Ten seconds played, a minute paused, resumed in place: everything buffered is thrown away and both gates are armed. |
| `Receiver.LongPlayLosesBuffer` | main/audio/audio_receiver.c:271-312 | Eleven minutes played, a second paused, resumed in place: everything buffered is thrown away and both gates are armed. |
| `Receiver.AnchorIsStored` | main/audio/audio_timing.c:212-230 | The anchor operation stores the RTP, network and local times it was given. |
| `Receiver.NextAnchorKeepsExactly` | main/audio/audio_receiver.c:256-346 | Two anchors, rtp0 at t0 and rtp1 at t1: the buffer survives if and only if rtp1 - rtp0 is within five seconds of the time passed, up to ten minutes, at the sample rate, and the oldest frame within five seconds of rtp1; otherwise both gates are armed. |
| `Receiver.SnapshotIsPosition` | main/audio/audio_receiver.c:378-394 | The snapshot of the uncalled entry point is where playback from the anchor should be. |
| `Receiver.StaleBufferIsFlushed` | main/audio/audio_receiver.c:317-346 | A buffered frame over five seconds from the anchor is flushed, with both gates armed and quick start set. |
| `ReceiverState.AudioReceiver.GateFrame` | main/audio/audio_stream.c:36-58 | The gate check on the flags of the receiver state. |
| `ReceiverState.AudioReceiver.ArmForAnchor` | main/audio/audio_receiver.c:206-312 | Arms the gates for a requested or a detected jump before the blanket gate opens. |
| `ReceiverState.AudioReceiver.SetAnchorTime` | main/audio/audio_receiver.c:190-361 | The whole operation: gates, snapshot, buffer and timing state afterwards. |
| `ReceiverState.AudioReceiver.SetPlaying` | main/audio/audio_receiver.c:363-397 | A pause takes the snapshot of the expected position if there is an anchor. |
| `ReceiverState.AudioReceiver.Pause` | main/audio/audio_receiver.c:632-640 | Playback stops and the pending frame goes; no snapshot, gate or buffered frame changes. |
| `ReceiverState.AudioReceiver.Flush` | main/audio/audio_receiver.c:585-600 | Buffer, timing, gates and snapshot are all cleared. |
| `ReceiverState.AudioReceiver.SeekFlush` | main/audio/audio_receiver.c:602-618 | As a flush, with quick start, arming and the blanket gate set. |
| `ReceiverState.AudioReceiver.SetDeferredFlush` | main/audio/audio_receiver.c:620-630 | Stores the time and sets the flag. |
| `ReceiverRuns.DrainHeld` | main/audio/audio_timing.c:327-549 | The frames a call ends by holding are exactly those pending after it. |
| `ReceiverRuns.StepBalances` | main/audio/audio_receiver.c:571-640 | Arrival, read, anchor, play, pause and each kind of flush keep the balance of frames. |
| `ReceiverRuns.RunConserves` | main/audio/audio_timing.c:262-552 | With each read one event, over every run queued frames equal played + late + discarded + lost + evicted + flushed + pending + buffered. |
| `ReceiverRuns.RunLosesNothing` | main/audio/audio_timing.c:480-486 | With a pending buffer as large as a slot, over every run no slot is lost and every queued frame is accounted for. |
| `ReceiverRuns.NoSnapshot` | main/audio/audio_receiver.c:363-397 | No run in which set_playing is only called with true ever has a pause snapshot. |
| `ReceiverRuns.AnchorStays` | main/audio/audio_receiver.c:348-361 | Over every run only an anchor changes the times of the anchor. |
| `ReceiverRuns.AnchorAfterRunExactly` | main/audio/audio_receiver.c:256-346 | The same between two anchors with any run of other events in between. |
| `ReceiverRuns.ArrivalIsEnqueue` | main/audio/audio_buffer.c:52-98 | An arrival in these runs does to the frames what queueing does to the pool. |
| `ReceiverRuns.CounterBounded` | main/audio/audio_timing.c:429-465 | Over every run the early counter is at most one more than the pauses since it was last zero. |
| `ReceiverRuns.FallbackNeedsPauses` | main/audio/audio_timing.c:456-466 | The anchor is given up only after fifty pauses with no reset between them. |
| `ResampleCounts.ReadyIffBelowTotal` | components/audio-resampler/resampler.c:756-757 | Output k is ready after c samples if and only if k is below the ratio times c, rounded up. |
| `ResampleCounts.StopsDry` | components/audio-resampler/resampler.c:756-793 | A call that runs out of input has used all of it and made every output it allows. |
| `ResampleCounts.StopsFull` | components/audio-resampler/resampler.c:756-793 | A call that fills its output has used what the last output needed and no more. |
| `ResampleCounts.NoDrift` | components/audio-resampler/resampler.c:756-798 | Whenever input is exhausted, total output is exactly the ratio times total input, rounded up. |
| `FilterBank.ApplyFilter` | components/audio-resampler/resampler.c:1237-1247 | The in-order loop computes the convolution sum. |
| `FilterBank.ApplyOutsideIn` | components/audio-resampler/resampler.c:1264-1275 | Taking one tap from either end at a time gives the same sum. |
| `FilterBank.ApplyUnrolled` | components/audio-resampler/resampler.c:1294-1306 | Taking two taps from either end at a time gives the same sum. |
| `FilterBank.Evaluate` | components/audio-resampler/resampler.c:1374-1398 | Filter selection by rounding or by interpolation, as specified. |
| `FilterBank.NearestIsInterpolated` | components/audio-resampler/resampler.c:1374-1398 | On a filter, the nearest filter gives what interpolation gives, wherever a filter is applied. |
| `FilterBank.LastFilterIsNextSample` | components/audio-resampler/resampler.c:191-211 | The extra last filter equals the first one, one sample later. |
| `FilterBank.WalkSteps` | components/audio-resampler/resampler.c:1367-1368 | The centre-out step follows the alternating order and ends exactly after the last tap. |
| `FilterBank.WalkIsBijective` | components/audio-resampler/resampler.c:1367-1368 | The walk visits every tap exactly once. |
| `FilterBank.WalkSumIsTotal` | components/audio-resampler/resampler.c:1367-1368 | Summing in walk order gives the sum of all taps. |
| `FilterBank.FeedErrors` | components/audio-resampler/resampler.c:1364-1371 | After the walk the error carried is the difference of the sums, and every tap is within two roundings. |
| `FilterBank.InitFilter` | components/audio-resampler/resampler.c:1325-1372 | For any rounding of bounded error the stored taps sum to one within a single rounding error. |
| `Resampler.IdealIsStable` | components/audio-resampler/resampler.c:756-788 | A ready output looks only at input already taken, so more input does not change it. |
| `Resampler.SnapIsIdentity` | components/audio-resampler/resampler.c:800-806 | A position on a filter is not moved by the snap. |
| `Resampler.PlaceOnFilter` | components/audio-resampler/resampler.c:420-437 | If a step is a whole number of filters, every position of every run is on a filter. |
| `Resampler.OutputsAgree` | components/audio-resampler/resampler.c:756-798 | Two runs over inputs one of which extends the other agree on every output both have made. |
| `Resampler.SplitsAgree` | components/audio-resampler/resampler.c:756-798 | However the input is cut into calls, exhausting it gives the same outputs. |
| `Resampler.Resampler.constructor` | components/audio-resampler/resampler.c:213-223 | The first position lies half a filter into silence, and nothing is ready. |
| `Resampler.Resampler.Reset` | components/audio-resampler/resampler.c:490-498 | Back to the initial state. |
| `Resampler.Resampler.MoveHistory` | components/audio-resampler/resampler.c:759-768 | Moving the last taps changes no sample that will be looked at. |
| `Resampler.Resampler.TakeFrame` | components/audio-resampler/resampler.c:758-777 | One frame is appended to the input taken, position and history moving together. |
| `Resampler.Resampler.TapIsWritten` | components/audio-resampler/resampler.c:1374-1398 | Every tap read lies in history already written and is the sample of the whole zero-prefixed input. |
| `Resampler.Resampler.MakeFrame` | components/audio-resampler/resampler.c:787-790 | An output is the selected filter applied to the whole input at its place, on every channel. |
| `Resampler.Resampler.TestIsReady` | components/audio-resampler/resampler.c:756-757 | The loop test is true exactly when the output needs input not yet taken. |
| `Resampler.Resampler.Advance` | components/audio-resampler/resampler.c:798-806 | The stored position is that of the next output; the snap does not move it. |
| `Resampler.Resampler.Process` | components/audio-resampler/resampler.c:741-808 | For every input and output limit: the outputs are those of the infinite convolution, and both counts are closed forms of the totals. |
| `Resampler.Resampler.RequiredSamples` | components/audio-resampler/resampler.c:1049-1077 | The dry run gives the input a real call uses for that many outputs, and any less makes fewer. |
| `Resampler.Resampler.ExpectedOutput` | components/audio-resampler/resampler.c:1079-1118 | The dry run gives the outputs a real call makes from that input, given room. |
| `Polyphase.WholePositionPasses` | components/audio-resampler/resampler.c:1374-1385 | Without low-pass and interpolation an output on a whole position is the input sample half a filter back, or silence before the start. |
| `Polyphase.OtherPositionIsFiltered` | components/audio-resampler/resampler.c:1387-1389 | Every other output on a filter is the sum of its taps over the samples up to the position. |
| `Polyphase.BetweenFilters` | components/audio-resampler/resampler.c:1391-1400 | With interpolation every output lies between two neighbouring filters in proportion to its place. |
| `Polyphase.ChosenIsNearest` | components/audio-resampler/resampler.c:1374-1375 | Off a filter the one chosen is the nearest. |
| `Polyphase.SnapIsNearest` | components/audio-resampler/resampler.c:800-806 | The snap moves a position onto a filter, by at most half of one. |
| `Polyphase.ReducedOutput` | components/audio-resampler/resampler.c:420-437 | Between two whole rates reduced to s and n, output k is filter k s mod n over the samples up to k s div n, and on filter 0 a sample itself. |
| `Polyphase.EmittedExactly` | components/audio-resampler/resampler.c:741-808 | What a resampler has emitted over all its calls is just that. |
| `Polyphase.InitBank` | components/audio-resampler/resampler.c:180-211 | Every filter of a bank sums to one within a single rounding error; the two ends do but for the tap that is cleared. |
| `Polyphase.ConstantPasses` | components/audio-resampler/resampler.c:1360-1371 | A constant signal comes out exactly on the outputs that stand on a sample, and within the rounding of the filters on all others. |
| `Polyphase.BlendedConstant` | components/audio-resampler/resampler.c:1391-1400 | The same bound with interpolation. |
| `Polyphase.ImpulseGivesTaps` | components/audio-resampler/resampler.c:1237-1247 | An impulse puts out the taps of the filter, each at its place. |
| `FixedRatio.GcdDivides` | components/audio-resampler/resampler.c:1203-1211 | The value computed divides both numbers. |
| `FixedRatio.GcdIsCombination` | components/audio-resampler/resampler.c:1203-1211 | Whatever divides n a and n b divides n times that value. |
| `FixedRatio.GcdLoop` | components/audio-resampler/resampler.c:1203-1211 | The remainder loop of the resampler computes it. |
| `FixedRatio.DriverGcd` | main/audio/audio_resample.c:62-68 | The remainder loop of the driver computes the same. |
| `FixedRatio.ExactIsLeast` | components/audio-resampler/resampler.c:422-425 | A filter count makes every step whole if and only if it is a multiple of the reduced one. |
| `FixedRatio.WholeStepIffDivides` | components/audio-resampler/resampler.c:420-428 | A step is a whole number of filters if and only if the destination rate divides count times source rate. |
| `FixedRatio.ReducedStepIsWhole` | components/audio-resampler/resampler.c:422-429 | With the reduced count a step is a whole number of filters. |
| `FixedRatio.PowerTest` | components/audio-resampler/resampler.c:433-435 | The bit test recognises exactly the powers of two. |
| `FixedRatio.ChooseFilters` | components/audio-resampler/resampler.c:420-437 | Reduces the count and stops interpolating exactly when the reduced count is within the limit. |
| `FixedRatio.DriverInit` | main/audio/audio_resample.c:59-80 | Interpolation is off if and only if every step is a whole number of filters. |
| `FixedRatio.BuildBank` | components/audio-resampler/resampler.c:180-211 | The bank has the filters given and one more that is the first moved by a tap. |
| `FixedRatio.ReducedIsExact` | components/audio-resampler/resampler.c:420-437 | In a reduced bank every position is on a filter, snapping is the identity and nearest equals interpolated. |
| `ResampleDriver.InputIsKept` | main/audio/audio_resample.c:106-138 | A call uses all its input if and only if all but its last sample leaves room in the output. |
| `ResampleDriver.BufferIsLargeEnough` | main/audio/audio_output.c:41-42 | For a source rate of at least 44100 the output buffer holds what up to 354 frames can give. |
| `ResampleDriver.SlowSourceLosesInput` | main/audio/audio_output.c:41-42 | From 22050 to 48000 it does not: 169 of 353 frames are lost. |
| `ResampleDriver.MaxOutputSuffices` | main/audio/audio_resample.c:165-170 | From a dry state no call makes more than the announced maximum, and with that much room it takes all its input and makes all its output. |
| `ResampleDriver.ConversionRoundTrip` | main/audio/audio_resample.c:116-135 | Conversion to real samples and back is the identity on 16-bit samples. |
| `ResampleDriver.FullScaleIsOne` | main/audio/audio_resample.c:116-135 | Samples become values from -1 up to 1, and values beyond saturate. |
| `Pcm.StoredExactly` | main/audio/audio_resample.c:127-134 | For every value the stored number is the whole part, toward zero, of the value brought into range, and no other. |
| `ResampleDriver.FramesRoundTrip` | main/audio/audio_resample.c:116-135 | Every channel of a frame is converted, and a frame of 16-bit samples comes back as it was. |
| `ResampleDriver.ProcessPcm` | main/audio/audio_resample.c:106-138 | The converted outputs of one call, and how much input was taken although the count is ignored. |
| `ResampleDriver.InputInOrder` | main/audio/audio_output.c:110-119 | Sample i converts to sample i, and the blocks read follow one another. |
| `ResampleDriver.PlayAll` | main/audio/audio_output.c:110-119 | Reads of up to 353 frames: no sample is lost and the output stays the ratio times the input, over whole runs. |
| `Limiter.ThresholdInRange` | main/audio/software_dsp.c:276-278 | The threshold lies between half scale and the default, whatever percentage is asked for. |
| `Limiter.ThresholdExactly` | main/audio/software_dsp.c:276-278 | With protection the threshold is the percentage of full scale, kept to 50 to 98; without, the default. |
| `Limiter.PeakIsLarger` | main/audio/software_dsp.c:279 | The peak is the larger magnitude. |
| `Limiter.OutputIsScaled` | main/audio/software_dsp.c:292-293 | Every output is its input times one number from (0,1], for both channels: never louder, never inverted. |
| `Limiter.QuietPassesUnchanged` | main/audio/software_dsp.c:279-293 | From full gain, frames up to the threshold come out as they went in. |
| `Limiter.LoudCounts` | main/audio/software_dsp.c:283-285 | The count is of the frames louder than the threshold. |
| `Limiter.AttackIff` | main/audio/software_dsp.c:279-287 | The gain is pulled down if and only if the frame at the present gain exceeds the threshold. |
| `Limiter.GainStep` | main/audio/software_dsp.c:279-291 | The gain stays in (0,1]; an attack meets the threshold exactly; otherwise the missing gain shrinks to 0.9995 of itself. |
| `Limiter.OutputBound` | main/audio/software_dsp.c:279-293 | The bound on the output, and the exact condition on which the threshold is exceeded. |
| `Limiter.ThresholdCanBeExceeded` | main/audio/software_dsp.c:286-291 | The threshold is not a bound: two equal frames from reset exceed the default one. |
| `Limiter.SecondLoudFrameExceeds` | main/audio/software_dsp.c:279-293 | From reset, the second of two equal frames over any threshold exceeds it by the whole recovery step, so the bound is attained. |
| `Limiter.BalanceIsKept` | main/audio/software_dsp.c:292-293 | Both channels are scaled by one gain. |
| `Limiter.GainInRange` | main/audio/software_dsp.c:287-291 | The gain stays in (0,1] over every run. |
| `Limiter.RunIsBounded` | main/audio/software_dsp.c:275-296 | Every output of every run is at most T, or 0.9995 T + 0.0005 peak for a frame louder than T. |
| `Limiter.Recovers` | main/audio/software_dsp.c:289-291 | Over n frames without attack the missing gain shrinks by 0.9995 to the power n. |
| `Limiter.QuietDoesNotAttack` | main/audio/software_dsp.c:279-287 | Frames up to the threshold never attack. |
| `Limiter.ClampIsIdle` | main/audio/software_dsp.c:295-296 | Up to a peak of T + 2000 (32767 - T) the final clamp cuts nothing. |
| `Limiter.SoftwareDsp.LimitFrame` | main/audio/software_dsp.c:279-293 | One frame gives the specified gain, output and count. |
| `Limiter.SoftwareDsp.Process` | main/audio/software_dsp.c:275-297 | The loop writes the limited frames over the buffer and leaves the specified gain and count. |
| `Limiter.SoftwareDsp.ResetState` | main/audio/software_dsp.c:205-217 | The gain is one again; the count is kept. |
| `Thumbnail.ProportionBounds` | components/display/artwork_decoder.c:142-149 | The shorter side is the proportion rounded to the nearest, and grows beyond neither side. |
| `Thumbnail.OutputSizeIsSound` | components/display/artwork_decoder.c:135-153 | No side grows, vanishes or exceeds the limit, and a picture that fits is not scaled. |
| `Thumbnail.OutputSizeExactly` | components/display/artwork_decoder.c:135-153 | The longer side is as long as it was or as the limit lets it be; the shorter is in proportion to the nearest, but at least one. |
| `Thumbnail.CellInRange` | components/display/artwork_decoder.c:62-72 | Every source pixel falls in a cell of the output. |
| `Thumbnail.CellTakesExactly` | components/display/artwork_decoder.c:62-72 | A cell takes exactly the pixels whose place scaled to the output lies in its unit square. |
| `Thumbnail.SumOrderFree` | components/display/artwork_decoder.c:61-77 | The accumulated sums do not depend on the order of pixels. |
| `Thumbnail.CountsAreComplete` | components/display/artwork_decoder.c:73-76 | The counts of all cells add up to the pixels delivered. |
| `Thumbnail.CoveredCounts` | components/display/artwork_decoder.c:61-77 | For a covered picture the counts sum to width times height and every cell is hit. |
| `Thumbnail.SomePixelHits` | components/display/artwork_decoder.c:62-68 | Some source pixel falls in each cell. |
| `Thumbnail.NothingWraps` | components/display/artwork_decoder.c:73-76 | The 32-bit accumulators do not wrap. |
| `Thumbnail.MeanOf` | components/display/artwork_decoder.c:197-199 | Each colour of the mean is that of the picture and fits its field. |
| `Thumbnail.OutputIsMean` | components/display/artwork_decoder.c:191-201 | Each output pixel is the floor mean of its cell, colour by colour. |
| `Thumbnail.UnscaledIsIdentity` | components/display/artwork_decoder.c:191-201 | A picture that fits is reproduced exactly. |
| `ArtworkDecoder.DecodeContext.AddPixel` | components/display/artwork_decoder.c:63-76 | One pixel changes its own cell only. |
| `ArtworkDecoder.DecodeContext.AddRow` | components/display/artwork_decoder.c:66-77 | One row of a rectangle, pixel by pixel. |
| `ArtworkDecoder.DecodeContext.Output` | components/display/artwork_decoder.c:46-86 | The callback refuses exactly the rectangles that are missing, inverted or outside, and adds all pixels of the others. |
| `ArtworkDecoder.DecodeContext.Average` | components/display/artwork_decoder.c:191-201 | The averages of the accumulators, zero for an empty cell. |
| `ArtworkDecoder.DecodeJpeg` | components/display/artwork_decoder.c:88-201 | Fails exactly on an unusable size or a refused rectangle, and otherwise gives the averages of what was delivered. |
| `ArtworkDecoder.WholePictureCovers` | components/display/artwork_decoder.c:54-78 | A rectangle that is the whole picture, row by row, covers it. |
| `ArtworkDecoder.BlockPixelPlace` | components/display/artwork_decoder.c:54-68 | A pixel of a rectangle stands where its row and column put it. |
| `ArtworkDecoder.AnyCoverGivesMeans` | components/display/artwork_decoder.c:54-78 | Whatever blocks cover the picture once, in whatever order, the result is its floor means. |

## Left out

- Playout.Playout.Read: one clock reading serves the whole call, where the code reads the clock for each frame, as PoolRuns does; log throttling and the underrun count are not modelled.
- Timing.EarlyMonotone: the 64-bit arithmetic of the lateness is unbounded here, and the negation of a distance of exactly -2^31 in the seek test is taken as 2^31.
- Playout.Playout.Examine: the pending frame is one value; its byte buffer, length field and the checks on a length below the header size are not modelled.
- AudioBuffer.AudioBuffer.Take: the counting semaphore is an input that says whether the wait succeeded; that it equals the frame count when calls do not overlap is not shown.
- AudioBuffer.AudioBuffer.QueueDecoded: asks for at most two channels, the most the slots are sized for; missing PCM and the statistics are not modelled.
- SpdifStream.SpdifEncoder.Write: takes an even number of bytes, as every caller gives; the encode buffer is a class field and the DMA write a log of words.
- SpdifWaveform.StreamDecodes: the channel status, user and validity slots are zero in the code and are only shown to be so.
- Resampler.Resampler.Process: the interleaved and the planar form are one, on frames of one sample per channel; flush, extrapolation, threads and advancing the position by hand are not modelled.
- ResendWindow.RealtimeReceiver.RequestRange: a request is its range, not its eight bytes, and a missing control socket counts as not enabled.
- FilterBank.InitFilter: the window values are given; only their scaling, rounding and error feedback are modelled. The choice of the lowpass ratio is a parameter.
- FixedRatio.ChooseFilters: rates are whole numbers and the flag against reduction is clear, as in the driver's call.
- Limiter.SoftwareDsp.Process: channel mode, balance gains, normaliser, equalizer and crossover come before it and are its input; values that are not finite do not occur among reals.
- ArtworkDecoder.DecodeJpeg: JPEG decoding itself, allocation failures and the check of the file header; the library's rectangles are its input.
- SeekGates.PassesBeforeAnchorExactly: the anchor's writes when arming was requested by a seek flush; the other paths of the anchor operation are modelled without interleaved frames in Receiver. A third task's write that opens the blanket gate while the anchor is arming is not in it; up to the arming SeekGates.UnarmedPassesExactly covers such writes.
- PoolRuns.InterleavingsAreSound: changes of the timing state fall between examinations and are arbitrary but for the pending frame; races on single fields within one examination are not modelled.
- Decoding, decryption, concealment of the first blocks after a restart, and sockets: a packet is its sequence number, a frame its time and PCM.
- `parse_rtp`, PTP and NTP clocks, their resume notification, and RTSP.
- Displays, settings, LEDs, DAC and I2S drivers, Bluetooth and web code: plumbing whose invariants are much easier.
