# usbif data plane: a model and its proofs

This project models, in Dafny, the parts of usbif that move bytes between a USB
bus and an interpreter, and the two ends of the protocols that meet in this
repository:

- the PCM sink's lifetime gate and try-lock over a single-producer byte ring, as
  any number of tasks run them, one atomic operation at a time;
- isochronous streams: exact pacing, playback filling, the queue size, and the
  life of a stream's transfers in a table of four slots;
- UVC frame assembly in place in a ring, and the reader on the other side of it;
- Bulk-Only mass storage, device and host, joined by a cable;
- the video and audio devices' descriptors against the hosts' parsers, the PROBE
  and COMMIT negotiation, and the audio clock's rates;
- RNDIS wrapping and unwrapping;
- the host's suspendable recursive lock, its device table and its event ring.

Code that changes things step by step is a class with its fields, proved against
functions on values (`MscInterface` against `MscDevice`, `UvcFrames` against
`UvcAssembler`); protocols between tasks are step machines with an inductive
invariant and theorems over every run (`RingSteps`, `SinkGate`, `HostLock`,
`EventRing`, `SnapshotSteps`, `StreamRuns`, `MscProtocol`, `VideoSession`). What is on
the wire is written out byte for byte in the modules named `…Wire`, which print any
device's descriptors, wrappers and answers and prove what the parsers make of them.
Everything is checked by

    dafny verify dfyconfig.toml

## Where the code and its prose differ

- The byte ring's header promises any size up to 2 GB. In 32-bit arithmetic the
  index step is right for every index and count if and only if three times the
  size is at most 2^32, or the size is 2 GB exactly (`ByteRing.Advance32Exact`).
- A sink of an earlier stream is said to answer -1 for good. It does for
  2^32 - 2 opens; at the next one its generation comes round and it is let in
  (`SinkGuarantees.SinkEntersIff`, `SinkGuarantees.FirstSinkRevived`).
- `usbif_pcm_sink_space` loads head and tail without the try-lock, and a negative
  answer tells a sink's user that the stream is closed. With P bytes published when
  it loads the head and C drained when it loads the tail, its answer on an open
  stream is negative if and only if C is more than P and 0 < (C - P) mod 2*size < size;
  with C not past P it is the whole frames of size - (P - C) (`SinkSpace.SpaceAnswer`,
  `SinkSpace.SpaceGoesNegative`). A caller can rule the race out: if no other call
  publishes between the two loads, as when one task makes all calls on the sink, the
  answer is exactly the room in whole frames (`SinkSpace.SpaceOfSoleWriter`).
- A refused READ(10) gives the host at most one buffer of zeros and no short
  packet after them. The host learns why it was refused if and only if it asked
  for at most 8 blocks, or a buffer is not whole packets; otherwise it takes the
  status for data, and its read times out or, where its packets had not room for the
  whole status, ends in a phase error (`MscCommand.RefusedRead`,
  `MscCommand.RefusedReadLosesStatus`). A refused WRITE(10) of any size is answered,
  if its data fits a buffer or a buffer is whole packets (`MscCommand.RefusedWrite`).
- `usbif_host_lock_suspend` reads the depth without owning the lock. With an API
  task holding it, the first level counted down is right if and only if that task
  is the caller (`HostLock.SuspendNeedsTheLock`); every caller in the source holds it.
- A drive whose 8-block chunks are not whole packets ends a host's read of more with
  its first chunk, and the host takes the first 13 bytes of the second for the status
  (`MscCommand.CutRead`). So `readblocks` is done if and only if the blocks are there
  and at most 8 are asked for or a chunk is whole packets; or else, in a read of at
  most 64 blocks, the ninth begins with a status wrapper of the command's tag that
  says passed, and then no more than the first 8 blocks were read
  (`MscDrive.ReadsExactlyTheDisk`, `MscDrive.FooledIs`). Nine 100-byte blocks over
  64-byte packets are such a read (`MscDrive.BlockTakenForStatus`). `writeblocks` is
  right if at most 8 blocks are written or a chunk is whole packets
  (`MscDrive.WritesExactlyThose`).
- A camera that is streaming keeps its size through a COMMIT. Host and device agree
  on the size after a negotiation if and only if the camera was idle or had that size
  already, and on the frame bytes if and only if it was idle or its size has as many
  (`UvcNegotiate.Negotiate`, `UvcMeeting.Meet`); a camera streaming 512-byte frames
  while its host is told of 2048 is `UvcNegotiate.StreamingKeepsItsSize`.
- A snapshot of the device table is said to find each field of a slot written before
  `in_use` is set; the code sets `in_use` first. A schedule of writes and reads gives
  the right row for every two devices in turn if and only if it reads no field before
  it is written (`SnapshotSteps.RightForAllIff`); a snapshot made while the host task
  takes no step can have the whole row of a device that is gone
  (`SnapshotSteps.DepartedRow`). Made with the host lock held, which it is not, it
  would be right (`SnapshotSteps.LockedRow`).

## Model

| member | source | states |
|---|---|---|
| ByteRing.Advance32Exact | src/shared/usbif_byte_ring.c:22-26 | the 32-bit index step equals the unbounded one for every index and count iff 3*size <= 2^32 or size == 2^31 |
| ByteRing.Span32Exact | src/shared/usbif_byte_ring.c:17-20 | the 32-bit distance is exact at every size up to 2 GB |
| ByteRing.AdvanceCounts | src/shared/usbif_byte_ring.c:22-26 | advancing an index counts bytes on, over two laps |
| ByteRing.SpanOfCounts | src/shared/usbif_byte_ring.c:17-20 | the distance of two indices is the difference of the counts they stand for, over two laps, whichever is ahead |
| ByteRing.CellInjective | src/shared/usbif_byte_ring.c:47-51 | the `size` positions past an index are `size` different cells, so every byte of the storage is usable |
| ByteRing.PushWindow | src/shared/usbif_byte_ring.c:46-52 | the two spans of a push append exactly the data to what is queued, at any size and any wrap |
| ByteRing.PopWindow | src/shared/usbif_byte_ring.c:64-70 | the two spans of a pop are the first queued bytes and leave the rest |
| ByteRing.Ring.Push | src/shared/usbif_byte_ring.c:38-54 | takes min(len, room) bytes and appends exactly those |
| ByteRing.Ring.Pop | src/shared/usbif_byte_ring.c:56-72 | hands out the oldest min(max, queued) bytes and keeps the rest in order |
| RingSteps.StepInv | src/shared/usbif_byte_ring.c:38-72 | with loads, single-byte copies and stores interleaved, every step of either side keeps the ring's invariant |
| RingSteps.RegionsDisjoint | src/shared/usbif_byte_ring.c:46-51 | no cell the producer may be writing is one the consumer may be reading |
| RingSteps.RunsLinearize | src/shared/usbif_byte_ring.c:38-72 | every interleaving is a run of a FIFO queue bounded by `size`: each store appends or removes exactly its bytes, every other step changes nothing |
| RingSteps.NothingLostOrReordered | src/shared/usbif_byte_ring.c:38-72 | popped bytes followed by queued bytes are the published bytes |
| RingSteps.PushNeverShort | src/shared/usbif_byte_ring.c:38-45 | a push of no more than the room seen earlier is never short, whatever was popped meanwhile |
| SinkGate.GenOfCollides | src/shared/usbif_pcm_sink.c:29-40 | two opens share a generation iff a multiple of 2^32 - 1 opens lies between them |
| SinkGate.StepInv | src/shared/usbif_pcm_sink.c:29-107 | every atomic step of any caller, the owner and the consumer keeps the composed invariant of gate, lock, ring and accounting |
| SinkGate.ReachableInv | src/shared/usbif_pcm_sink.c:29-107 | so the invariant holds after every run |
| SinkGate.LoadTailInv | src/shared/usbif_pcm_sink.c:82-86 | a write holding the lock chooses whole-frame bytes that fit the true room |
| SinkGate.PushLoads | src/shared/usbif_pcm_sink.c:87-89 | its push takes all the bytes chosen, and only the lock holder pushes |
| SinkGuarantees.CloseWaitsForAll | src/shared/usbif_pcm_sink.c:42-52 | once close has returned no call is past the gate, in any interleaving of any number of callers |
| SinkGuarantees.NoneEntersClosedGeneration | src/shared/usbif_pcm_sink.c:58-65 | and none gets past it under a generation handed out so far, while fewer than 2^32 - 1 opens lie between |
| SinkGuarantees.NoTouchAfterFree | src/shared/usbif_pcm_sink.h:7-31 | no step of a call touches the ring while its storage may have been freed |
| SinkGuarantees.SinkEntersIff | src/shared/usbif_pcm_sink.c:58-65 | a sink of the k-th open gets in iff a stream is open whose number differs from k by a multiple of 2^32 - 1 |
| SinkGuarantees.FirstSinkRevived | src/shared/usbif_pcm_sink.c:30-33 | a run in which the first stream's sink is let into a later stream |
| SinkGuarantees.OneProducer | src/shared/usbif_pcm_sink.c:76-92 | at most one caller is between taking the try-lock and releasing it, and with no call in progress it is free |
| SinkGuarantees.ChosenBytesFit | src/shared/usbif_pcm_sink.c:82-89 | the bytes a write chose from the room still fit when it pushes them |
| SinkGuarantees.EveryByteAccounted | src/shared/usbif_pcm_sink.c:71-95 | popped and queued bytes are the accepted writes in order, each a whole number of frames and as long as the write returned |
| SinkAmounts.ChoosesMost | src/shared/usbif_pcm_sink.c:82-86 | over every run, a write holding the lock chooses at its second load n bytes: whole frames, no more than its data or the room the ring then has, and a frame more would pass one of them; none only if not one frame fits |
| SinkAmounts.WriteReturnsWhatFits | src/shared/usbif_pcm_sink.c:71-95 | however any run goes on until it leaves, an admitted write that won the lock returns exactly those bytes |
| SinkAmounts.LoserReturnsNothing | src/shared/usbif_pcm_sink.c:76-81 | and one that found the lock taken returns 0 |
| SinkAmounts.WinnerHasTheLock | src/shared/usbif_pcm_sink.c:76-83 | one that found it free has it, alone, and looks at the room next |
| SinkAmounts.RefusedReturnsMinusOne | src/shared/usbif_pcm_sink.c:58-74 | at the gate a call is refused, with -1, iff its generation is 0 or not the open stream's |
| SinkGuarantees.OwnStepLowersRank | src/shared/usbif_pcm_sink.c:58-107 | each step of its own brings a call nearer to leaving: at most 8 steps and one per byte |
| SinkGuarantees.OthersKeepRank | src/shared/usbif_pcm_sink.c:58-107 | no step of anyone else takes it further from leaving |
| SinkGuarantees.OwnStepEnabled | src/shared/usbif_pcm_sink.c:58-107 | a call inside always has a step to take: it never waits |
| SinkGuarantees.CtxRoundTrip | src/usbif_host_stream.c:512-534 | packing slot and generation into a C sink's ctx is faithful iff the generation fits 30 bits, as the code demands |
| SinkGuarantees.CtxEntersIff | src/usbif_host_stream.c:514-522 | a C sink gets in exactly when the sink of its generation does |
| SinkSpace.ReachableCounting | src/shared/usbif_byte_ring.c:38-72 | after any run the indices are the bytes published and popped, counted over two laps |
| SinkSpace.SpaceAnswer | src/shared/usbif_pcm_sink.c:97-107 | over every run between its two loads, space() is negative iff the bytes popped by the second passed those published by the first by an amount between 0 and the size, modulo twice the size; otherwise which whole frames it answers |
| SinkSpace.SpaceOfSoleWriter | src/shared/usbif_pcm_sink.c:97-107 | if no other call publishes between the loads the answer is exactly the room in whole frames |
| SinkSpace.SpaceGoesNegative | src/shared/usbif_pcm_sink.c:97-107 | a run in which an open stream's space() is negative |
| PcmSink.Sink.Open | src/shared/usbif_pcm_sink.c:29-40 | a new, non-zero generation, larger than the last until it wraps |
| PcmSink.Sink.Enter | src/shared/usbif_pcm_sink.c:58-65 | lets in exactly the open stream's generation, and counts it |
| PcmSink.Sink.Write | src/shared/usbif_pcm_sink.c:71-95 | -1 for any sink but the open stream's; otherwise the whole frames that fit, which is what the ring gains |
| PcmSink.Sink.Space | src/shared/usbif_pcm_sink.c:97-107 | -1, or the whole frames of the room |
| IsoTiming.Pace.Next | src/shared/usbif_iso_pace.h:36-46 | packet k's bytes exactly, with the carried remainder below one frame forever |
| IsoTiming.PaceStep | src/shared/usbif_iso_pace.h:37-39 | the carried remainder is what makes the exact rate come due |
| IsoTiming.PacketWhole | src/shared/usbif_iso_pace.h:43-45 | with a cap no packet exceeds it or splits a frame |
| IsoTiming.WindowExact | src/shared/usbif_iso_pace.h:36-46 | a window of packets carries exactly the frames due in it iff the cap cut none of them |
| IsoTiming.RateExact | src/shared/usbif_iso_pace.h:36-46 | uncapped, the frames after k packets are floor(k * rate * slot_us / 1000000), and any window carries the floor or the ceiling of its ideal |
| IsoTiming.NeverCappedIff | src/shared/usbif_iso_pace.h:36-46 | the cap never bites iff the endpoint takes the ideal count rounded up |
| IsoTiming.PktsFit | src/shared/usbif_iso_queue.h:55-58 | a transfer spans at most 61 slots or is one packet, with the most packets that fit |
| IsoTiming.NumXferCovers | src/shared/usbif_iso_queue.h:62-67 | the fewest transfers in 3..12 that cover the time wanted, and when they do |
| IsoTiming.QueueIs | src/shared/usbif_iso_queue.h:47-70 | the packets of a transfer are the most of 32 or 8 within 61 slots, at least one; the transfers the fewest of 3 to 12 that cover three ticks, or 12; an interval or tick of 0 counts as 1 |
| IsoTiming.QueueCoversThreeTicks | src/shared/usbif_iso_queue.h:47-70 | at every interval to 32768 and tick to 15 ms the packets cover 3 * max(tick, 1) * 1000 us |
| IsoTiming.QueueIsTransfers | src/shared/usbif_iso_queue.h:72-79 | the queue's bus time is that of its transfers |
| Playback.PieceWhole | src/usbif_host_stream.c:157-168 | a packet's bytes and its silence are whole frames, and it is silent only if it emptied the ring |
| Playback.Transfer.Lay | src/usbif_host_stream.c:162-168 | a packet's bytes and silence lie behind those before it |
| Playback.OutStream.FillPacket | src/usbif_host_stream.c:154-171 | one packet takes exactly what the spec gives it from the ring, whatever is written between its look and its read |
| Playback.OutStream.Fill | src/usbif_host_stream.c:150-174 | whatever others write during it, the transfer's packets are those wanted in order, num_bytes is their sum and fits the buffer |
| Playback.PlaysWhatWasWritten | src/usbif_host_stream.c:150-174 | over every interleaving of writes and packets, bytes laid minus silence, then the ring, are the bytes written, and everything stays on frame boundaries |
| Playback.FillGoesOnPlaying | src/usbif_host_stream.c:150-174 | a transfer that Fill fills at any moment of a run, with writes landing between its packets and inside them, goes on with it: its bytes come behind all laid before, the ring holds the rest, and both are the bytes written |
| Playback.SilenceMeansDry | src/usbif_host_stream.c:165-168 | silence is laid only after everything queued was taken |
| StreamSlots.Stream.Callback | src/usbif_host_stream.c:183-238 | a transfer called back goes out again iff the stream is open and the library takes it, and is counted: the table's callback step |
| StreamSlots.Stream.WaitRetired | src/usbif_host_stream.c:245-251 | the wait leaves held exactly those not called back, by callback steps |
| StreamSlots.Stream.Stop | src/usbif_host_stream.c:256-288 | the gate is closed; the slot is free iff every transfer came back, and otherwise nothing is freed: the table's stop |
| StreamSlots.Stream.Open | src/usbif_host_stream.c:369-431 | opens with 3 transfers or more, at least one on the bus and the gate open; or fails with nothing left allocated: the table's open step |
| StreamRuns.StepInv | src/usbif_host_stream.c:183-288 | opens, callbacks, unplugging and nested stops keep the table's invariant |
| StreamRuns.AlwaysSafe | src/usbif_host_stream.c:183-288 | after any run, no step frees a transfer the library holds or a ring a producer can reach, or reuses a slot that has anything; inflight is always the number held |
| StreamRuns.StopIsRun | src/usbif_host_stream.c:245-288 | a whole stop is a stretch of the table's run: a begin, the callbacks of its two waits, an end |
| StreamRuns.StopFreesOrKeeps | src/usbif_host_stream.c:275-287 | a stop that is over frees all or keeps all, by whether every transfer came back |
| UvcSpec.CutIsFrames | src/shared/usbif_uvc_frame.h:96-112 | the pure cut of a packet stream loses no packet, keeps the order, and every piece has one frame ID and at most one end |
| UvcSpec.CutOnlyAtEnds | src/shared/usbif_uvc_frame.h:96-112 | and it cuts only for cause: a frame not ended by its own packet is followed by one of the other frame ID |
| UvcSpec.KeptIff | src/shared/usbif_uvc_frame.h:63-84 | a frame is kept iff it is not the stream's first, it ended, it has 1 to max_frame bytes, no packet of it was bad or had the error bit, and each payload found room for all so far and the length |
| UvcSpec.HeaderParses | src/shared/usbif_uvc_frame.h:87-125 | a header of any length from 2 to 255, its flags 1, 2 and 64, and the payload behind all of the header |
| UvcSpec.HeaderCannotBe | src/shared/usbif_uvc_frame.h:87-95 | bad iff the header length is below 2 or beyond the packet; nothing below 2 bytes |
| UvcSpec.RecordBytes | src/shared/usbif_uvc_frame.h:72-82 | a record is the frame's length in four bytes, lowest first, and the frame |
| UvcAssembler.PublishesKeptFrames | src/shared/usbif_uvc_frame.h:63-135 | over every packet stream the assembler publishes exactly the frames the spec keeps, in order, and its counters are the verdicts |
| UvcAssembler.EveryFrameCounted | src/shared/usbif_uvc_frame.h:64-82 | each ended frame that carried payload has exactly one verdict |
| UvcAssembler.CountersAddUp | src/shared/usbif_uvc_frame.h:63-84 | frames + torn + full + big is the number of ended frames with payload, and fill == seen unless torn, full or big |
| UvcAssembler.KeptAreWhole | src/shared/usbif_uvc_frame.h:112-129 | what is published ended with its end-of-frame packet, undamaged, with room, and is 1 to max_frame bytes |
| FrameRing.StageWindows | src/usbif_host_stream.h:36-39 | staging past the head changes no queued byte and only the free bytes it is told to |
| FrameRing.Ring.Stage | tests/test_iso_stream.c:72-81 | the bytes laid past the head if there is room, and nothing published |
| FrameRing.Ring.Commit | tests/test_iso_stream.c:83-85 | the first staged bytes published, the rest still staged |
| FrameRing.Ring.ReadInto | src/usbif_host_stream.h:31-34 | a reader takes the oldest bytes and only frees room, behind everything staged |
| UvcFrames.Assembler.Publish | src/shared/usbif_uvc_frame.h:72-82 | the unchecked length stage always succeeds, and one whole record is published |
| UvcFrames.Assembler.End | src/shared/usbif_uvc_frame.h:63-84 | the frame's end does to fields and ring what the value-level end does |
| UvcFrames.Assembler.Follow | src/shared/usbif_uvc_frame.h:97-112 | a frame ID that moves on inside a frame tears and ends it, and publishes nothing |
| UvcFrames.Assembler.Take | src/shared/usbif_uvc_frame.h:117-129 | the payload is staged behind what came before, or marks the frame full or big |
| UvcFrames.Assembler.Payload | src/shared/usbif_uvc_frame.h:87-135 | each packet does to the fields what Receive says, and appends exactly the published records to the ring |
| UvcFrames.FrameInOnePacket | src/shared/usbif_uvc_frame.h:87-135 | a frame in one packet, whatever its header's length: the ring gains exactly its length in four bytes and its payload |
| UvcFrames.ReadBeside | src/usbif_host_stream.h:31-39 | a reader's bytes leave the frame being built beside them where and as it was |
| CameraRead.FirstRecord | packages/usb-host-video/usb/host/video.py:157-164 | the first four bytes of whole records are the length of the first frame, which follows |
| CameraRead.NewestFittingIs | packages/usb-host-video/usb/host/video.py:149-164 | what read() is asked for: a frame that fits and that no later one fits |
| CameraRead.Camera.Skip | packages/usb-host-video/usb/host/video.py:166-170 | exactly the record's bytes are dropped, and the loop ends |
| CameraRead.Camera.ReadOne | packages/usb-host-video/usb/host/video.py:158-163 | one whole record off the ring, into the buffer if it fits |
| CameraRead.Camera.Read | packages/usb-host-video/usb/host/video.py:149-164 | the newest frame that fits of those queued and those that arrived meanwhile, the ring left empty; the loop ends |
| VideoSession.AlwaysInSync | packages/usb-host-video/usb/host/video.py:149-177 | over every interleaving of packets and the reader's single ring calls the ring is whole records but for what is read of the first, each kept frame is read once and in order, and staging fits beside the queue |
| VideoSession.PacketArrives | src/shared/usbif_uvc_frame.h:87-135 | the assembler and its ring, at a packet, do what the session's step says |
| VideoSession.ReaderTurn | packages/usb-host-video/usb/host/video.py:156-177 | each call of the reader on the ring the assembler is building in is the session's turn |
| VideoSession.TurnTakes | packages/usb-host-video/usb/host/video.py:156-177 | each of the reader's calls takes from the front of the ring: four bytes, the frame, or at most 512 of one that does not fit |
| VideoSession.ReadDrains | packages/usb-host-video/usb/host/video.py:157-164 | fewer than four bytes means none: every frame due was read, and the buffer has the newest that fits |
| BulkOnly.CbwRoundTrip | packages/usb-host-msc/usb/host/msc.py:84 | the device unpacks the tag, length, direction and command the host packed |
| BulkOnly.CswRoundTrip | packages/usb-device-msc/usb/device/msc.py:362-366 | the host unpacks the tag, residue and status the device packed |
| BulkOnly.BlockCommandRoundTrip | packages/usb-host-msc/usb/host/msc.py:129 | the device reads back the address and count of READ(10) and WRITE(10) |
| MscWire.CbwBytes | packages/usb-host-msc/usb/host/msc.py:84 | the command wrapper, byte for byte |
| MscWire.CswBytes | packages/usb-device-msc/usb/device/msc.py:362-366 | the status wrapper, byte for byte |
| MscWire.BlockCommandBytes | packages/usb-host-msc/usb/host/msc.py:129 | READ(10) and WRITE(10), byte for byte |
| MscWire.CbwStarts | packages/usb-device-msc/usb/device/msc.py:174-191 | 31 bytes that begin 55 53 42 43 start the command in the last 16, with the tag and length in bytes 4 to 11 and the direction of bit 7 of byte 12 |
| MscWire.CbwRefused | packages/usb-device-msc/usb/device/msc.py:174-184 | any other transfer is counted as an error and the next wrapper waited for |
| MscWire.EjectsExactly | packages/usb-device-msc/usb/device/msc.py:196-201 | on the dispatch's outcome: 1B passes, and the medium is out after it iff it was or bit 1 of byte 4 is set and bit 0 is not; any other command leaves it |
| MscWire.OutIffTakenOut | packages/usb-device-msc/usb/device/msc.py:174-201 | over every run the medium is out iff a valid wrapper with that command has come since the last insert |
| MscWire.PlainCommands | packages/usb-device-msc/usb/device/msc.py:202-258 | with the medium out all but 1B, 12 and 03 are refused with 2/3A; the commands without data pass; unknown ones are refused with 5/20 |
| MscWire.AboutTheDrive | packages/usb-device-msc/usb/device/msc.py:206-217 | INQUIRY's bytes, and REQUEST SENSE's eighteen with the key and code kept, then forgotten |
| MscWire.AboutTheMedium | packages/usb-device-msc/usb/device/msc.py:218-237 | the bytes of READ CAPACITY, READ FORMAT CAPACITIES and both MODE SENSE answers |
| MscWire.BlockCommands | packages/usb-device-msc/usb/device/msc.py:238-256 | a protected write is refused with 7/27, a range past the disk with 5/21; else the first up to 8 blocks are sent or asked for |
| MscProtocol.DispatchGoes | packages/usb-device-msc/usb/device/msc.py:196-258 | every command leaves exactly one transfer outstanding, its tag and length kept and the disk untouched |
| MscProtocol.StepSound | packages/usb-device-msc/usb/device/msc.py:145-371 | every completion and lifecycle event keeps the protocol and disk invariants |
| MscProtocol.OneAnswerEach | packages/usb-device-msc/usb/device/msc.py:174-371 | over every run: one transfer outstanding while up, each valid CBW answered once by a CSW of its tag and residue max(dlen - moved, 0), no block touched outside the disk, with the medium out, or written if read-only |
| MscProtocol.EachCommandAnswered | packages/usb-device-msc/usb/device/msc.py:174-371 | with no transfer lost, the tags of the statuses sent are those of the commands received, one for one and in order, but for the one under way |
| MscProtocol.UnwrittenBlocksStay | packages/usb-device-msc/usb/device/msc.py:302-314 | over every run a block no write covered keeps its bytes |
| MscProtocol.CompletionProgress | packages/usb-device-msc/usb/device/msc.py:279-371 | each completion brings the command nearer to its status |
| MscProtocol.AnsweredInTime | packages/usb-device-msc/usb/device/msc.py:279-371 | however its transfers complete, a command is answered within its rank |
| MscInterface.MSCInterface.Dispatch | packages/usb-device-msc/usb/device/msc.py:196-258 | the object's dispatch is the state machine's, and its medium is out afterwards iff it was or the command is 1B with bit 1 of byte 4 set and bit 0 clear |
| MscInterface.MSCInterface.CbwDone | packages/usb-device-msc/usb/device/msc.py:174-194 | a wrapper of the wrong length or signature re-arms and is counted; a valid one starts its command |
| MscInterface.MSCInterface.ReadChunk | packages/usb-device-msc/usb/device/msc.py:279-286 | the next 8 blocks or fewer, in range, go out from the buffer |
| MscInterface.MSCInterface.WriteChunk | packages/usb-device-msc/usb/device/msc.py:305-310 | the chunk in the buffer replaces exactly its blocks |
| MscInterface.MSCInterface.Status | packages/usb-device-msc/usb/device/msc.py:362-366 | the status carries the command's tag and the bytes announced and not moved |
| MscInterface.MSCInterface.OnOpen | packages/usb-device-msc/usb/device/msc.py:145-148 | the wait for a command is armed whenever nothing is outstanding, also after a transfer was lost with the interface open |
| MscInterface.MSCInterface.OnReset | packages/usb-device-msc/usb/device/msc.py:150-152 | nothing is outstanding |
| MscInterface.MSCInterface.Insert | packages/usb-device-msc/usb/device/msc.py:260-262 | the medium is in again |
| MscInterface.MSCInterface.Fail | packages/usb-device-msc/usb/device/msc.py:321-341 | the object's refusal is the state machine's: outward data taken and dropped, inward data zeros |
| MscInterface.MSCInterface.InCompleted | packages/usb-device-msc/usb/device/msc.py:288-371 | a completed IN transfer does to the object what the step says |
| MscInterface.MSCInterface.OutCompleted | packages/usb-device-msc/usb/device/msc.py:174-360 | a completed OUT transfer does to the object and its disk what the step says |
| MscInterface.RAMBlockDev.WriteBlocks | packages/usb-device-msc/usb/device/msc.py:385-387 | exactly the blocks' bytes are replaced |
| MscPipes.ReadPipeWhole | src/usbif_host_xfer.c:412-460 | a host read of exactly the device's next transfer, in whole packets, gets exactly it |
| MscPipes.ReadPipeShort | src/usbif_host_xfer.c:412-460 | a read of more than that gets it alone when it ends in a short packet |
| MscPipes.ReadsThrough | packages/usb-device-msc/usb/device/msc.py:279-295 | a host read of the blocks asked for gets exactly them through any number of 8-block chunks, the status next |
| MscPipes.WritesThrough | packages/usb-device-msc/usb/device/msc.py:297-314 | a host write puts exactly its bytes on the disk through any number of chunks, the status next |
| MscPipes.DropsThrough | packages/usb-device-msc/usb/device/msc.py:348-360 | all data of a refused write is dropped and the disk stays |
| MscCommand.ReadCommand | packages/usb-host-msc/usb/host/msc.py:78-110 | READ(10) in range returns the disk's blocks with the command's tag and residue 0, the drive idle again |
| MscCommand.WriteCommand | packages/usb-host-msc/usb/host/msc.py:78-110 | WRITE(10) in range changes exactly those blocks, tag matching, residue 0 |
| MscCommand.RefusedWrite | packages/usb-device-msc/usb/device/msc.py:321-360 | a refused write of any size, of a buffer or whole-packet buffers, is answered, with the reason kept for REQUEST SENSE |
| MscCommand.RefusedRead | packages/usb-device-msc/usb/device/msc.py:329-346 | a refused read of at most a buffer gets zeros and its failed status |
| MscCommand.RefusedReadLosesStatus | packages/usb-device-msc/usb/device/msc.py:329-346 | and a larger one, in whole packets, times out at the host, or ends in a phase error where the host's packets had no room for all of the status |
| MscCommand.CutRead | packages/usb-host-msc/usb/host/msc.py:86-110 | a read of more than a chunk that is not whole packets brings its first chunk, and the verdict is that of the second chunk's first 13 bytes |
| MscCommand.SenseCommand | packages/usb-device-msc/usb/device/msc.py:210-219 | the reason of the last refusal is told once |
| MscCommand.CapacityCommand | packages/usb-device-msc/usb/device/msc.py:220-222 | the host reads the device's own last block and block size |
| MscCommand.VerdictBytes | packages/usb-host-msc/usb/host/msc.py:97-110 | what the host makes of a status: the signature's four bytes and the tag's, or a phase error |
| MscCommand.CommandBytes | packages/usb-host-msc/usb/host/msc.py:64-73 | the command blocks of TEST UNIT READY, REQUEST SENSE and READ CAPACITY, byte for byte |
| MscDrive.Drive.Command | packages/usb-host-msc/usb/host/msc.py:78-110 | the tag counts up modulo 2^32 and the three transfers are made in order |
| MscDrive.Drive.Connect | packages/usb-host-msc/usb/host/msc.py:64-74 | a drive comes up exactly if its medium is in, with the device's block count and size |
| MscDrive.StopsIff | packages/usb-host-msc/usb/host/msc.py:123-136 | no 64-block command is refused iff the whole range would not be |
| MscDrive.Drive.ReadBlocks | packages/usb-host-msc/usb/host/msc.py:123-143 | the blocks before the first refused command are in the buffer, and how it ends is known exactly; one command for each 64 blocks; of chunks that are not whole packets, the first chunk is, and it ends by what stands in the status's place |
| MscDrive.Drive.WriteBlocks | packages/usb-host-msc/usb/host/msc.py:123-148 | of at most 8 blocks or whole-packet chunks: the blocks before the first refused command are on the disk, nothing else changed, and the error has the sense; one command for each 64 blocks |
| MscDrive.ReadsExactlyTheDisk | packages/usb-host-msc/usb/host/msc.py:140-143 | readblocks succeeds iff in range with the medium in and at most 8 blocks, or whole-packet chunks, or a block taken for the status; then the buffer is exactly the disk's blocks, or in the last case the first 8 only |
| MscDrive.FooledIs | packages/usb-host-msc/usb/host/msc.py:97-110 | a block is taken for the status iff the ninth begins with the signature, the tag and a status of 0 |
| MscDrive.BlockTakenForStatus | packages/usb-host-msc/usb/host/msc.py:123-143 | nine 100-byte blocks over 64-byte packets, read as done without the ninth |
| MscDrive.WritesExactlyThose | packages/usb-host-msc/usb/host/msc.py:145-148 | of at most 8 blocks or whole-packet chunks, writeblocks succeeds iff in range, writable and present, and then exactly those blocks changed; a protected or absent disk never changes |
| UvcDescriptors.Formats | packages/usb-host-video/usb/host/_uvc.py:179-245 | the loop over the blob is the fold of its step over the descriptors, of which UvcWire says what it reads |
| UvcDescriptors.AltSettings | packages/usb-host-video/usb/host/_uvc.py:248-283 | the loop over the blob is the fold of its step over the descriptors |
| UvcDescriptors.FrameParses | packages/usb-host-video/usb/host/_uvc.py:147-176 | a printed frame descriptor parses to its index, size, frame bytes and one interval |
| UvcDescriptors.FormatsRoundTrip | packages/usb-device-video/usb/device/video.py:122-153 | what a camera prints, among other functions' descriptors, parses to one format with exactly its sizes, frame bytes and interval |
| UvcDescriptors.TierRoundTrip | packages/usb-host-video/usb/host/_uvc.py:248-283 | and to exactly one bandwidth tier, its endpoint at alternate 1 |
| UvcWire.IntervalsAre | packages/usb-host-video/usb/host/_uvc.py:147-168 | the intervals of any frame descriptor: as many as byte 25 says and the length holds, each the four bytes in its own place; of a continuous range its two ends |
| UvcWire.AnyFormatsRoundTrip | packages/usb-host-video/usb/host/_uvc.py:147-245 | any list of formats, each with any frames of any number of intervals or a continuous range, printed among other functions' descriptors, is read as exactly that list |
| UvcWire.AnyAlternatesRoundTrip | packages/usb-host-video/usb/host/_uvc.py:248-283 | any alternates and their endpoints, printed, are read as exactly those with their packet size, multiplier, interval and kind |
| UvcWire.OpeningBytes | packages/usb-device-video/usb/device/video.py:130-145 | a camera's descriptors up to its format, byte for byte |
| UvcWire.FormatBytes | packages/usb-device-video/usb/device/video.py:142-150 | its format and each of its sizes, byte for byte, with the bit rate cut to 32 bits |
| UvcWire.ClosingBytes | packages/usb-device-video/usb/device/video.py:151-153 | its colours and alternate 1 with the endpoint, byte for byte |
| UvcCamera.CameraInterface.DescCfg | packages/usb-device-video/usb/device/video.py:122-153 | desc_cfg appends exactly the camera's descriptors |
| UvcCamera.ModesOf | packages/usb-device-video/usb/device/video.py:74-92 | the frame bytes of every size, and the interval |
| UvcCamera.ProbeBytes | packages/usb-device-video/usb/device/video.py:105-117 | the 34 bytes of a size's PROBE and COMMIT block |
| UvcCamera.CameraInterface.Setup | packages/usb-device-video/usb/device/video.py:164-198 | what each request to PROBE and COMMIT is answered with, by its number: the size probed or current, the first, the last, zeros, 34, 3; a buffer for the host's data; any other is refused |
| UvcCamera.CameraInterface.Ack | packages/usb-device-video/usb/device/video.py:199-212 | a proposal becomes the size probed, a commit the current size iff the camera is idle |
| UvcNegotiate.AltForPayload | packages/usb-host-video/usb/host/_uvc.py:314-337 | the smallest isochronous alternate that carries the payload; None iff none does |
| UvcNegotiate.Candidates | packages/usb-host-video/usb/host/video.py:103-114 | the wanted sizes within the limit, all of them, ordered by area and then compressed before not |
| UvcNegotiate.OfferedIs | packages/usb-host-video/usb/host/video.py:103-113 | the sizes tried are those of every wanted format that are within the limit, each with its area and whether it is compressed |
| UvcNegotiate.Negotiate | packages/usb-host-video/usb/host/video.py:38-52 | the device has taken the size proposed and the host what it costs; the device's current size is the one the host was told iff it was idle or had it already, its frame bytes iff it was idle or they are as many |
| UvcNegotiate.StreamingKeepsItsSize | packages/usb-device-video/usb/device/video.py:199-212 | a camera streaming 512-byte frames whose host is told of 2048 |
| UvcNegotiate.FirstTriedIs | packages/usb-host-video/usb/host/video.py:116-120 | the interval tried first is the shortest, or the nearest to the rate asked for, and of equals the first listed |
| UvcNegotiate.FirstTriedMeans | packages/usb-host-video/usb/host/video.py:116-120 | with no rate asked for it is the shortest listed; else no listed interval's rate, 10^7 over it, is nearer to the rate asked for |
| UvcNegotiate.ProbeIs | packages/usb-host-video/usb/host/video.py:42-46 | the 34 bytes the host proposes: both indices, the interval, and zeros |
| UvcNegotiate.TryFrame | packages/usb-host-video/usb/host/video.py:115-130 | one size is had iff the bus can carry it, at its shortest interval or the one nearest the rate asked for, and on the smallest alternate; otherwise the smallest payload refused is remembered |
| UvcNegotiate.PickMode | packages/usb-host-video/usb/host/video.py:115-130 | a mode is picked iff one is offered and the bus can have it; an idle device then agrees on it, a streaming one keeps its size, whatever was refused before |
| UvcMeeting.Meet | packages/usb-host-video/usb/host/video.py:84-97 | host and device, from blob to commit: the host has the largest size within the limit, the device has it too iff it was idle or had it before |
| UacDescriptors.Streams | packages/usb-host-audio/usb/host/_uac.py:125-228 | the loop over the blob, the clocks filled in and alternates without audio left out |
| UacDescriptors.FeedbackIgnored | packages/usb-host-audio/usb/host/_uac.py:201-206 | the feedback endpoint is passed over |
| UacDescriptors.SpeakerRoundTrip | packages/usb-device-audio/usb/device/audio.py:102-130 | what a speaker prints parses to exactly one OUT stream with its channels, bits, packet and clock |
| UacDescriptors.PacketHolds | packages/usb-device-audio/usb/device/audio.py:71-72 | a speaker's packet holds one frame more than the whole frames a bus slot brings |
| UacWire.AnyStreamsRoundTrip | packages/usb-host-audio/usb/host/_uac.py:107-228 | any Audio 1.0 device's streams over any units, printed among other functions' descriptors, are read as exactly those, each with its channels, bits, rates, also fewer than counted, endpoint, direction and synchronisation |
| Uac2Wire.AnyTopologyRoundTrip | packages/usb-host-audio/usb/host/_uac.py:125-228 | any Audio 2.0 device's streams over any units: exactly those, each with the clock of the last terminal it names, or the first clock source's if that says none |
| UacWire.ControlBytes | packages/usb-device-audio/usb/device/audio.py:110-119 | a speaker's association and control interface, byte for byte |
| UacWire.FeatureBytes | packages/usb-device-audio/usb/device/audio.py:120-122 | its feature unit: mute and volume of the master and of each channel |
| UacWire.StreamingBytes | packages/usb-device-audio/usb/device/audio.py:123-130 | its streaming interface with endpoint and feedback, byte for byte |
| UacSpeaker.SpeakerInterface.DescCfg | packages/usb-device-audio/usb/device/audio.py:102-130 | desc_cfg appends exactly the speaker's descriptors |
| UacSpeaker.SpeakerInterface.ClassRequest | packages/usb-device-audio/usb/device/audio.py:180-198 | what each clock and feature request is answered with, or stalled |
| UacSpeaker.SpeakerInterface.Ack | packages/usb-device-audio/usb/device/audio.py:169-176 | mute and volume take exactly what was set on them, once |
| UacSpeaker.ClockRanges | packages/usb-host-audio/usb/host/audio.py:38-51 | the numbers of a RANGE answer, three for each of at most eight subranges that its length holds, each the four bytes in its own place; None for one too short |
| UacSpeaker.SpeakerInterface.SetVolume | packages/usb-device-audio/usb/device/audio.py:143-176 | a volume set by the host is the volume read back, for every 16-bit value |
| UacSpeaker.RatesFromRanges | packages/usb-host-audio/usb/host/_uac.py:237-255 | exactly the rates the triplets stand for, each once, rising |
| UacSpeaker.StandsForIs | packages/usb-host-audio/usb/host/_uac.py:230-254 | which rates a triplet stands for, the twelve in common use written out |
| UacSpeaker.RatesOfSpeaker | packages/usb-device-audio/usb/device/audio.py:185-186 | the speaker's RANGE answer decodes to exactly its one rate |
| Rndis.UnwrapInverts | src/usbif_host_net.c:101-120 | messages back to back, frames or not, and less than a header after them, unwrap to exactly their frames in order |
| Rndis.WrappedFramesReturn | src/usbif_host_net.c:73-120 | wrapped frames of 14 to 1536 bytes all come back, in order |
| Rndis.TransferIsOneFrame | src/usbif_host_net.c:160-176 | a transmitted transfer fits 2048 bytes, is that one frame, and ends in a short packet iff packets are longer than a byte |
| Rndis.MessageBytes | src/usbif_host_net.c:101-106 | a message's bytes: type, length, the frame's place counted from byte 8, and its length |
| Rndis.TransferBytes | src/usbif_host_net.c:160-176 | a transmitted transfer, byte for byte |
| Rndis.UnwrapBreaks | src/usbif_host_net.c:101-120 | messages and then one whose length is below 44 or past the end: their frames, and broken |
| Rndis.Net.RxFrame | src/usbif_host_net.c:73-91 | a frame of 14 to 1536 bytes goes to the stack or, for want of memory or refused, is counted as dropped; any other is counted as an error |
| Rndis.Net.RxTransfer | src/usbif_host_net.c:93-120 | the loop ends; the stack gets the frames it takes in order, every frame counted once as received, dropped or an error, and a broken message as an error |
| Rndis.Net.Transmit | src/usbif_host_net.c:139-188 | refused, dropped or in flight from the first free slot, no transfer in flight touched, and counted once |
| HostLock.StepInv | src/usbif_host.c:137-200 | every step of any task keeps the lock's invariant |
| HostLock.DepthIsOwners | src/usbif_host.c:137-153 | the depth is the owner's recursion if an API task owns the lock, and otherwise 0 |
| HostLock.SuspendReleases | src/usbif_host.c:179-190 | a suspend leaves its task without the mutex |
| HostLock.WaitRestores | src/usbif_host_xfer.c:129-150 | whatever runs and nests during a wait, its resume restores exactly the levels its suspend found |
| HostLock.NeverStuck | src/usbif_host.c:137-200 | in the middle of a call a task has exactly one step, and only a resume's take waits, for the mutex; between calls just the take, give, suspend and resume its place allows |
| HostLock.WholeSuspend | src/usbif_host.c:179-190 | a suspend by the owner ends with the mutex free, the depth 0, and its levels kept |
| HostLock.WholeResume | src/usbif_host.c:192-200 | a resume that finds the mutex free ends owning it as many levels as were kept, and counts as many |
| HostLock.SuspendNeedsTheLock | src/usbif_host.c:179-190 | the counter stays right through a suspend iff its caller holds the lock |
| EventRing.StepInv | src/shared/usbif_ringbuf.c:20-46 | every step of either side keeps the queued records whole and in order |
| EventRing.DeliversInOrder | src/shared/usbif_ringbuf.c:20-46 | records are delivered in order and each complete, at most capacity - 1 wait, and a push is refused iff that many do |
| EventRing.EveryPushCounted | src/shared/usbif_ringbuf.c:20-36 | over every run each push begun is accepted, counted as dropped or under way, and nothing else is accepted |
| EventRing.EventQueue.Push | src/shared/usbif_ringbuf.c:20-36 | appends or counts a drop, full at one below the capacity |
| EventRing.EventQueue.Pop | src/shared/usbif_ringbuf.c:38-46 | the oldest record, or none |
| HostSlots.RowsUpdate | src/usbif_host.c:488-496 | a slot changed trades its row for the new one, and no other row changes |
| HostSlots.Host.OnNewDev | src/usbif_host.c:431-516 | the first free slot iff the device is usable and wanted; the ATTACH raised and queued has its speed, vendor, product, classes and address; errors counted exactly |
| HostSlots.Host.OnDevGone | src/usbif_host.c:525-547 | the first slot with the handle freed and a DETACH raised with that slot's speed, vendor, product, classes and address; or an error |
| HostSlots.Host.Drain | src/mod_usbif.c:240-264 | up to the limit, oldest first, nothing lost between drained and queued |
| HostSlots.Host.FoundThenDrained | src/mod_usbif.c:240-264 | a device found, and poll(): behind the events that waited comes its record, field by field |
| HostSlots.Host.Snapshot | src/usbif_host.c:1169-1184 | between events: the first `max` devices attached, entry k with the speed, vendor, product, classes and address of the k-th slot in use; if all fit and no event was lost, what replaying drained and queued events gives |
| SnapshotSteps.StepInv | src/usbif_host.c:496-504 | every write of a claim and every read of a snapshot, interleaved, keeps each field and each value read as the device's or the one's before |
| SnapshotSteps.RowExactIff | src/usbif_host.c:1165-1184 | a row read while the slot is not claimed again is its device's iff each field read early was the same in the device before |
| SnapshotSteps.RightForAllIff | src/usbif_host.c:1165-1184 | a schedule gives the right row for every two devices in turn iff it reads no field before it is written |
| SnapshotSteps.RowOfSeveral | src/usbif_host.c:1165-1184 | claimed again in mid-read or not, each field of a row is that of a device the slot has had since the look or the one before |
| SnapshotSteps.WholeRowIsRight | src/usbif_host.c:1165-1184 | a row is right if the device was written when in_use was read, also if it goes meanwhile |
| SnapshotSteps.LockedRow | src/usbif_host.c:327-330 | under the host lock, which the host task's claims hold, a snapshot's row would be right |
| SnapshotSteps.DepartedRow | src/usbif_host.c:496-504 | a run in which a snapshot has the whole row of the device that left the slot |

## Left out

- ESP-IDF and FreeRTOS calls, enumeration, the transfer layer's endpoints and the host's teardown: the library appears only as "submit, call back, free", and a mutex as take and give.
- The C memory model: each atomic operation, and each volatile index access of the event ring, is one sequentially consistent step; a record copied by the event ring is two.
- That close() ends while new callers keep coming: its wait is unbounded on purpose. What is proved is that each call inside leaves within a bounded number of its own steps.
- PcmSink.Sink.Close: one caller at a time, so the wait is over at once; the waiting close is SinkGate's.
- IsoTiming.Pace.Next: counts and products are unbounded; the source's 32-bit product of frames and frame size, which only an absurd rate would overflow, is not modelled.
- MscDevice: class control requests, exceptions of the block device, and the `_state` field, which nothing reads. Zero-block commands are modelled on the device and not on the host.
- MscPipes.WritePipe: stalls and CLEAR_FEATURE, which this device never causes.
- MscPipes.ReadOn: of a read whose time is up the library is taken to report the bytes that came; for the packet sizes a bulk endpoint may have the results hold either way.
- MscDrive.Drive.Failure: the reset after a phase error and the sense after that, whose end is an error in any case.
- MscDrive.Drive.WriteBlocks: of more than 8 blocks in chunks that are not whole packets nothing is said, since what the device's controller does with a packet that overruns its transfer is not in the repository; the check of `offset`, here and in reads.
- MscInterface.MSCInterface.OnOpen: one that comes while an inward transfer is outstanding does nothing here, where the source arms the wait beside it; the USB core closes the endpoints, with on_reset, before it opens them again.
- FrameRing.Ring: machine.USBDevice.Ring is not part of this model; the contract of src/usbif_host_stream.h is built on the byte ring's indices.
- CameraRead.Feed: the assembler's commits arrive when the reader looks; one that lands between its reads of a record is behind that record, so it is seen at the next look.
- UvcDescriptors.Formats: the cleaned-up spelling of an unknown FourCC; a descriptor too short for a field that is read, an IndexError in the source, ends the walk as failed.
- UvcNegotiate.TrialKey: rates are real numbers; two intervals whose distances from the rate asked for differ by less than a float can tell are ordered by the difference.
- UvcCamera.CameraInterface.SetAlt: emptying the ring and attaching the stream; wants_frame and write_frame, which rest on the ring's own write.
- UacSpeaker.SpeakerInterface: the feedback of service(), a control loop, and the streaming alternate.
- Rndis.Unwrap: offset and length fields whose sum with 8 passes 2^32.
- HostSlots.Host.Snapshot: here between events; beside the host task's writes one slot's row is SnapshotSteps'.
- SinkGate: rings of at most a third of 2^32 bytes, for which the 32-bit index step is exact.
- SinkSpace.SpaceAnswer: a frame size that with the ring's passes 2^31, at which the whole frames of a wrapped room could be a positive int.
- EventRing.EventQueue.TakeDropped: atomic here; the source reads and then clears.
- HID, CDC, MIDI, display and the hardware checks: they would add easy members or rest on hardware.
