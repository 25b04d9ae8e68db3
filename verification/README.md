# Verified models of a ground-station video player

The program receives a digital FPV video stream, shows it, records it and sends it on. This project
models six of its parts in Dafny and proves what they promise: the writeback capture pool, the DVR
worker with its timeline, the MPEG-TS muxer, the H.265 RTP packer and unpacker, the RTP reorder queue,
and the RTCP bookkeeping. `dafny verify dfyconfig.toml` checks everything.

## What is in it

| file | part of the program |
|---|---|
| `WritebackPool.dfy`, `WritebackOwnership.dfy`, `WritebackSizing.dfy`, `WritebackQueue.dfy` | six capture buffers and their fences moving between the display thread, the control calls and the encoder thread, as atomic steps; who holds what, how many are needed, and what becomes of every queued task |
| `PtsFifo.dfy` | the queue of presentation stamps of an encoder session |
| `DvrWorker.dfy`, `DvrSafety.dfy`, `DvrCommands.dfy`, `DvrHistory.dfy` | the recording worker, the stall watchdog and the control calls, as atomic steps over `dvr_state`, `recording_armed`, `stalled_`, the open file and the byte-counted queue; what every interleaving keeps, what each command achieves, and what the queue and a file add up to |
| `FrameTimeline.dfy` | the 90 kHz frame durations that close drift |
| `TsPacket.dfy`, `TsTables.dfy`, `TsWriter.dfy` | the muxer, and strict packet and section parsers written from ISO/IEC 13818-1 |
| `Crc32.dfy`, `CrcDivision.dfy`, `CrcLinear.dfy`, `CrcOrbit.dfy`, `CrcDamage.dfy` | the CRC of a section as the code computes it, as a long division of polynomials, and what damage it detects |
| `TsDemux.dfy`, `TsRecording.dfy`, `TsFailedWrites.dfy`, `TsGaps.dfy` | a demultiplexer as a fold over packets, and what a recording plays back whole, cut short, joined in the middle, or after failed writes, with the counter gaps a player notices |
| `Bytes.dfy`, `RtpPacket.dfy`, `AnnexB.dfy`, `Avcc.dfy` | big-endian fields, RTP packets, the start-code and length-prefix splitters and which of them is chosen |
| `H265Pack.dfy`, `H265Unpack.dfy`, `H265RoundTrip.dfy`, `H265Integrity.dfy`, `H265Recovery.dfy` | packer, unpacker, their round trip, what the unpacker guarantees on any packet stream, and how it recovers after losses |
| `RtpQueue.dfy`, `RtpRing.dfy`, `RtpQueueRuns.dfy` | the reorder queue as values, as the growing ring array, and over whole runs |
| `Tcc.dfy`, `TccChunks.dfy`, `TccDeltas.dfy`, `TccPack.dfy`, `TccStray.dfy`, `TccRoundTrip.dfy`, `TccExample.dfy` | transport-wide congestion control feedback: chunks, deltas, the unpacker; the two passes of the packer and its byte count; what comes back; how compact it is, and one message byte by byte |
| `RtcpLoss.dfy` | sequence validation and the loss arithmetic of report blocks |
| `MemberList.dfy`, `RtpMembers.dfy`, `RtpContext.dfy` | the inline-plus-heap member list, reference counting, and the context that owns them |

Code that changes things in place is modelled by classes and loops (`TsWriter.Writer`,
`H265Pack.H265Packer`, `H265Unpack.H265Unpacker`, `RtpRing.Ring`, `MemberList.List`,
`RtpContext.Context`, `RtcpLoss.Member`, `PtsFifo.Session`, `FrameTimeline.Timeline`); each method is
tied to a function of the old state, and the theorems are about that function. The two concurrent parts
are step machines: one action is one atomic section of one thread, a run is any sequence of actions, and
the hardware, the storage and the clock choose freely.

Where the code and a comment beside it disagree, the model follows the code. While a rotation is
pending, the DVR drops non-key access units (`src/dvr/dvr.cpp:327-330`) although the comment above says
they are still written; the 4 GiB bound relies on the drop. With a jitter threshold of zero the reorder
queue only increments `first_seq` (`lib/librtp/source/rtp-queue.c:289-291`), so ordering holds exactly for
the other thresholds (`RtpQueueRuns.ThresholdIsExact`). A resync keeps
the old packets and takes its step modulo 65535 (`lib/librtp/source/rtp-queue.c:253-269`).

Computations are tied to descriptions that do not use them. The CRC register is the remainder of a long
division written on bits, without the loop (`CrcDivision.RegisterIsRemainder`), and the check built on it
rejects damage (`CrcDamage.OneBitIsNoticed`). The parsers that read the muxer's output back know the
standard's constants and not the writer's. The recorder's worker, a machine of atomic steps, serves each
message as a short description says (`DvrCommands.TurnServes`), and what every command achieves follows.

Properties that turned out to need a condition are stated with it, exactly, and with an input where they fail:
the six-slot pool (`WritebackSizing.SixIsExact`, `Starves`), feedback round trips
(`TccRoundTrip.ThereAndBack`, `Tcc.CoveredIff`, `LongRunIsUncovered`, `TccDeltas.InStepIff`), delivery order
(`RtpQueueRuns.ThresholdIsExact`, `NoThresholdDeliversTwice`), packets lost by a resync
(`RtpQueueRuns.LostOnlyToFullResync`, `FullResyncHappens`), a reassembled unit against the size guard
(`H265Integrity.ReassembledUnitIsIntact`, `DamagedUnitGoesOutUnflagged`), the segment clock
(`FrameTimeline.NeverLagsIff`, `ExactIff`) and the muxer clock beside it (`MuxerClock`), RTP packets with the
P bit set or an extension behind a clear X bit (`RtpPacket.RoundTripIff`, `HiddenExtensionIsPayload`),
length-prefixed input (`Avcc.SplitPrefixed`), the reference time of feedback (`Tcc.ReferenceTime`), the loss
fraction (`RtcpLoss.FractionFitsIff`, `ReportOnProbationMisreads`), the stamps of an encoder session
(`PtsFifo.InStepIffHonest`, `ExtraPacketRepeats`, `NothingHeldBack`), a fetched member when its list cannot
grow (`RtpMembers.FetchIsLiveIff`), and units and counter gaps behind failed writes (`TsGaps.UnitPlaysIff`,
`GapNoticedIff`).

The feedback packer counts its free bytes from the full buffer size although the eight header bytes are
already written (`lib/librtp/source/rtcp-rtpfb.c:699-707`). What follows, on every path, refusals included:
it stays inside the buffer iff the buffer has room for all that its two passes call for
(`TccPack.InsideIff`), which is the message on lists that keep the passes in step
(`TccPack.MessageInsideIff`). A buffer up to six bytes too small still gets all of it; a smaller one gets
seven or eight bytes more than it has, and never more than eight (`TccPack.WrittenBound`). Eight are
reached by 8 to 14 packets received in order (`TccPack.EightOver`).

Its second pass walks the chunks the first one wrote and takes for granted that they stand for every
status. A run of 8192 or more, or a run across the wrap of the 16-bit numbers, puts it out of step
(`TccDeltas.InStepIff`), and it may then read memory behind the chunks as chunks. That memory is a parameter
of the model: whatever it holds, a list with a run that is too long never comes back
(`TccStray.NeverComesBack`). A run across the wrap usually walks off its chunks
(`TccRoundTrip.StraddlingRunStrays`), but may go unnoticed (`TccRoundTrip.StraddleUnnoticed`). The assertion
inside the run loop (`lib/librtp/source/rtcp-rtpfb.c:765`) is taken as compiled out.

## Model

| member | source | states |
|---|---|---|
| `WritebackOwnership.StepKeeps` | src/encoder/video_encoder.cpp:128-167 | every atomic action of every thread keeps the ownership invariant: one holder per busy slot and open fence, at most three queued frames, no fence left after the poll, no pending slot before a submission, a quiet close |
| `WritebackOwnership.Interleavings` | src/encoder/video_encoder.cpp:454-520 | the invariant holds after every sequence of display, control and encoder actions, for a pool of any size |
| `WritebackOwnership.OneHolderEach` | src/main.cpp:442-499 | in every interleaving a slot is busy iff exactly one of display, queue, encoder and MPP holds it, and a fence is open iff it has exactly one holder |
| `WritebackOwnership.ReleasedOnce` | src/encoder/video_encoder.cpp:41-50 | every action that gives a slot or a fence back finds it taken and clears exactly that one: no double release, no leak |
| `WritebackOwnership.ShutdownFreesAll` | src/encoder/video_encoder.cpp:255-279 | once the encoder thread has torn down for the last time - which can be brought about from every state (`WritebackQueue.ShutdownIsReachable`) - no slot is busy and no fence is open |
| `WritebackOwnership.FiveTaken` | src/encoder/video_encoder.cpp:373-418 | outside the display thread at most five slots are taken: three queued, one being encoded, one held by MPP |
| `WritebackSizing.Starves` | src/main.cpp:444-450 | for every pool smaller than six some interleaving leaves the display thread without a slot |
| `WritebackSizing.SixIsExact` | src/main.cpp:115 | the display thread always finds a slot iff the pool has at least six |
| `WritebackQueue.TakenInOrder` | src/encoder/video_encoder.cpp:454-520 | in every interleaving the tasks put into the queue are taken in that order, none lost and none twice: all of them as long as nothing is purged, and all but the frames in any case |
| `WritebackQueue.PurgeLeaves` | src/encoder/video_encoder.cpp:145-167 | a call that purges and posts, its steps interleaved with any others: afterwards the queue holds the tasks that were no frames, in order, and then the posted one |
| `WritebackQueue.ShutdownIsReachable` | src/encoder/video_encoder.cpp:192-194 | after every run some continuation carries a shutdown through to the end of the encoder thread |
| `WritebackQueue.FrameFate` | src/encoder/video_encoder.cpp:373-418 | in every interleaving, a frame the encoder thread took is with MPP once its task is done only if it was let through, its fence was signalled and the encoder took it; otherwise MPP holds what it held, or nothing after a drain or a rebuild |
| `WritebackQueue.FrameArrives` | src/encoder/video_encoder.cpp:373-418 | and conversely: such a frame ends up with MPP, the steps to it are all possible, and its fence is closed |
| `PtsFifo.Session.constructor` | src/encoder/video_encoder.h:141-144 | a session starts with an empty queue and zero counts |
| `PtsFifo.Session.EmitPacket` | src/encoder/video_encoder.cpp:309-326 | the oldest queued stamp, or the last one again, goes to the consumers |
| `PtsFifo.Session.DrainToConsumers` | src/encoder/video_encoder.cpp:328-337 | all packets of a drain are emitted in turn; a nested drain does nothing |
| `PtsFifo.Session.FlushEncoder` | src/encoder/video_encoder.cpp:259-265 | a flush takes packets until every submitted frame is accounted for or the hardware has no more |
| `PtsFifo.Session.EncodeFrame` | src/encoder/video_encoder.cpp:388-418 | drain, then queue the stamp iff the frame was imported and submitted |
| `PtsFifo.Session.TearDown` | src/encoder/video_encoder.cpp:255-279 | what the hardware still returns is emitted, then the queue and the counts are cleared |
| `PtsFifo.EmitManyInStep` | src/encoder/video_encoder.cpp:309-318 | as long as the queue lasts, n packets take its first n stamps in order |
| `PtsFifo.DrainKeepsIff` | src/encoder/video_encoder.cpp:311-316 | a drain keeps stamps and counts in step iff it returns no more packets than frames are in flight |
| `PtsFifo.FlushKeeps` | src/encoder/video_encoder.cpp:259-265 | a flush keeps them in step whatever the hardware returns |
| `PtsFifo.StampsInOrder` | src/encoder/video_encoder.cpp:427-451 | in every run, across all sessions: the k-th unit of a session carries the stamp of its k-th frame, submitted equals emitted plus queued, no stamp outlives a teardown |
| `PtsFifo.OutIsYielded` | src/encoder/video_encoder.cpp:309-337 | in every honest run a session has handed over one stamp for each packet its drains returned while it was ready |
| `PtsFifo.EndHandsOver` | src/encoder/video_encoder.cpp:255-279 | a teardown closes the session with exactly the first stamps of its frames: as many as packets came out before, in its own drain and in its flush, but never more than frames were taken |
| `PtsFifo.NothingHeldBack` | src/encoder/video_encoder.cpp:259-265 | every frame's stamp is handed over iff the hardware returned a packet for each of them by the end of the flush |
| `PtsFifo.InStepIffHonest` | src/encoder/video_encoder.cpp:309-337 | all sessions are in step at every point of a run iff no drain in it returned more packets than the hardware held frames |
| `PtsFifo.ExtraPacketRepeats` | src/encoder/video_encoder.cpp:314-317 | a concrete run in which one packet too many repeats a stamp of the session before |
| `DvrSafety.StepKeeps` | src/dvr/dvr.cpp:139-237 | every action of the worker, the encoder thread, the watchdog and the control calls keeps the recorder's invariant |
| `DvrSafety.Interleavings` | src/dvr/dvr.cpp:139-282 | the invariant holds after every sequence of actions |
| `DvrSafety.ReturnsClean` | src/dvr/dvr.cpp:631-659 | whenever the worker has returned, no file is open and recording is not armed |
| `DvrSafety.OpenMeansArmedOrStalled` | src/dvr/dvr.cpp:239-282 | a file that is open outside `stop` means armed or stalled |
| `DvrSafety.IdleRecordingIsArmed` | src/dvr/dvr.cpp:470-497 | when the worker is idle, state Recording implies armed |
| `DvrSafety.DisabledForGood` | src/dvr/dvr.cpp:83-106 | once disabled, disabled after every further action |
| `DvrSafety.QueueIsBounded` | src/dvr/dvr.cpp:284-306 | in every run the byte count equals the sum of the queued payloads and stays within 32 MiB |
| `DvrSafety.ExpansionFits` | src/dvr/storage_guard.cpp:8 | the cap plus the muxed size of any queueable unit stays below 4 GiB |
| `DvrSafety.SizesCapped` | src/dvr/dvr.cpp:309-347 | on FAT32 the open file is below the cap unless a rotation is pending or it is being closed, and below 4 GiB always |
| `DvrSafety.FilesBelow4GiB` | src/dvr/dvr.cpp:327-347 | in every run on FAT32 the size of the open file stays below 4 GiB |
| `DvrSafety.NothingAppendedWhilePending` | src/dvr/dvr.cpp:327-335 | while a rotation is pending no action of any thread adds to the open file |
| `DvrSafety.GivesUpForGood` | src/dvr/dvr.cpp:353-356 | in every run, five failed writes in a row or three failed opens have disabled the DVR or the worker is on its way to it |
| `DvrCommands.TurnServes` | src/dvr/dvr.cpp:139-237 | one turn of the worker's loop, from the wait that takes a message to the next wait or the return, does exactly what a description by message says, for every message, state, flag and outcome of storage |
| `DvrCommands.SettledIsRun` | src/dvr/dvr.cpp:139-237 | such a turn is a run of the worker's atomic steps |
| `DvrCommands.StopCloses` | src/dvr/dvr.cpp:178-192 | a stop, or a toggle while recording: back at the wait with the file closed, nothing armed or pending, state Idle |
| `DvrCommands.StartArms` | src/dvr/dvr.cpp:470-497 | a start, or a toggle while idle: recording, armed, and a file pending iff storage is ready; otherwise nothing changes |
| `DvrCommands.RotatePends` | src/dvr/dvr.cpp:203-208 | a rotation while armed makes a new file pending and leaves the open one and the flags as they are |
| `DvrCommands.FailDisables` | src/dvr/dvr.cpp:210-215 | a failure while armed: disabled, closed, disarmed, and the worker has returned |
| `DvrCommands.DisabledReturns` | src/dvr/dvr.cpp:160-201 | a disabled DVR, whatever message comes next: what is open is closed and the worker returns |
| `DvrCommands.ShutdownReturns` | src/dvr/dvr.cpp:217-236 | a shutdown in any state: the worker returns with nothing open, armed or queued |
| `DvrCommands.StorageStops` | src/dvr/dvr.cpp:158-158 | when storage gives a reason to stop, an open recording is closed before any message is looked at, and the DVR is disabled iff the reason is fatal |
| `DvrCommands.StopHolds` | src/dvr/dvr.cpp:178-183 | from the switch on a stop request to the next wait, whatever the other threads do in between: no file is open, nothing is armed, the state is not Recording |
| `DvrCommands.WatchdogDisables` | src/dvr/dvr.cpp:250-282 | the watchdog past its time-out disables and disarms, marks the stall and drops the queued access units but no command; it does nothing to a disabled or stalled DVR |
| `DvrCommands.StallReturns` | src/dvr/dvr.cpp:239-248 | when storage answers again after a stall, the worker closes the file and returns |
| `DvrCommands.OfferedIsQueued` | src/dvr/dvr.cpp:284-306 | an access unit offered while armed goes to the back of the queue if its bytes fit, and otherwise notes the overflow |
| `DvrHistory.TakenInOrder` | src/dvr/dvr.cpp:284-306 | in every interleaving, until the worker has returned, messages are taken in the order they were put, none lost and none twice: all of them as long as the watchdog drops nothing, and the commands in any case |
| `DvrHistory.FileIsItsUnits` | src/dvr/dvr.cpp:324-342 | in every interleaving the size of the open file is the sum of the muxed sizes of the units written to it since it was opened, and the first of them is a keyframe |
| `FrameTimeline.Timeline.constructor` | src/dvr/dvr.cpp:68-75 | the clock of a recorder that has opened nothing |
| `FrameTimeline.Timeline.NewFile` | src/dvr/dvr.cpp:610-625 | a new file restarts the segment clock |
| `FrameTimeline.Timeline.NextFrameDuration` | src/dvr/dvr.cpp:540-561 | the duration and the clock after a frame, including backward stamps, gaps and the clamp |
| `FrameTimeline.DurationsBounded` | src/dvr/dvr.cpp:540-561 | for any sequence of stamps every duration is between 1 and 22500 ticks |
| `FrameTimeline.DurationIs` | src/dvr/dvr.cpp:540-561 | the duration of any frame: behind a gap, which never is the first of a file, that of the frame before; otherwise what brings the clock to its stamp, but at least one tick |
| `FrameTimeline.NextSegmentIsFresh` | src/dvr/dvr.cpp:610-614 | every further file starts with a fresh clock |
| `FrameTimeline.NeverLags` | src/dvr/dvr.cpp:546-559 | for increasing stamps from zero on the clock never lags the stamps and leads by at most 22500 ticks |
| `FrameTimeline.ExactWithoutGaps` | src/dvr/dvr.cpp:546-559 | for such stamps without gaps it is exact from the second frame on |
| `FrameTimeline.NeverLagsIff` | src/dvr/dvr.cpp:543-559 | for any increasing stamps the clock is never behind and at most 22500 ticks ahead at every frame iff the first stamp is not negative or there is only one |
| `FrameTimeline.ExactIff` | src/dvr/dvr.cpp:543-559 | without gaps it is exact at every frame from the second on under the same condition |
| `FrameTimeline.MuxerClock` | src/dvr/ts_writer.cpp:298-300 | the sum of the durations never exceeds the segment clock, and equals it iff there was no gap |
| `Crc32.FeedByte` | src/dvr/ts_writer.cpp:48-51 | the bit loop of one byte does what `Feed` says; what the register then is, `CrcDivision.RegisterIsRemainder` says |
| `Crc32.Compute` | src/dvr/ts_writer.cpp:45-54 | the byte loop computes the register after the whole string, which is the remainder of its division (`CrcDivision.RegisterIsRemainder`) |
| `Crc32.FeedOwnTop` | src/dvr/ts_writer.cpp:48-51 | feeding the register its own top byte shifts it by one byte |
| `Crc32.Residue` | src/dvr/ts_writer.cpp:129-134 | for every section, the CRC over the section and its CRC bytes is zero |
| `CrcDivision.RegisterIsRemainder` | src/dvr/ts_writer.cpp:43-54 | for every string the register is the remainder of a long division of its bits, the first 32 inverted and 32 zeros appended, by x^32 + x^26 + x^23 + x^22 + x^16 + x^12 + x^11 + x^10 + x^8 + x^7 + x^5 + x^4 + x^2 + x + 1 |
| `CrcDivision.TailIsRemainder` | src/dvr/ts_writer.cpp:129-134 | the four bytes a section carries are the bits of that remainder, the most significant first |
| `CrcLinear.OnlyItsTail` | src/dvr/ts_writer.cpp:129-134 | a string and four bytes behind it pass the check iff the bytes are its CRC |
| `CrcLinear.FourDiffer` | src/dvr/ts_writer.cpp:45-54 | different words of four bytes behind the same string leave different registers |
| `CrcLinear.StaysDifferent` | src/dvr/ts_writer.cpp:45-54 | registers that differ stay different whatever bytes follow |
| `CrcOrbit.BitIsNotStuffing` | src/dvr/ts_writer.cpp:126-135 | a single bit shifted through the register for as long as a section can be never meets what stuffing of a power of two of bytes leaves there |
| `CrcDamage.DamageIsNoticed` | src/dvr/ts_writer.cpp:126-135 | any change within four consecutive bytes of a section or its CRC that leaves the length field as it is makes the receiver refuse the section |
| `CrcDamage.OneBitIsNoticed` | src/dvr/ts_writer.cpp:126-135 | so does any single changed bit wherever it is, the length field included, for every section of 8 to 179 bytes that states its length |
| `TsPacket.TimestampReadBack` | src/dvr/ts_writer.cpp:77-83 | every 33-bit time stamp is read back from its five bytes |
| `TsPacket.PcrReadBack` | src/dvr/ts_writer.cpp:87-94 | every 33-bit clock base is read back from its six bytes |
| `TsPacket.VideoPacketParses` | src/dvr/ts_writer.cpp:201-256 | a video packet parses to its start flag, PID, counter, random-access flag, PCR and exact payload, for every amount of stuffing |
| `TsTables.SectionPacketParses` | src/dvr/ts_writer.cpp:114-136 | a table packet parses to its PID, counter and body |
| `TsTables.SectionReadBack` | src/dvr/ts_writer.cpp:126-135 | a section that states its own length passes the CRC check and comes back, whatever it holds |
| `TsTables.PatReadBack` | src/dvr/ts_writer.cpp:141-154 | a PAT reader finds the PMT's PID |
| `TsTables.PmtReadBack` | src/dvr/ts_writer.cpp:158-176 | a PMT reader finds the HEVC stream's PID |
| `TsWriter.AuIsKeyframe` | src/dvr/ts_writer.cpp:59-73 | the scan that steps over start codes is true iff some start code is followed by an IRAP header |
| `TsWriter.PacketFront` | src/dvr/ts_writer.cpp:206-256 | header and adaptation field for any remaining length: payload room is the least of the remainder and 176 or 184, the rest is stuffing |
| `TsWriter.CopySlice` | src/dvr/ts_writer.cpp:258-274 | the two-source copy yields a slice of header and unit joined |
| `TsWriter.Writer.EmitSection` | src/dvr/ts_writer.cpp:114-136 | one table packet is appended and the counter advances modulo 16 |
| `TsWriter.Writer.EmitPsi` | src/dvr/ts_writer.cpp:138-177 | the PAT and then the PMT packet are appended |
| `TsWriter.Writer.EmitPes` | src/dvr/ts_writer.cpp:179-279 | exactly the packets of the unit are appended and the video counter advances by their number |
| `TsWriter.Writer.MuxAccessUnit` | src/dvr/ts_writer.cpp:281-302 | tables if due, then the unit, in one write; the clock advances even if the write fails |
| `TsWriter.Writer.SyncIfDue` | src/dvr/ts_writer.cpp:317-329 | a due sync resets its marks and a failed one lengthens the failure streak |
| `TsWriter.Writer.Open` | src/dvr/ts_writer.cpp:344-357 | an empty file with size and streak zero, or no file when it cannot be opened |
| `TsWriter.Writer.BeginVideo` | src/dvr/ts_writer.cpp:359-376 | the mux state restarts iff a file is open |
| `TsWriter.Writer.WriteNal` | src/dvr/ts_writer.cpp:378-404 | all four outcomes: empty unit, discarded unit, failed write with a prefix on disk, successful write |
| `TsWriter.UnitSize` | src/dvr/ts_writer.cpp:198-278 | a unit takes exactly the number of bytes that the recorder's size bound assumes |
| `TsDemux.RunAppend` | src/dvr/ts_writer.cpp:104-112 | demultiplexing composes over concatenated packets |
| `TsDemux.ChopConcat` | src/dvr/ts_writer.cpp:104-112 | a file of whole packets cut at any byte leaves the whole packets before the cut |
| `TsDemux.FeedFirst` | src/dvr/ts_writer.cpp:183-193 | the first packet of a unit closes the unit before and opens one with the right stamps |
| `TsDemux.PesRun` | src/dvr/ts_writer.cpp:201-278 | after n packets of a unit exactly the bytes those packets carry have been recovered and the counter has no gap |
| `TsDemux.TablesRun` | src/dvr/ts_writer.cpp:138-177 | the table pair tunes the demultiplexer to the video PID |
| `TsRecording.PlayedAt` | src/dvr/ts_writer.cpp:283-293 | the reference for the k-th unit: clock, time stamp one second ahead, keyframe flag, tables due; tables precede the first unit and every keyframe |
| `TsRecording.UnitRun` | src/dvr/ts_writer.cpp:281-302 | one muxed unit is demultiplexed unchanged and leaves the counters in step |
| `TsRecording.RecordingPlaysBack` | src/dvr/ts_writer.cpp:359-404 | demultiplexing the file of any sequence of writes gives exactly those units in order, with PCR the sum of earlier durations and PTS 90000 ahead modulo 2^33, the keyframe flags, tables where due, and no counter gap |
| `TsRecording.JoinAtKeyframe` | src/dvr/ts_writer.cpp:210-213 | demultiplexing from the packets of any keyframe on yields the rest of the recording with the same stamps |
| `TsRecording.CutLosesOnlyATail` | src/dvr/ts_writer.cpp:104-112 | any prefix of the file plays every unit that ends inside it unchanged and at most one more, truncated |
| `TsRecording.Record` | src/dvr/ts_writer.cpp:344-404 | a writer on storage of any size leaves exactly the first bytes of the recording, which play back all but a tail |
| `TsFailedWrites.NothingIsUnplayed` | src/dvr/ts_writer.cpp:104-112 | whatever bytes end up behind a recording, its units still play, the last one at least |
| `TsFailedWrites.EarlierUnitsStillPlay` | src/dvr/ts_writer.cpp:295-301 | after any mixture of failed, partial and successful writes the units before the first failure still play |
| `TsFailedWrites.CountIsDiskIff` | src/dvr/ts_writer.cpp:104-112 | the counted size is the size on disk iff no failed write left bytes behind, and never more |
| `TsFailedWrites.Try` | src/dvr/ts_writer.cpp:378-404 | the writer under any sequence of attempts, empty units included: the bytes on disk and the counted size |
| `TsGaps.WholePacketsPlay` | src/dvr/ts_writer.cpp:295-301 | after any mixture of writes whose failures left whole packets, a player shows exactly the units of the reference, and a gap in the counters goes unnoticed exactly where every loss is a multiple of sixteen packets |
| `TsGaps.UnitPlaysIff` | src/dvr/ts_writer.cpp:281-302 | a write adds a unit to what is played iff one of its video packets is on disk and some write up to then left both tables; the unit has the stamps of its place in time, failed writes counted, and all of its bytes iff all of its packets are there |
| `TsGaps.GapNoticedIff` | src/dvr/ts_writer.cpp:104-112 | one failed write between successful ones is noticed unless its lost video packets are a multiple of sixteen and no table is lost that is sent again |
| `TsGaps.AttemptShows` | src/dvr/ts_writer.cpp:138-279 | any first packets of a unit, from any state of the demultiplexer, have the effect the reference gives them |
| `Bytes.ReadBack32` | lib/librtp/source/rtp-packet.c:120-124 | a 32-bit field written in network order is read back from the middle of any string |
| `RtpPacket.SerializeHeader` | lib/librtp/source/rtp-packet.c:99-138 | the header bytes, the rest of the buffer untouched, and exactly when it refuses |
| `RtpPacket.HeaderOnWire` | lib/librtp/source/rtp-packet.c:99-138 | the twelve fixed bytes field by field, as section 5.1 of RFC 3550 lays them out |
| `RtpPacket.Serialize` | lib/librtp/source/rtp-packet.c:140-150 | exactly when it refuses, and every byte that goes out: header, what was in the buffer where a clear X bit keeps a counted extension from being written, payload |
| `RtpPacket.Deserialize` | lib/librtp/source/rtp-packet.c:23-97 | an accepted packet has version 2, fields in range and a payload inside the input |
| `RtpPacket.CsrcRoundTrip` | lib/librtp/source/rtp-packet.c:51-55 | every contributing source is read back |
| `RtpPacket.HeaderRoundTrip` | lib/librtp/source/rtp-packet.c:23-138 | for every packet the serialiser accepts and every buffer content: the parser restores every field and the extension the X bit announces, takes the unwritten bytes of a hidden one for payload, and with the P bit set strips as many bytes as the last one says |
| `RtpPacket.RoundTripIff` | lib/librtp/source/rtp-packet.c:81-138 | for every packet the serialiser accepts: it comes back whole iff the X bit is set or there is no extension, and the P bit is clear or the last byte is a zero behind the header |
| `RtpPacket.HiddenExtensionIsPayload` | lib/librtp/source/rtp-packet.c:111-137 | with a clear X bit, the four bytes of an extension are counted, never written, and come back as payload |
| `AnnexB.ScanFrom` | lib/librtp/payload/rtp-h264-bitstream.c:8-18 | the result is the first position behind a start code, and there is none before it |
| `AnnexB.FindStartCode` | lib/librtp/payload/rtp-h264-bitstream.c:8-18 | the loop finds that position |
| `AnnexB.TrimEnd` | lib/librtp/payload/rtp-h264-bitstream.c:128-128 | exactly the trailing zero bytes go |
| `AnnexB.FilterTail` | lib/librtp/payload/rtp-h264-bitstream.c:128-128 | the loop stops at the last nonzero byte |
| `AnnexB.SplitAnnexB` | lib/librtp/payload/rtp-h264-bitstream.c:99-140 | the pointer loop hands over the units between start codes, up to and including the first one the handler fails on |
| `AnnexB.SplitAvcc` | lib/librtp/payload/rtp-h264-bitstream.c:75-96 | the length-prefix loop hands over the prefixed units, likewise |
| `AnnexB.Split` | lib/librtp/payload/rtp-h264-bitstream.c:105-113 | the detected format decides which splitter runs; its result says whether the handler failed |
| `AnnexB.SplitJoin` | lib/librtp/payload/rtp-h264-bitstream.c:99-140 | units joined with 4-byte start codes are split back exactly, the last one marked |
| `Avcc.SplitPrefixed` | lib/librtp/payload/rtp-h264-bitstream.c:20-96 | nonempty units behind 4-byte lengths are taken for that iff the first and the last one have at least two bytes; then they are split back exactly, the last one marked |
| `H265Pack.H265Packer.PackNalu` | lib/librtp/payload/rtp-h265-pack.c:66-93 | one RTP packet with the next sequence number, marked for the last VCL unit, or a refusal below three bytes |
| `H265Pack.H265Packer.FragmentLoop` | lib/librtp/payload/rtp-h265-pack.c:113-152 | the loop yields the fragments of the unit in order |
| `H265Pack.H265Packer.PackFragment` | lib/librtp/payload/rtp-h265-pack.c:127-147 | one turn writes header, FU header and slice into the buffer |
| `H265Pack.H265Packer.PackFu` | lib/librtp/payload/rtp-h265-pack.c:95-155 | all fragments, or a refusal, and the sequence number advances by their number |
| `H265Pack.H265Packer.PackUnit` | lib/librtp/payload/rtp-h265-pack.c:157-170 | the handler picks single packet or fragments by size |
| `H265Pack.H265Packer.Input` | lib/librtp/payload/rtp-h265-pack.c:172-179 | every unit is packed in order until one is refused |
| `H265Pack.WireReadBack` | lib/librtp/payload/rtp-h265-pack.c:74-90 | every packet the packer sends parses back to its fields and payload |
| `H265Pack.FragmentShape` | lib/librtp/payload/rtp-h265-pack.c:113-152 | the i-th fragment: its slice, size limit, sequence number, S on the first only, E and the marker on the last only |
| `H265Unpack.H265Unpacker.Input` | lib/librtp/payload/rtp-h265-unpack.c:235-293 | the new state, the emissions and the return value for any packet, parse errors and allocation failure included |
| `H265Unpack.H265Unpacker.Fragment` | lib/librtp/payload/rtp-h265-unpack.c:154-233 | the fragment branch: start, continuation, gap, size guard, growth, end |
| `H265Unpack.H265Unpacker.Aggregate` | lib/librtp/payload/rtp-h265-unpack.c:94-131 | the aggregation loop emits each unit until one is malformed |
| `H265Unpack.RunAppend` | lib/librtp/payload/rtp-h265-unpack.c:235-293 | a run over two batches is the run over the second after the first |
| `H265RoundTrip.FragmentsRoundTrip` | lib/librtp/payload/rtp-h265-unpack.c:154-233 | the fragments of a unit, unpacked in order from any suffix on and from any state that holds what came before, emit the unit once, flagged iff something was lost before it |
| `H265RoundTrip.NalRoundTrip` | lib/librtp/payload/rtp-h265-pack.c:157-170 | one unit of 3 bytes to 10 MiB goes through packing and unpacking unchanged, whatever was lost before it |
| `H265RoundTrip.UnitsRoundTrip` | lib/librtp/payload/rtp-h265-pack.c:172-179 | so does every list of units, one emission for each, only the first flagged for what was lost before |
| `H265RoundTrip.AccessUnitRoundTrip` | lib/librtp/payload/rtp-h265-unpack.c:235-293 | an access unit split, packed, serialised, parsed and unpacked comes back byte for byte, one unflagged emission per unit, for every packet size and first sequence number |
| `H265RoundTrip.PacketsFit` | lib/librtp/payload/rtp-h265-pack.c:113-170 | every packet made of a list of units is at most as large as the size the packer was created with |
| `H265RoundTrip.FragmentOnWire` | lib/librtp/payload/rtp-h265-pack.c:113-152 | the payload of every fragment as section 4.4.3 of RFC 7798 lays it out: a header of type 49 between the outer bits of the unit's own, S, E and the unit's type, its slice |
| `H265RoundTrip.UnitMarkers` | lib/librtp/payload/rtp-h265-pack.c:66-170 | of the packets of a unit only the last can carry the marker; it does iff the unit is the last of its access unit and is fragmented or coded video |
| `H265RoundTrip.MarkerIsLast` | lib/librtp/payload/rtp-h265-pack.c:172-179 | of all the packets of an access unit only the last can carry the marker, and it does iff it is a fragment or coded video |
| `H265RoundTrip.RefusalEndsIt` | lib/librtp/payload/rtp-h265-pack.c:157-179 | a unit below three bytes ends the access unit: the packets are those of the units before it |
| `H265RoundTrip.Loopback` | lib/librtp/payload/rtp-h265-pack.c:172-179 | the two objects back to back deliver the joined units |
| `H265Integrity.PartialHasWindow` | lib/librtp/payload/rtp-h265-unpack.c:184-219 | after any packet stream a non-empty partial unit is what the size guard left of a gapless run of fragments since an S |
| `H265Integrity.ReassembledUnitIsIntact` | lib/librtp/payload/rtp-h265-unpack.c:154-233 | over every packet stream, an emitted reassembled unit comes from a gapless run from S to E; it is the rebuilt header plus all payloads iff no nonempty fragment hit the size guard |
| `H265Integrity.FlagIsPending` | lib/librtp/payload/rtp-h265-unpack.c:246-272 | after every packet stream the loss flag is set iff a packet, a fragment, an allocation or an aggregation packet was lost and no unit has come out since |
| `H265Integrity.EmissionFlags` | lib/librtp/payload/rtp-h265-unpack.c:235-293 | after every packet stream and for every packet something comes out of - a single NAL unit, a fragment, an aggregation packet - the first emission is flagged 0x100 iff such a loss is pending or a packet is missing before it, and every later one carries 0 |
| `H265Integrity.ByKind` | lib/librtp/payload/rtp-h265-unpack.c:235-293 | what a packet brings by its kind in any state: a malformed one nothing and no change, a single NAL unit that unit behind a start code, a reserved kind nothing |
| `H265Integrity.AggregateHolds` | lib/librtp/payload/rtp-h265-unpack.c:94-131 | what comes out of an aggregation packet, for any bytes: exactly the units it holds, in order, up to its end or to the first malformed length, which is the error it returns |
| `H265Integrity.DamagedUnitGoesOutUnflagged` | lib/librtp/payload/rtp-h265-unpack.c:161-165 | the family of inputs where it matters: a middle fragment over the guard is refused and the end fragment emits the unit without it, flags zero |
| `H265Integrity.KeptIsWhole` | lib/librtp/payload/rtp-h265-unpack.c:161-165 | what is kept is whole iff every refused fragment was empty |
| `H265Recovery.RecoversAfterLoss` | lib/librtp/payload/rtp-h265-unpack.c:235-293 | after any stream whatever, an access unit that starts behind a gap, or with no unit half done, or with a single packet, comes through byte for byte; its first unit is flagged iff a loss is pending or a packet is missing, the others are not |
| `RtpQueue.SearchIsScan` | lib/librtp/source/rtp-queue.c:111-140 | the binary search over wrapping numbers agrees with a linear scan on presence and position |
| `RtpQueue.WriteBounded` | lib/librtp/source/rtp-queue.c:142-180 | the queue never holds more than 3000 packets |
| `RtpQueue.WriteConserves` | lib/librtp/source/rtp-queue.c:188-278 | what was held plus what a write accepted is afterwards in the ring, in the bad list, freed or lost, each packet once |
| `RtpQueue.LossIsFullResync` | lib/librtp/source/rtp-queue.c:253-262 | a write loses packets iff it resyncs into a ring without room for the saved ones |
| `RtpQueue.ReadConserves` | lib/librtp/source/rtp-queue.c:280-309 | a read removes exactly the packet it returns |
| `RtpQueue.ReleasedIff` | lib/librtp/source/rtp-queue.c:280-309 | in terms of the times of the packets, across the wrap of the stamps: the head is released iff it is the one expected, nothing is waited for, or the packets held span the threshold |
| `RtpRing.Ring.constructor` | lib/librtp/source/rtp-queue.c:48-62 | an empty queue on probation |
| `RtpRing.Ring.Item` | lib/librtp/source/rtp-queue.c:122-123 | the i-th packet behind the wrap |
| `RtpRing.Ring.Find` | lib/librtp/source/rtp-queue.c:111-140 | the loop over the ring is the search over the sequence |
| `RtpRing.Ring.Grow` | lib/librtp/source/rtp-queue.c:149-170 | growing, also while wrapped, keeps the sequence |
| `RtpRing.Ring.Shift` | lib/librtp/source/rtp-queue.c:172-178 | the shift loop inserts at a position of the sequence |
| `RtpRing.Ring.Insert` | lib/librtp/source/rtp-queue.c:142-180 | insertion into the sequence, or a refusal when full |
| `RtpRing.Ring.ResetBadItems` | lib/librtp/source/rtp-queue.c:78-91 | the saved packets are freed |
| `RtpRing.Ring.Reset` | lib/librtp/source/rtp-queue.c:93-109 | everything held is freed and probation starts again |
| `RtpRing.Ring.Write` | lib/librtp/source/rtp-queue.c:188-278 | the ring does what the value-level write does: state, return value, frees, losses |
| `RtpRing.Ring.WriteUnproven` | lib/librtp/source/rtp-queue.c:193-213 | the probation branch |
| `RtpRing.Ring.WriteFar` | lib/librtp/source/rtp-queue.c:243-272 | the far-jump branch with its bad list |
| `RtpRing.Ring.CopySaved` | lib/librtp/source/rtp-queue.c:255-257 | the resync loop copies saved packets until the ring is full |
| `RtpRing.Ring.Read` | lib/librtp/source/rtp-queue.c:280-309 | the ring does what the value-level read does, for any threshold and any frequency it can divide by |
| `RtpQueueRuns.RunKeeps` | lib/librtp/source/rtp-queue.c:188-309 | over every run with a threshold, no resync and a window below 2^15, the ring holds increasing unwrapped numbers above everything delivered |
| `RtpQueueRuns.DeliveredInOrder` | lib/librtp/source/rtp-queue.c:280-309 | every such run delivers strictly increasing unwrapped numbers: in order, no duplicates |
| `RtpQueueRuns.AcceptedIff` | lib/librtp/source/rtp-queue.c:188-278 | off probation, by unwrapped numbers: exactly which packets go to the end, into their place, are refused as present or late, or are saved as far |
| `RtpQueueRuns.SavedIff` | lib/librtp/source/rtp-queue.c:241-278 | a saved far packet is joined by the next number modulo 65535; anything else starts the list over |
| `RtpQueueRuns.ResyncTakes` | lib/librtp/source/rtp-queue.c:253-269 | the packet that completes the list puts all of them behind what is held, nothing lost, when there is room for them |
| `RtpQueueRuns.NoThresholdDeliversTwice` | lib/librtp/source/rtp-queue.c:289-291 | with threshold zero and any frequency, an admissible run delivers the numbers 10, 12, 12 |
| `RtpQueueRuns.ThresholdIsExact` | lib/librtp/source/rtp-queue.c:280-309 | for every frequency, all admissible runs deliver strictly increasing numbers iff the threshold is not zero |
| `RtpQueueRuns.EveryPacketAccounted` | lib/librtp/source/rtp-queue.c:188-309 | over every run each accepted packet is in exactly one of ring, bad list, freed, lost and delivered, and the ring stays within 3000 |
| `RtpQueueRuns.LostOnlyToFullResync` | lib/librtp/source/rtp-queue.c:253-262 | a run loses nothing iff no write in it resyncs into a ring without room |
| `RtpQueueRuns.FullResyncHappens` | lib/librtp/source/rtp-queue.c:243-262 | such runs exist: 2998 to 3000 unread packets in order, then four from a restarted sender, and packets are lost |
| `TccChunks.ChooseChunk` | lib/librtp/source/rtcp-rtpfb.c:709-746 | the first pass at a status: chunk and how many statuses it covers |
| `TccChunks.ChooseVector` | lib/librtp/source/rtcp-rtpfb.c:728-746 | the status-vector branch with its re-detection of wide deltas |
| `TccChunks.PlaceSymbols` | lib/librtp/source/rtcp-rtpfb.c:737-745 | the symbol loop builds the vector |
| `TccChunks.AllChunks` | lib/librtp/source/rtcp-rtpfb.c:709-752 | the first pass: the chunks of the list, as many as two counted bytes each allow |
| `TccDeltas.RunDeltas` | lib/librtp/source/rtcp-rtpfb.c:759-791 | the run-length loop from any place of the list: the deltas it writes before room runs out, its stop at the wrap of the numbers, and what it has written when it fails |
| `TccDeltas.VectorDeltas` | lib/librtp/source/rtcp-rtpfb.c:792-836 | the two status-vector loops, which stop early when few bytes are counted free |
| `TccDeltas.SecondIsDeltas` | lib/librtp/source/rtcp-rtpfb.c:754-837 | on chunks that keep it in step the second pass writes the delta of every status, whatever lies behind them |
| `TccDeltas.CutReachIff` | lib/librtp/source/rtcp-rtpfb.c:759-767 | a chunk moves the second pass over just the statuses it was made for iff its run is shorter than 8192 and does not straddle the wrap |
| `TccDeltas.InStepIff` | lib/librtp/source/rtcp-rtpfb.c:754-837 | the second pass keeps in step with the first, chunk by chunk, iff every run is shorter than 8192 and none straddles the wrap |
| `TccDeltas.WalkBound` | lib/librtp/source/rtcp-rtpfb.c:754-837 | a walk that has fallen behind gains at most the 13 spare places of the last vector, and ends 8179 statuses short if a run does not fit |
| `TccDeltas.PassTight` | lib/librtp/source/rtcp-rtpfb.c:754-837 | with any byte count the second pass writes what the walk calls for and ends as it does, or leaves at most one counted byte |
| `TccDeltas.AllDeltas` | lib/librtp/source/rtcp-rtpfb.c:754-837 | the second pass over any chunks, any memory behind them and any byte count: how it ends and every byte written by then, on every path |
| `TccPack.Padding` | lib/librtp/source/rtcp-rtpfb.c:839-846 | zeros up to a word with the count in the last byte, as far as the byte count goes |
| `TccPack.Pack` | lib/librtp/source/rtcp-rtpfb.c:692-848 | how the packer ends and every byte it has written by then, for every list, every buffer size and whatever memory it reads |
| `TccPack.InsideIff` | lib/librtp/source/rtcp-rtpfb.c:692-848 | on every path: it stays inside its buffer iff the buffer has room for all that the two passes call for; up to six bytes less still get all of it |
| `TccPack.WrittenBound` | lib/librtp/source/rtcp-rtpfb.c:692-848 | on every path, never more than eight bytes over the size, and nothing into fewer than eight bytes |
| `TccPack.WholeIs` | lib/librtp/source/rtcp-rtpfb.c:699-848 | what the passes call for is the message when they keep in step, and a walk off the chunks when a run is too long and nothing lies behind them |
| `TccPack.MessageInsideIff` | lib/librtp/source/rtcp-rtpfb.c:692-848 | for lists that keep the passes in step: inside the buffer iff the buffer holds the message |
| `TccPack.EightOver` | lib/librtp/source/rtcp-rtpfb.c:699-707 | 8 to 14 packets received in order and a buffer two bytes larger than their number: eight bytes are written past its end |
| `TccStray.NeverComesBack` | lib/librtp/source/rtcp-rtpfb.c:578-848 | a list with a run that does not fit never comes back, whatever memory the packer read as chunks and whatever it wrote on its way |
| `TccRoundTrip.ThereAndBack` | lib/librtp/source/rtcp-rtpfb.c:578-848 | packer and unpacker back to back on lists that count up modulo 2^16 with no run across the wrap, and any memory: the same statuses come back iff every run that starts a chunk is shorter than 8192 and every offset is in range |
| `TccRoundTrip.StraddlingRunStrays` | lib/librtp/source/rtcp-rtpfb.c:762-767 | a run of losses across the wrap walks off its one chunk |
| `TccRoundTrip.StraddleUnnoticed` | lib/librtp/source/rtcp-rtpfb.c:762-767 | a list whose run across the wrap still comes back, whatever memory holds: the last vector makes up for it |
| `Tcc.ReadChunks` | lib/librtp/source/rtcp-rtpfb.c:608-652 | the first pass of the unpacker |
| `Tcc.ReadAll` | lib/librtp/source/rtcp-rtpfb.c:654-678 | the delta pass, failing on a delta cut short |
| `Tcc.UnpackMessage` | lib/librtp/source/rtcp-rtpfb.c:578-690 | the whole unpacker on any bytes, the failed allocation for more than 32 statuses included |
| `Tcc.VectorDecodes` | lib/librtp/source/rtcp-rtpfb.c:737-745 | the symbols of any vector chunk are read back |
| `Tcc.CutDecodesIff` | lib/librtp/source/rtcp-rtpfb.c:723-727 | a chunk stands for the statuses it covers iff the run behind it is shorter than 8192 |
| `Tcc.ChunksDecode` | lib/librtp/source/rtcp-rtpfb.c:611-652 | the chunks of any list whose runs fit are read back as its symbols |
| `Tcc.CoveredIff` | lib/librtp/source/rtcp-rtpfb.c:709-752 | the chunks of a list stand for all of its statuses iff no run that starts a chunk is 8192 or longer |
| `Tcc.CoveredBound` | lib/librtp/source/rtcp-rtpfb.c:709-752 | such a run leaves at least 8179 statuses without a chunk: chunks gain at most the 13 spare places of the last vector |
| `Tcc.ChunksDecodeIff` | lib/librtp/source/rtcp-rtpfb.c:611-652 | whatever bytes follow them, the receiver reads the chunks to their end with every symbol right iff those runs fit |
| `Tcc.DeltasRead` | lib/librtp/source/rtcp-rtpfb.c:654-678 | and its deltas as the offsets |
| `Tcc.StartReads` | lib/librtp/source/rtcp-rtpfb.c:578-690 | any bytes that start as the message does, up to its last delta, read as its statuses |
| `Tcc.FeedbackRoundTrip` | lib/librtp/source/rtcp-rtpfb.c:578-848 | unpacking the message of any list whose runs fit, its numbers counting up modulo 2^16, gives back the first number, the count byte, the sign-extended reference time and every status up to the 14-bit offset range |
| `Tcc.RestoredExactly` | lib/librtp/source/rtcp-rtpfb.c:578-848 | such statuses come back unchanged iff every offset is in [-8192, 8191] and zero where not received |
| `Tcc.ReferenceTime` | lib/librtp/source/rtcp-rtpfb.c:595-595 | the reference time comes back as sent iff it fits 24 signed bits; in any case as the 24-bit number that agrees with it |
| `Tcc.ShortListsFit` | lib/librtp/source/rtcp-rtpfb.c:715-727 | lists of at most 8191 statuses always fit |
| `Tcc.LongRunIsUncovered` | lib/librtp/source/rtcp-rtpfb.c:723-727 | 8192 losses in a row are packed into one chunk that stands for none of them |
| `Tcc.LongRunBehindAVectorFits` | lib/librtp/source/rtcp-rtpfb.c:709-752 | the same run behind one packet that arrived fits, because a status vector takes its head |
| `TccExample.ChunkCovers` | lib/librtp/source/rtcp-rtpfb.c:709-752 | no chunk stands for fewer statuses than a vector of its kind would, and a run too long for a vector goes into one chunk as a whole |
| `TccExample.FewChunks` | lib/librtp/source/rtcp-rtpfb.c:709-752 | so n statuses take at most n / 7 chunks, rounded up |
| `TccExample.SevenOnWire` | lib/librtp/source/rtcp-rtpfb.c:1165-1169 | the message of the repository's own example, byte by byte: one two-bit vector, one one-byte delta, three two-byte ones, three bytes of padding |
| `RtcpLoss.Member.constructor` | lib/librtp/source/rtp-member.c:7-21 | a source starts on probation |
| `RtcpLoss.Member.SeqInit` | lib/librtp/source/rtcp.c:13-25 | a validated source restarts all counts |
| `RtcpLoss.Member.SeqUpdate` | lib/librtp/source/rtcp.c:27-80 | all branches: probation, in order, wrap, far jump, restart, late |
| `RtcpLoss.Member.InputRtp` | lib/librtp/source/rtcp.c:235-257 | a packet that passes is counted |
| `RtcpLoss.Member.Losses` | lib/librtp/source/rtcp-sr.c:131-150 | the loss fraction and the clamped cumulative loss |
| `RtcpLoss.Member.ReportBlock` | lib/librtp/source/rtcp-sr.c:115-172 | the 24 bytes and the marks for the next interval, or nothing into a shorter buffer |
| `RtcpLoss.RunKeeps` | lib/librtp/source/rtcp.c:27-80 | after every run of packets and reports without 32-bit wrap the counts are sound: no packets while on probation, extended number at or above its base, progress only with packets |
| `RtcpLoss.ReportsAreExact` | lib/librtp/source/rtcp-sr.c:129-150 | at every report of every such run the extended number is at or above its base, an interval that expected a packet received one, and the fraction fits its byte |
| `RtcpLoss.IntervalIs` | lib/librtp/source/rtcp-sr.c:129-150 | the received and expected counts of a report are those of the events since the report before |
| `RtcpLoss.FractionIsShare` | lib/librtp/source/rtcp-sr.c:129-138 | the fraction is the share of the packets expected since then that did not come, in 256ths and rounded down, or zero if none is missing |
| `RtcpLoss.FractionFitsIff` | lib/librtp/source/rtcp-sr.c:132-138 | the fraction fits its byte iff a packet was received or none was expected |
| `RtcpLoss.ReportOnProbationMisreads` | lib/librtp/source/rtcp-sr.c:106-109 | without the guard against uncounted sources a total loss would read as zero |
| `RtcpLoss.ExpectedIsSpan` | lib/librtp/source/rtcp.c:50-60 | through reordering, duplication and loss within the limits, the extended number follows the highest unwrapped number |
| `RtcpLoss.LostIsSkipped` | lib/librtp/source/rtcp-sr.c:129-150 | the reported loss is the span of the numbers heard less the packets counted, clamped to 0 and 8388607 |
| `RtcpLoss.AdmittedIff` | lib/librtp/source/rtcp.c:32-49 | over any run of packets, a new source is admitted iff two numbers in a row were each one more than the one before; and where it stands until then |
| `RtcpLoss.RestartIff` | lib/librtp/source/rtcp.c:61-73 | exactly which pair of far packets restarts a source; never across the wrap |
| `RtcpLoss.ReportReadsBack` | lib/librtp/source/rtcp-rr.c:39-45 | the receiver of a report reads the numbers it was made from |
| `MemberList.List.constructor` | lib/librtp/source/rtp-member-list.c:17-20 | an empty list |
| `MemberList.List.Get` | lib/librtp/source/rtp-member-list.c:49-57 | the member at an index, or none outside the list |
| `MemberList.List.Find` | lib/librtp/source/rtp-member-list.c:59-73 | the first member with the SSRC across both parts, or none |
| `MemberList.List.Add` | lib/librtp/source/rtp-member-list.c:75-101 | appends, growing the heap part by eight when it is full; a failed growth leaves the list as it was |
| `MemberList.List.Shift` | lib/librtp/source/rtp-member-list.c:116-135 | closes a gap in either part; the first heap member moves into the inline part |
| `MemberList.List.Delete` | lib/librtp/source/rtp-member-list.c:103-143 | takes out the first member with the SSRC and keeps the order of the others |
| `RtpMembers.ReleaseCounts` | lib/librtp/source/rtp-member.c:29-47 | each reference is given back once; the last one frees the member, which was not freed before |
| `RtpMembers.FetchMemberKeeps` | lib/librtp/source/rtcp.c:82-106 | fetching a member keeps the invariant and returns one with the SSRC |
| `RtpMembers.FetchSenderKeeps` | lib/librtp/source/rtcp.c:108-122 | fetching a sender keeps it and returns one that is in both lists |
| `RtpMembers.ByeKeeps` | lib/librtp/source/rtcp-bye.c:15-19 | a BYE keeps it and takes away exactly the entries with its SSRC |
| `RtpMembers.DestroyFreesAll` | lib/librtp/source/rtp.c:42-54 | destroying a context frees every member ever created exactly once |
| `RtpMembers.FetchIsLiveIff` | lib/librtp/source/rtcp.c:91-105 | a fetch hands out a live member iff it was listed or its list could grow; otherwise the one it hands out has just been freed; the invariant holds in any case |
| `RtpMembers.RunKeeps` | lib/librtp/source/rtcp.c:82-122 | in every run, whichever allocations fail, SSRCs are unique in each list, every sender is a member, and a final destroy frees each member once |
| `RtpMembers.RefIsMemberships` | lib/librtp/source/rtp-member.c:23-27 | in every run a count is the number of lists holding the member, plus one for the context's own |
| `RtpContext.StrangerIsNoSender` | lib/librtp/source/rtcp.c:88-89 | the assertion that an unknown SSRC is not among the senders always holds |
| `RtpContext.Context.constructor` | lib/librtp/source/rtp.c:12-40 | a context with its own member listed, holding two references |
| `RtpContext.Context.MemberFetch` | lib/librtp/source/rtcp.c:82-106 | the code does what the value-level fetch does, with a member that cannot be allocated and a list that cannot grow |
| `RtpContext.Context.SenderFetch` | lib/librtp/source/rtcp.c:108-122 | likewise for senders, up to the use of a freed member |
| `RtpContext.Context.Goodbye` | lib/librtp/source/rtcp-bye.c:18-19 | likewise for one source of a BYE |
| `RtpContext.Context.ReleaseList` | lib/librtp/source/rtp-member-list.c:22-40 | the loop releases every member of a list in order |
| `RtpContext.Context.Destroy` | lib/librtp/source/rtp.c:42-54 | no member is left and each was freed exactly once |

## Left out

- TccPack.Pack: requires numbers that count up modulo 2^16, as the code asserts. A walk off the chunks ends where the memory given to the model does.
- TccRoundTrip.ThereAndBack: requires that no run straddles the wrap of the numbers. Whether such a list comes back hangs on the bytes themselves; both outcomes are shown (StraddlingRunStrays, StraddleUnnoticed), and that the passes are out of step is exact (TccDeltas.InStepIff).
- TsFailedWrites.EarlierUnitsStillPlay: nothing is claimed about the units after a write that left part of a packet, since packets then no longer start at multiples of 188 bytes; those after whole packets are in TsGaps.
- DvrSafety.FilesBelow4GiB: bounds the writer's own size count; a file with bytes of failed writes in it is larger than that count (TsFailedWrites.CountIsDiskIff).
- RtcpLoss.ReportsAreExact: assumes no 32-bit wrap, fewer than 2^23 packets expected and at most 2^31 counted in one interval; beyond that the shift and the signed difference overflow.
- RtpQueueRuns.DeliveredInOrder: runs with no resync and a window below 2^15, as the sequence comparison needs.
- RtpRing.Ring.Grow: allocation succeeds; a failed `realloc` in the queue is not modelled. The `cycles` field is written and never read, and is left out.
- RtpRing.Ring.Insert: returns 1 or -E2BIG, not -ENOMEM, for the same reason.
- RtpRing.Ring.Write: likewise.
- RtpMembers.RunKeeps: what the callers go on to write to a freed member they were handed is not modelled.
- RtpContext.Context.constructor: the allocations of `rtp_create` succeed; a half-built context that is destroyed at once is not modelled.
- RtpContext.Context.Goodbye: takes the SSRCs of a BYE one by one; how the loop reads them from the packet is not modelled.
- H265Pack.H265Packer.PackNalu: the packet buffer is allocated and the packet handler returns 0.
- H265Pack.H265Packer.FragmentLoop: likewise for every fragment.
- H265Pack.H265Packer.PackFu: likewise.
- H265Pack.H265Packer.PackUnit: likewise.
- H265Pack.H265Packer.Input: likewise; a unit the packer itself refuses does end the loop.
- H265Unpack.H265Unpacker.Input: the packet handler returns 0; its error would replace the return value. The DONL field is never enabled and is not modelled.
- H265Unpack.H265Unpacker.Fragment: likewise.
- H265Unpack.H265Unpacker.Aggregate: likewise; a handler error would end the loop.
- H265RoundTrip.AccessUnitRoundTrip: packets arrive in order and none is lost.
- CrcDamage.OneBitIsNoticed: sections that fit one packet, as all of the writer's do.
- Avcc.SplitPrefixed: lengths of four bytes, and no unit is empty, which the code asserts.
- RtpQueue.ReleasedIff: stamps less than 2^31 apart, as the signed difference of the code needs, and a wait in milliseconds that fits the 32 bits it is held in.
- RtcpLoss.FractionIsShare: fewer than 2^23 packets expected in one interval; beyond that the shift overflows.
- PtsFifo.Session.EncodeFrame: the keyframe requests and the error streak beside the submission are not modelled.
- RtcpLoss.Member.InputRtp: arrival clock, time stamp, byte count and jitter are not modelled.
- The writeback pool, the encoder queue and the DVR worker are step machines over values, not classes: aliasing and the mutex itself are abstracted into atomic steps, and memory is sequentially consistent.
- Whether consumers want frames, storage checks, file opening and encoder set-up are free choices of the environment in those machines; commands may be posted at any time, which only adds runs.
- 64-bit overflow of clocks, of tick counts and of file sizes.
- Jitter, DLSR, the RTCP interval and the other RTCP packet types; SDES items and their storage.
- Restreaming sockets, OSD drawing, DRM/KMS modesetting, MPP internals, configuration and file naming.
- The other RTP payload formats, which repeat the fragmentation argument.
