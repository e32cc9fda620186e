# Verified model of the kipc app-link transport and the benchmark harness

This project models, in Dafny, the parts of the repository whose correctness is hardest to see
by reading, and proves what they promise for every input, every run and every interleaving.

* **The kipc v2 transport.** `Frame` is the wire format and what a byte stream means as frames.
  `FrameReaders` is the chunk-queue reader as a class: queue slots, read cursor, independent census
  cursor, compaction, absolute deadline timer. Each method is proved against `ReaderModel`, a flat
  queue of bytes stamped with their arrival. `ReaderRuns` and `ReaderTheorems` prove what every
  script of chunks, reads, timer callbacks and socket failures keeps; `ReaderReplay` drives the class
  through such a script. `ConcatReaders` is the simple concatenating reader of the macOS client and
  the refinement between the two. `WriteQueues` is the serialized writer as atomic steps, `WriteFates` says
  exactly when a started frame completes or fails, `EndToEnd` composes writer and reader, `Mux` is the directed reader, `Varint` and `Text` are the payload
  codecs, `Session` and `Lifecycle` are the stock program from its echo to its Quit Call.
* **The Linux harness.** `Generations` is the PID table, the system calls and reads bound to one
  process generation while PIDs are reused between any two calls; `Cleanup` and `GroupTermination`
  are the two cleanups built on it. `Stability` is the sliding memory window, `Beacon` the
  one-shot paint beacon under concurrent handlers, `Descendants` the process-tree fixpoint.
* **Statistics and images.** `WeightedKth` and `Bootstrap` are the resampled order statistics,
  `TierStatistics` what a campaign computes with them and when it cannot,
  `Scanlines` and `PngFile` the PNG reconstruction (sections 3 and 6 of RFC 2083).
* **Producer and checker.** `BlockResult` is the block-corpus builder, `ResultContract` the
  independently written semantic checker, `Documents` the documents they share; `Campaigns` and
  `PairedCampaign` run from the measured output files to the checked documents.

Code that mutates objects is modelled by classes and loops whose contracts equate the new state with a
function of the old state; theorems about runs are lemmas about those functions, and a method drives
each class through a whole script and states what the run promises. JavaScript code between two
awaits is one atomic step. Time is a real number of milliseconds. The underrun errors of the frame
reader appear as `assert false`: no reachable state gets there.

Three places where the code does less than one might expect, kept as they are:

* `_product_force_cleanup` does not handle a process that vanishes between its identity check and
  `pidfd_send_signal`, and the cleanup then ends early (`None`). `Cleanup.ForceCleanup` says exactly
  when; `Cleanup.VanishingForsakesOthers` gives schedules on which every other captured process goes
  on running without a signal.
* A complete frame can be refused as late although all its bytes are buffered, and a frame that took
  too long is noticed only when a delivery is attempted or the timer fires.
  `ReaderTheorems.DeadlineIsExact` says exactly when the deadline is enforced;
  `ReaderTheorems.BufferedFrameIsRefused` is such a frame.
* The campaigns load round-trip times of zero, the paired one even negative times, and later divide by
  their percentiles. `TierStatistics.TierStatistics` and `TierStatistics.CompareArms` say exactly when
  that fails, `TierStatistics.ZeroTimesFail` gives times for which it does whatever is drawn, and
  `TierStatistics.PositiveTimesSucceed` says that positive times never fail.

## Model

| member | source | states |
|---|---|---|
| Frame.HeaderRoundTrip | linux/keld/kipc-bun-echo/src/kipc-transport.ts:175-274 | a header encodes exactly when its kind is declared and its fields fit their widths, and then decodes to itself whatever bytes follow |
| Frame.HeaderLayout | linux/keld/kipc-bun-echo/src/kipc-transport.ts:226-239 | magic, version and kind, then flags, channel, correlation and length as little-endian numbers at offsets 4, 6, 8 and 12 |
| Frame.HeaderDecodeRoundTrip | linux/keld/kipc-bun-echo/src/kipc-transport.ts:241-274 | the 16 bytes of any accepted header are the encoding of what was read: no byte is ignored |
| Frame.HeaderIsReadable | linux/keld/kipc-bun-echo/src/kipc-transport.ts:241-274 | a header is read exactly from 16 bytes with the magic, version 2 and a declared kind, and anything else is KELD-IPC-002 |
| Frame.HeadIsStable | linux/keld/kipc-bun-echo/src/kipc-transport.ts:559-598 | once a stream's front is a frame or an error, later bytes never change that |
| Frame.ParseWireAll | linux/keld/kipc-bun-echo/src/kipc-transport.ts:203-274 | parsing the concatenated encodings of any frames gives those frames and leaves what follows |
| Frame.WireIsPrefixFree | linux/keld/kipc-bun-echo/src/kipc-transport.ts:203-274 | two frame sequences encoded at the front of one stream are prefixes of each other |
| FrameReaders.FrameReader.Fail | linux/keld/kipc-bun-echo/src/kipc-transport.ts:455-470 | discards everything, disarms the timer, closes with the error and rejects a pending read |
| FrameReaders.FrameReader.CopyOut | linux/keld/kipc-bun-echo/src/kipc-transport.ts:472-487 | returns the first n unread bytes across slots and never underruns |
| FrameReaders.FrameReader.ArrivalAt | linux/keld/kipc-bun-echo/src/kipc-transport.ts:489-505 | returns the arrival of the byte at that position and never underruns |
| FrameReaders.FrameReader.Consume | linux/keld/kipc-bun-echo/src/kipc-transport.ts:507-536 | removes exactly n bytes and keeps the census cursor at the same byte, or moves it to the read cursor when it was passed, through slot release and compaction; never underruns |
| FrameReaders.Fields.CompactedKeepsQueue | linux/keld/kipc-bun-echo/src/kipc-transport.ts:538-557 | compaction changes neither the unread bytes nor what the census cursor denotes, and leaves fewer consumed slots than the larger of the threshold and the unread slots |
| FrameReaders.FrameReader.CensusArrival | linux/keld/kipc-bun-echo/src/kipc-transport.ts:624-630 | is the arrival of the first byte the walk has not accepted; never underruns |
| FrameReaders.FrameReader.EnsureFrameDeadline | linux/keld/kipc-bun-echo/src/kipc-transport.ts:619-622 | arms a missing timer from the first unaccepted byte's arrival and never moves an armed one |
| FrameReaders.FrameReader.TryResolve | linux/keld/kipc-bun-echo/src/kipc-transport.ts:559-598 | a pending read is settled by the frame, the error or the lateness the unread bytes start with, and by nothing else |
| FrameReaders.FrameReader.Deliver | linux/keld/kipc-bun-echo/src/kipc-transport.ts:589-597 | delivers the payload bytes at the front, removes exactly that frame and restarts the deadline for the next |
| FrameReaders.FrameReader.ReadFrame | linux/keld/kipc-bun-echo/src/kipc-transport.ts:600-617 | refuses on a closed reader and on an overlapping read without disturbing it; otherwise waits and tries at once |
| FrameReaders.FrameReader.Push | linux/keld/kipc-bun-echo/src/kipc-transport.ts:426-453 | appends the chunk with its arrival, delivers if it can, then enforces both memory bounds on what is left |
| FrameReaders.FrameReader.IncompleteFrameStartedAt | linux/keld/kipc-bun-echo/src/kipc-transport.ts:658-716 | advances the census over whole timely frames only, and reports the first unfinished frame's start or the first error |
| FrameReaders.FrameReader.TimerFires | linux/keld/kipc-bun-echo/src/kipc-transport.ts:632-656 | an early timer re-arms for the same absolute deadline, a due one fails the reader, a malformed frame fails it with its own code |
| ReaderRuns.RunSound | linux/keld/kipc-bun-echo/src/kipc-transport.ts:399-723 | in every run the accepted bytes are the delivered frames, each arrived in time, then the unread bytes; the census prefix is a whole number of frames and the timer matches the first byte after it; a waiting reader holds no complete frame |
| ReaderRuns.WalkIsWhole | linux/keld/kipc-bun-echo/src/kipc-transport.ts:658-716 | the deadline walk extends a whole number of frames by whole frames and stops exactly where its verdict says |
| ReaderTheorems.RunDelivers | linux/keld/kipc-bun-echo/src/kipc-transport.ts:426-617 | fragmentation independence: for every chunking, read pattern, timer and clock the deliveries are a prefix of the parse of the concatenated bytes, all of it for an open reader with a read pending, and an open reader still holds exactly the rest |
| ReaderTheorems.RunIsTimely | linux/keld/kipc-bun-echo/src/kipc-transport.ts:559-598 | the bytes of every delivered frame lie in the accepted history and its last arrived under 5000 ms after its first |
| ReaderTheorems.RunArmsTheDeadline | linux/keld/kipc-bun-echo/src/kipc-transport.ts:619-656 | a timer is armed exactly while bytes are uncensused, due at the larger of its arming time and the first such byte's arrival plus 5000 ms |
| ReaderTheorems.PunctualTimersBoundFrameAge | linux/keld/kipc-bun-echo/src/kipc-transport.ts:619-656 | when timers fire on time no later chunk keeps an uncensused byte alive past its deadline |
| ReaderTheorems.StepKeepsDeadline | linux/keld/kipc-bun-echo/src/kipc-transport.ts:619-656 | a chunk or read that delivers nothing leaves an armed timer and the census alone; one that delivers frames the census covers keeps the deadline on the same byte, no later than before or than now |
| ReaderTheorems.ChunksNeverPostpone | linux/keld/kipc-bun-echo/src/kipc-transport.ts:619-656 | the same over any number of further chunks and reads, until a frame beyond the census is delivered, with nothing assumed about when timers fire |
| ReaderTheorems.DeadlineIsExact | linux/keld/kipc-bun-echo/src/kipc-transport.ts:559-716 | a step of an open reader, other than a socket failure, fails it with KELD-IPC-006 if and only if: a delivery attempt someone waits for finds the front frame's bytes 5000 ms apart, or the timer callback finds such a frame, or one unfinished for 5000 ms, after whole timely frames |
| ReaderTheorems.FrontIsExact | linux/keld/kipc-bun-echo/src/kipc-transport.ts:241-274 | what unread bytes start with, by their values and arrival times: late, no header, too long, unfinished or whole, in that order of tests |
| ReaderTheorems.FailureIsExact | linux/keld/kipc-bun-echo/src/kipc-transport.ts:426-716 | a step closes an open reader with any other error exactly when a delivery attempt or timer callback finds that error in front, or a chunk leaves more than 16 + 2^24 bytes or 65536 chunks |
| ReaderTheorems.RefusalIsExact | linux/keld/kipc-bun-echo/src/kipc-transport.ts:600-617 | exactly the reads of a closed reader and overlapping ones are refused, with the closing error or KELD-IPC-005; a pending read is rejected exactly when the reader closes without delivering to it |
| ReaderTheorems.BufferedFrameIsRefused | linux/keld/kipc-bun-echo/src/kipc-transport.ts:559-598 | a PING whose halves arrive 5000 ms apart is completely buffered, alone and well-formed, and the read that asks for it fails the reader |
| ReaderTheorems.RunIsBounded | linux/keld/kipc-bun-echo/src/kipc-transport.ts:426-453 | after every event at most 16 + 2^24 bytes in at most 65536 unread chunks are held |
| ReaderReplay.Replay | linux/keld/kipc-bun-echo/src/kipc-transport.ts:399-723 | the class delivers exactly the frames of the model run and ends in its state; backing slots stay below unread plus the larger of 1024 and unread, and all compactions of a run together move at most one slot per pushed chunk |
| ConcatReaders.ConcatReader.TryResolve | macos/keld/hello/src/kipc.ts:269-302 | settles a pending read by what the buffer starts with and removes exactly that frame |
| ConcatReaders.ConcatRefusals | macos/keld/hello/src/kipc.ts:247-313 | reads of a closed reader are refused with its error; a pending one is rejected exactly when the reader closes, with that error |
| ConcatReaders.ConcatDelivers | macos/keld/hello/src/kipc.ts:247-313 | whatever the chunk boundaries, the concatenating reader delivers the first frames of all bytes pushed, every one of them while a read is pending, and holds exactly the rest |
| ConcatReaders.Replay | macos/keld/hello/src/kipc.ts:247-313 | the class driven through any script does so, and the chunk-queue reader's deliveries on the same script are a prefix of its own, all of them while that reader is open |
| ConcatReaders.RunRefines | linux/keld/kipc-bun-echo/src/kipc-transport.ts:426-617 | on every script the chunk-queue deliveries are a prefix of the concatenating reader's, and while it is open both delivered the same frames and hold the same bytes |
| WriteQueues.Replay | linux/keld/kipc-bun-echo/src/kipc-transport.ts:821-900 | the class driven through any script puts on the socket the whole frames of the completed submissions, in admission order, and less than one frame of an admitted one; at most one submission fails, the next one admitted |
| WriteQueues.RunWritesWholeFrames | linux/keld/kipc-bun-echo/src/kipc-transport.ts:821-900 | in every interleaving the socket holds the whole frames of the completed submissions followed by less than one frame of the one in progress or failed |
| WriteQueues.RunKeepsOrder | linux/keld/kipc-bun-echo/src/kipc-transport.ts:852-900 | admitted submissions are, in order, the completed, at most one failed, those refused because of it, the one in progress and those chained |
| WriteQueues.PoisonedForever | linux/keld/kipc-bun-echo/src/kipc-transport.ts:877-898 | after a write failed no event puts another byte on the socket or completes a submission, and once poisoned none is admitted |
| WriteQueues.OversizeLeavesNoTrace | linux/keld/kipc-bun-echo/src/kipc-transport.ts:874-879 | erasing every over-size submission from a script changes neither queue, wire nor the fate of any other submission |
| WriteFates.FateIsExact | linux/keld/kipc-bun-echo/src/kipc-transport.ts:821-850 | a started frame fails exactly at the first turn where the socket answers -1, a write comes 5000 ms or more after the start or a drain wait times out, unless all its bytes went out before; it completes exactly when they did |
| WriteFates.OutcomeAt | linux/keld/kipc-bun-echo/src/kipc-transport.ts:837-849 | at that turn the wire holds what was sent and the promise settles, with KELD-IPC-001 for a socket error and KELD-IPC-006 for the deadline |
| WriteFates.TimelyWriteCompletes | linux/keld/kipc-bun-echo/src/kipc-transport.ts:835-849 | a frame whose turns are in time, answered without error and with enough bytes, and whose waits do not time out, is written whole; only an answer of 0 waits for a drain |
| WriteFates.UnencodableFails | linux/keld/kipc-bun-echo/src/kipc-transport.ts:830-831 | a frame whose header cannot be encoded fails at its start before any byte |
| WriteFates.PoisonIsExact | linux/keld/kipc-bun-echo/src/kipc-transport.ts:888-898 | the queue is poisoned, with KELD-IPC-001, exactly once the handler of a failed write has run |
| WriteFates.SubmitIsAnswered | linux/keld/kipc-bun-echo/src/kipc-transport.ts:874-882 | an over-size submission is refused with KELD-IPC-004, any other on a poisoned queue with KELD-IPC-001, and every other one is admitted |
| WriteFates.ChainIsRefused | linux/keld/kipc-bun-echo/src/kipc-transport.ts:883-887 | on a poisoned queue every chained submission is refused in its turn |
| EndToEnd.WireParsesToCompleted | linux/keld/kipc-bun-echo/src/kipc-transport.ts:821-900 | whatever the socket took parses to exactly the completed submissions |
| EndToEnd.Delivery | linux/keld/kipc-bun-echo/src/kipc-transport.ts:559-900 | for any partial writes and any re-fragmentation the reader delivers a prefix of the completed submissions, and all of them once all bytes arrived and a read is pending |
| EndToEnd.ValidStreamNeverMalformed | linux/keld/kipc-bun-echo/src/kipc-transport.ts:426-716 | on bytes of valid frames and without socket failure the reader closes only for a deadline or a memory bound |
| EndToEnd.TimelyStreamStaysOpen | linux/keld/kipc-bun-echo/src/kipc-transport.ts:426-716 | on valid frames that each arrive in less than 5000 ms, with the buffer bounds kept and no socket failure, the reader stays open |
| Mux.StockPoliciesAdmit | linux/keld/kipc-bun-echo/src/kipc-transport.ts:118-139 | which headers the lifecycle and reply policies admit, exactly; no lifecycle frame passes for a Reply |
| Mux.HeaderIsAdmitted | linux/keld/kipc-bun-echo/src/kipc-transport.ts:282-328 | any policy admits exactly the headers with its kind, channel, correlation and length and no flags, or bare PINGs where it allows them, and refuses all others with KELD-IPC-005 |
| Mux.DirectedReader.TakeParked | linux/keld/kipc-bun-echo/src/kipc-transport.ts:789-798 | removes and returns the earliest parked frame the policy admits, if any |
| Mux.DirectedReader.Receive | linux/keld/kipc-bun-echo/src/kipc-transport.ts:764-787 | is the selective receive whose meaning ReceiveSelects gives |
| Mux.ReceiveSelects | linux/keld/kipc-bun-echo/src/kipc-transport.ts:764-798 | a receive returns the earliest-arrived undelivered frame that want admits if all frames before it are parked or can be; otherwise it ends having lost nothing, or exactly the frame that could not be parked |
| Mux.RunConserves | linux/keld/kipc-bun-echo/src/kipc-transport.ts:746-799 | over any receives every frame read is delivered once, still parked, or the one that stopped a wait; the rest keep arrival order; at most 8 are parked |
| Varint.EncodeVarint | linux/keld/kipc-bun-echo/src/kipc-transport.ts:966-979 | produces the shortest LEB128 encoding and refuses exactly values outside u32 |
| Varint.DecodeVarint | linux/keld/kipc-bun-echo/src/kipc-transport.ts:981-1017 | the accumulating loop computes the positional value of the encoding, with its errors |
| Varint.ScanIsPositional | linux/keld/kipc-bun-echo/src/kipc-transport.ts:981-1012 | a varint decodes exactly when it stops within five bytes and 32 bits, to the number its seven-bit digits spell; any failure is KELD-IPC-003 |
| Varint.ScanBounds | linux/keld/kipc-bun-echo/src/kipc-transport.ts:981-1012 | a decoded varint is at most 2^32 - 1 from at most five bytes, and equals the shortest encoding exactly when it is as short |
| Varint.VarintRoundTrip | linux/keld/kipc-bun-echo/src/kipc-transport.ts:966-1017 | decoding inverts encoding for every u32 at every offset |
| Text.EncodeString | linux/keld/kipc-bun-echo/src/kipc.ts:45-69 | the surrogate scan accepts exactly paired strings; the result is their length-prefixed UTF-8 |
| Text.AcceptedStrings | linux/keld/kipc-bun-echo/src/kipc.ts:49-62 | accepted strings are exactly the UTF-16 encodings of Unicode scalar values (section 2 of RFC 2781) |
| Text.Utf8IsStrict | linux/keld/kipc-bun-echo/src/kipc-transport.ts:1023-1037 | text that decodes is the one encoding of what it decodes to |
| Text.StringRoundTrip | linux/keld/kipc-bun-echo/src/kipc-transport.ts:1023-1037 | a postcard string decodes to the string it was built from, wherever it stands |
| Text.CodecErrors | linux/keld/kipc-bun-echo/src/kipc.ts:45-89 | whatever cannot be encoded or decoded is KELD-IPC-003 |
| Text.EchoRoundTrip | linux/keld/kipc-bun-echo/src/kipc.ts:72-89 | a request encodes exactly for well-formed text and a u32 count, and decodes to itself |
| Text.EchoDecodesFaithfully | linux/keld/kipc-bun-echo/src/kipc.ts:82-89 | an accepted payload is an encoding of its meaning except for longer varints |
| Session.FailuresClose | linux/keld/kipc-bun-echo/src/kipc.ts:170-242 | a closed session does nothing but refuse; a write fails only over the cap or when the writes do; every failed write or receive closes the session |
| Session.CallsUseUpIds | linux/keld/kipc-bun-echo/src/kipc.ts:147-242 | an echo or a Quit uses up the current id and sends at most one Call, under that id, written out; an echo that succeeds got the Reply to it |
| Session.AppLinkSession.AllocCorr | linux/keld/kipc-bun-echo/src/kipc.ts:147-153 | returns the current id and steps to the next, skipping 0 at the 32-bit wrap |
| Session.AppLinkSession.WriteFrame | linux/keld/kipc-bun-echo/src/kipc.ts:205-220 | a closed session sends nothing; a failed or over-size write closes the session |
| Session.AppLinkSession.Receive | linux/keld/kipc-bun-echo/src/kipc.ts:170-203 | any failed receive closes the session |
| Session.AppLinkSession.DoEcho | linux/keld/kipc-bun-echo/src/kipc.ts:230-242 | one Call and one awaited Reply of the same id, lifecycle frames parked meanwhile |
| Session.DoQuitAfterLastWindowClosed | linux/keld/dev-hello/project/src/main.ts:306-329 | the loop is the recursive conversation whose meaning QuitLoopAnswers gives |
| Session.RunStockProgram | linux/keld/dev-hello/project/src/main.ts:340-351 | echo, then the quit loop, and the session is closed however it ends |
| Lifecycle.QuitLoopAnswers | linux/keld/dev-hello/project/src/main.ts:306-329 | for every frame script the loop sends one Pong per PING before the last window closes, in order, then one Quit Call (channel 3, payload 0) if it does, up to the first failed write; it succeeds exactly when the host's next frame agrees |
| Lifecycle.ProgramSpeaks | linux/keld/dev-hello/project/src/main.ts:230-329 | for every host script and request the whole program sends exactly its echo Call (channel 1, correlation 1, the encoded request) and that conversation on all other frames, those parked before the Reply included, so no lifecycle frame is lost; the exact condition of a clean exit, and the exact error of any other |
| Lifecycle.RunSession | linux/keld/dev-hello/project/src/main.ts:340-351 | the session class on a directed reader of the host's frames sends exactly that conversation up to the first failed write and ends without an error exactly under the condition of ProgramSpeaks |
| Lifecycle.PongsAnswerPings | linux/keld/dev-hello/project/src/main.ts:309-317 | every PING is answered once, in order, by a PING with its own channel and correlation, no flags and no payload |
| Lifecycle.CorrsAreDistinct | linux/keld/kipc-bun-echo/src/kipc.ts:147-158 | correlation ids are never 0 and repeat only after all 2^32 - 1 others |
| Generations.HistoryEvolves | linux/bench/harness.py:474-489 | under any exits and PID reuse a generation that is gone never returns |
| Generations.HeldThroughout | linux/bench/harness.py:565-607 | a generation seen before and after is the one that held the PID in between |
| Generations.ProcessMemory | linux/bench/harness.py:565-607 | a reuse is reported exactly when a check met another process running under the PID; counters are returned exactly when the descriptor, both checks and every file read found the process, and are then what the files said of the captured generation; a reuse means it is gone |
| Generations.ReadingIsExact | linux/bench/harness.py:503-507 | a file read returns what the file said of the process holding the PID then |
| Generations.CheckedDescriptor | linux/bench/harness.py:1460-1474 | a descriptor whose PID shows the captured start time afterwards is the captured generation |
| Cleanup.ForceCleanup | linux/bench/harness.py:1325-1349 | signals reach only captured generations; no SIGKILL comes without an earlier SIGTERM nor before the polling after it is over; the cleanup breaks off exactly when a generation that ran at its check is gone at its signal, the next call; otherwise every captured generation still running was sent both, and the answer is true exactly when none runs |
| Cleanup.CleanedFacts | linux/bench/harness.py:1325-1349 | the same of the cleanup as a function of the schedule of other processes |
| Cleanup.VanishingForsakesOthers | linux/bench/harness.py:1325-1340 | for any captured generations, a schedule in which the first dies and is reaped between its check and its signal ends the cleanup with nobody signalled and all others running |
| Cleanup.AnyAliveFacts | linux/bench/harness.py:1341-1349 | asking one generation at a time says yes exactly when one runs at the end |
| GroupTermination.GroupMembers | linux/bench/harness.py:492-500 | the group census misses nobody who was there when it began and still runs in the group when it ends |
| GroupTermination.TerminateRemaining | linux/bench/harness.py:1451-1509 | signals reach only generations seen in the group, no SIGKILL without SIGTERM and a wait that met the generation still running; it raises for a reused PID exactly when a check met another generation; when it returns, no process of the group known at the start runs; when members survive, each known one still running was sent both signals |
| Stability.DriftIsSpread | linux/bench/harness.py:439-441 | drift is the spread of the values over their least, taken as at least 1, compared with the limit |
| Stability.HistoryIsRecent | linux/bench/harness.py:443-464 | the window is always a uniform run of the latest observations |
| Stability.AcceptedWindowIsStable | linux/bench/harness.py:426-464 | acceptance implies the last R observations have an engine, one membership and main and total drift within the ratio |
| Stability.StableRunIsAccepted | linux/bench/harness.py:443-464 | from any reachable state 2R - 2 mutually stable observations force an acceptance |
| Stability.ObserveAll | linux/bench/harness.py:426-464 | the class fed any observations accepts only when the last R are stable among themselves, and somewhere in every 2R - 2 consecutive ones that are |
| Stability.FewerMayNotSuffice | linux/bench/harness.py:443-464 | the bound is tight for every R: after one stale snapshot 2R - 3 identical ones are all rejected |
| Beacon.AcceptedOnce | linux/bench/harness.py:301-307 | accepted_ns never changes once set, under any further interleaving |
| Beacon.OneBeaconWins | linux/bench/harness.py:250-312 | at most one handler wins; beacons are answered 200 or 409 exactly when valid; duplicate_beacon is set exactly when a second one lost; a true wait implies an accepted timestamp |
| Beacon.EveryoneIsAnswered | linux/bench/harness.py:229-312 | there is one handler per request, in order of arrival, and it has replied after four sections of its own whatever the others do |
| Beacon.AcceptedByTheWinner | linux/bench/harness.py:301-307 | accepted_ns is the clock reading of the winner's own locked section |
| Beacon.Serve | linux/bench/harness.py:206-312 | the class driven through any interleaving answers each request as its host, path and query deserve, with the right status, at most one with the image; accepted_ns is set once, to the time of the winner's section; page and beacon counts and the rejection reasons are those of the answers; a duplicate is recorded exactly when a second valid beacon lost |
| Descendants.Members | linux/bench/harness.py:740-751 | the repeated scan terminates on any parent map and returns exactly the processes whose parent chain reaches the root |
| WeightedKth.BisectRight | linux/keld/kipc-bun-echo/campaign.py:81-82 | counts the elements at most x of a sorted list |
| WeightedKth.CountPool | linux/keld/kipc-bun-echo/campaign.py:80-84 | weighted counting equals counting in the pool that repeats each session by its weight |
| WeightedKth.KthSmallest | linux/keld/kipc-bun-echo/campaign.py:75-89 | bisection returns the rank-th smallest element of the pool without building it, and the least or greatest for ranks out of range |
| WeightedKth.SortedKth | linux/keld/kipc-bun-echo/paired_campaign.py:59-73 | the rank-th smallest is the element at index rank - 1 of the sorted pool |
| WeightedKth.KthIsMonotone | linux/keld/kipc-bun-echo/paired_campaign.py:91-128 | pointwise slower sessions never give a smaller k-th value for the same draw |
| Bootstrap.Draw | linux/keld/kipc-bun-echo/campaign.py:98-100 | each weight is how often its session was drawn, and they sum to the draws |
| Bootstrap.DrawnPoolIsFull | linux/keld/kipc-bun-echo/campaign.py:92-101 | a drawn pool has as many values as the campaign, so the rank is in range |
| Bootstrap.RankIsLeast | linux/keld/kipc-bun-echo/campaign.py:71-74 | the nearest rank is the least one that covers the fraction of the values |
| Bootstrap.PercentileIsRank | linux/keld/kipc-bun-echo/campaign.py:71-74 | the value of that rank is the one value with at least the fraction of the values at most it and less than the fraction below it |
| Bootstrap.PercentileIsKth | linux/keld/kipc-bun-echo/campaign.py:71-74 | the percentile read off the sorted values is that value |
| Bootstrap.BlockBootstrapCi | linux/keld/kipc-bun-echo/campaign.py:92-104 | the interval's ends are the 2.5th and 97.5th percentiles of the exact percentiles of the resampled pools, stated by shares of the values |
| Bootstrap.PairedBootstrap | linux/keld/kipc-bun-echo/paired_campaign.py:91-128 | both arms use the same draw, and both intervals, of deltas and of exact ratios, are percentiles of the resampled differences and quotients; refused exactly for unpaired arms or a draw whose Rust percentile is not positive |
| Bootstrap.DominatedNeverLooksFaster | linux/keld/kipc-bun-echo/paired_campaign.py:91-128 | if Bun is never faster in any round the whole delta interval is non-negative and the whole ratio interval at least 1 |
| Bootstrap.UnitWeightsArePooled | linux/keld/kipc-bun-echo/campaign.py:175-190 | with each session drawn once the bisection is the pooled percentile reported as point estimate |
| TierStatistics.ArmStatistics | linux/keld/kipc-bun-echo/paired_campaign.py:308-328 | the point estimates are the percentiles and the maximum of all the arm's times, stated by shares of them, the intervals bootstrap intervals of the same percentiles |
| TierStatistics.TierStatistics | linux/keld/kipc-bun-echo/campaign.py:175-201 | the same, and the headroom; fails exactly when in at least 97.5% of the draws at least 99% of the drawn times are zero |
| TierStatistics.CompareArms | linux/keld/kipc-bun-echo/paired_campaign.py:704-733 | both arms described and both paired intervals; fails exactly when in some draw at least half the Rust times are zero or less, or a Rust percentile over all rounds is zero |
| TierStatistics.PositiveTimesSucceed | linux/keld/kipc-bun-echo/campaign.py:198-200 | positive times never fail, whatever is drawn |
| TierStatistics.ZeroTimesFail | linux/keld/kipc-bun-echo/campaign.py:170-200 | times that are all zero are loaded but fail for every choice of draws |
| Scanlines.PredictorIsPaeth | linux/webkitgtk/dmabuf-matrix/run_matrix.py:205-212 | the min/index choice is the Paeth predictor of section 6.6 of RFC 2083, ties included |
| Scanlines.UnfilteredReconstructs | linux/webkitgtk/dmabuf-matrix/run_matrix.py:193-216 | each byte of a row is the received byte plus 0, the byte left, the byte above, their mean or the Paeth predictor, modulo 256, by its filter type |
| Scanlines.RowRoundTrip | linux/webkitgtk/dmabuf-matrix/run_matrix.py:193-216 | unfiltering recovers every filtered row, for every filter type and pixel size |
| Scanlines.UnfilterRow | linux/webkitgtk/dmabuf-matrix/run_matrix.py:192-216 | the in-place loop computes the reconstruction function |
| Scanlines.Unfilter | linux/webkitgtk/dmabuf-matrix/run_matrix.py:185-218 | succeeds exactly on data that is some image filtered row by row, and returns that image, each byte reconstructed from its filter type, its row and the row above |
| Scanlines.FilteringIsInjective | linux/webkitgtk/dmabuf-matrix/run_matrix.py:185-218 | data is the filtering of at most one image with one choice of filter types |
| PngFile.ScanChunks | linux/webkitgtk/dmabuf-matrix/run_matrix.py:149-174 | the chunk loop is the recursive walk, with its errors |
| PngFile.WalkReads | linux/webkitgtk/dmabuf-matrix/run_matrix.py:149-174 | a walk that succeeds has read whole chunks with matching CRCs up to an IEND or the end of the file, the last IHDR and the IDAT payloads in order |
| PngFile.WalkSucceeds | linux/webkitgtk/dmabuf-matrix/run_matrix.py:149-174 | it succeeds on every such file |
| PngFile.WalkCollects | linux/webkitgtk/dmabuf-matrix/run_matrix.py:149-174 | walking serialized chunks collects from exactly those chunks, up to IEND |
| PngFile.Decode | linux/webkitgtk/dmabuf-matrix/run_matrix.py:143-218 | accepts exactly the files that hold whole chunks with matching CRCs, a last IHDR of 320 by 240 pixels at 8 bits in colour type 2 or 6 without interlacing, and data that reconstruct to an image, and returns the one image they stand for |
| PngFile.ImageIsUnique | linux/webkitgtk/dmabuf-matrix/run_matrix.py:143-218 | a file stands for at most one image |
| PngFile.FileRoundTrip | linux/webkitgtk/dmabuf-matrix/run_matrix.py:143-218 | any image, any filter per row and any split of the data over IDAT chunks decodes to that image |
| Sorting.SortPermutes | linux/bench/block_result.py:42 | sorting keeps the elements |
| Sorting.SortSorts | linux/bench/block_result.py:42 | the result is in order |
| Sorting.SortIsStable | linux/bench/block_result.py:42 | elements that compare equal keep their order |
| Documents.SortedIdsAreOneTo | schema/result_contract.py:75-79 | sorted ids equal 1..n exactly when each of 1..n occurs once and nothing else does |
| Documents.ValidBlocksAreAll | schema/result_contract.py:84 | the valid blocks are kept, each as often as it occurs |
| Documents.FromHexIsExact | schema/result_contract.py:102-138 | a digest decodes exactly when it spells bytes by two digits each, with blanks between, and to those bytes |
| ResultContract.ArmProblems | schema/result_contract.py:48-138 | reports nothing exactly for an arm with ids 1..n, matching counts and sums, distinct raw paths and the right digest chain |
| ResultContract.ComparisonProblems | schema/result_contract.py:148-191 | reports nothing exactly when neither arm has a corpus or both are paired with equal ids and no rejected block |
| ResultContract.MetricProblems | schema/result_contract.py:193-226 | the IPC-RTT parameter and artifact rules |
| ResultContract.PolicyProblems | schema/result_contract.py:228-286 | eligible results meet the registry's sample policy arm by arm |
| ResultContract.SemanticProblems | schema/result_contract.py:291-345 | the accumulated list is empty exactly for consistent documents |
| BlockResult.SelectedAreMatching | linux/bench/block_result.py:37-41 | the selection keeps exactly the receipts of the tier and arm, each as often as it occurs |
| BlockResult.FitSorted | linux/bench/block_result.py:42-48 | the builder's checks on the sorted receipts hold exactly when the unsorted ones carry 1..n, each once, with distinct paths and usable hashes and sizes |
| BlockResult.BlockCorpus | linux/bench/block_result.py:26-84 | builds the ordered chained ledger of the selected receipts, exactly when they fit, in whatever order they came |
| BlockResult.IpcArm | linux/bench/block_result.py:175-214 | an arm is built exactly when it has artifacts and a ledger |
| BlockResult.LedgerSatisfiesChecker | schema/result_contract.py:48-138 | every ledger the builder makes passes the checker's arm rules |
| Campaigns.SettingsAlwaysFit | linux/keld/kipc-bun-echo/campaign.py:209-220 | either campaign lists its own harness among its modules and always has a reason against publication |
| Campaigns.SettingsSay | linux/keld/kipc-bun-echo/campaign.py:209-220 | the tier, its payload, the harness and the reasons against publication each campaign writes into its documents |
| Campaigns.PathsSay | linux/keld/kipc-bun-echo/campaign.py:466-472 | the name of every raw file |
| Campaigns.CampaignSatisfiesChecker | schema/result_contract.py:31-345 | whatever raw files were loaded, a document either campaign assembles from matching inputs passes every rule of the checker |
| Campaigns.RunProductCampaign | linux/keld/kipc-bun-echo/campaign.py:464-515 | from the output files of its 20 sessions the campaign writes both documents exactly when every output loads with no negative time, the environment receipt can be taken and neither tier's p99 interval ends at zero; the checker never objects, block k records the k-th session's file, and the statistics describe the loaded times |
| PairedCampaign.RunPairedCampaign | linux/keld/kipc-bun-echo/paired_campaign.py:638-764 | the same for the paired campaign, both arms and both comparisons included; its schedule lets each arm run first equally often in either tier; it fails for a Rust percentile it divides by, and nothing the Bun arm measured can stop it |
| BlockResult.DigestChainBindsRawFiles | schema/result_contract.py:102-138 | two passing arms with the same digest chain, whose chained bytes do not collide, have as many valid blocks and, block by block, the same raw digests |

## Left out

- Frame reader clock: the source may read the clock twice while handling one event; the model reads it once.
  `setTimeout` callbacks may come at any time, early or late.
- Error texts: only the code and what closes are kept. In the models of Python code one error stands for every exception.
- ReaderTheorems.PunctualTimersBoundFrameAge: assumes timers that fire when due and a clock that does not run backwards, because nothing bounds a frame's age otherwise; EndToEnd.TimelyStreamStaysOpen assumes the clock too, the other reader theorems assume neither.
- Sockets: connection, TCP or pipe selection, `end`; the peer is any byte or frame script. A socket never takes more than it is offered.
- `DrainSignal`'s list of waiters: only the single writer in progress ever waits, so waiting is a flag of the frame in progress.
- WriteFates.FateIsExact: a wait for a drain may time out at any moment, where the source's timer is set to what remains of the deadline.
- HELLO handshake, token comparison, `parseAppLink`, Err-frame call errors.
- `withIoDeadline` on session calls: a script of host frames holds those that arrive before the deadline, and a receive that runs out of them fails with an arbitrary code; writes fail from an arbitrary point on.
- Mux.DirectedReader.Receive: overlapping receives on one directed reader are not modelled; the session awaits each one.
- JavaScript typing checks (non-numbers, non-strings) and string length limits; `TextEncoder` and `TextDecoder` are modelled as strict UTF-8.
- `dev-hello/project/src/kipc-transport.ts` is the same file as the modelled transport; the Windows and macOS clients add only the concatenating reader.
- Generations.ProcessMemory: whether a `/proc` file can be read and parsed, and what it says, is arbitrary; `_product_memory_counters` makes the same reads without the role. A running process is assumed to have a readable `/proc/<pid>/stat`, and start times of one PID strictly increase.
- Cleanup.ForceCleanup: the `Popen` terminate, wait and kill steps and the census of further descendants before them are left out, and so is `killpg` in `_signal_group`.
- GroupTermination.TerminateRemaining: the clocks of its two waits; a process is assumed to stay in its process group.
- Stability.ObserveAll: the drift limit is a rational and ratios are exact; reject reasons and `drift_percent` are left out.
- Beacon.Serve: URL splitting and strict query parsing are inputs; a rejection's reply goes out with its locked section, and closing the server is left out.
- TierStatistics.TierStatistics: handshake times are left out, and quotients are exact.
- Bootstrap.PairedBootstrap: ratios are exact quotients, without floating-point division or the rounding to six places; random draws are arbitrary.
- PngFile.Decode: inflate and CRC-32 are arbitrary functions and inflate errors are left out, as is the comparison of marker and background pixels.
- ResultContract.SemanticProblems: documents are taken after schema validation, so per-field type checks, arms without a corpus and the text and number of problems are left out.
- BlockResult.IpcArm: nanosecond rounding, bootstrap metadata, environment and the other document fields the checker does not read; hashing is an arbitrary function to 64 hex digits.
- Campaigns.RunProductCampaign: the benchmark processes, priming and pilots are left out: their output files are inputs with integer times, and one without a usable handshake time counts as not loadable; whether the environment receipt can be taken is a flag, and the random draws are an input. PairedCampaign.RunPairedCampaign likewise.
- CI routing, instruction budgets, launch themes, thermal verdicts, GUI fixtures and browser glue: branch tables or I/O.
