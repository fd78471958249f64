# Transcoding scheduler and timestamp arithmetic

A verified model of the parts of the `ffmpeg` command line tool that decide which task runs,
which item goes where and at which time.

**The scheduler.** A transcode is a graph of demuxers, decoders, filtergraphs, encoders and
muxers, one thread each.

* `Topology`, `Cycles`, `SearchOrder`, `Setup`, `CycleCheck`: the graph, how it is connected
  endpoint by endpoint, and the checks made before anything runs. The cycle check is a depth-first
  search on an explicit stack of fixed size which explores finished filtergraphs again. It is proved
  to answer what a recursive search answers and never to overflow its stack. Climbing from a filter
  input can go round a loop of decoders and encoders for ever; the model gives such a search the
  answer `Endless`, and `StuckIff` says exactly when that is the answer.
* `Closure`, `Decision`, `Demand`, `QueueChokes`, `RateControl`: rate control. `Decision` says what a
  scheduling decision is (reachability from the demanded sources, nothing about how it is
  computed). `Demand` says it once more over the connections alone: who waits for which source, and
  which input a filtergraph would block a released demuxer for; the two agree (`WaitedIff`).
  `Scheduler` holds the two mutually recursive unchoking methods with the loops
  around them and is proved to compute it, to mirror it into waiters and queues, to release
  the source of some eligible output while an output is unfinished, and to release a task that has
  not exited exactly when the condition of `TaskRunsIff` holds.
* `PreMux`, `MuxRace`, `MuxStartup`: starting a muxer. Items wait in one FIFO per stream and are
  merged when the muxer starts; senders race with that merge (a step relation, all
  interleavings); muxers start once their streams are ready.
* `Edges`, `EndTimestamps`: how the end of a stream travels along each edge, and how a looping
  demuxer waits for its decoders to report where they ended (a step relation).

**Timestamps.**

* `Timestamps`: comparison, rounding conversion between time bases, and the conversion that keeps
  track of durations, each with its exactness or error bound.
* `VideoSync`: constant and variable frame rate output: how often frames are repeated or dropped.
* `MuxFixup`: repair of timestamps before a packet is written.
* `LoopOffset`: the offset added on every pass when an input is read in a loop.
* `AudioTimeBase`: the time base kept across changes of the sample rate.

Time bases are pairs of positive integers. Timestamps are unbounded integers with the sentinel
`NOPTS`; seconds are reals. Doubles in the frame rate conversion are idealised as reals.

## How the claims fit together

A class models each structure the program updates; its methods follow the program statement by
statement, and their contracts tie the new state to a function or predicate of the old one. The
lemmas then state what holds over whole runs.

Points where the code is weaker or stronger than one might think:

* `sch_start` starts no task for a demuxer without a used stream, and such a demuxer never counts as
  exited. The last resort of rate control can stop at it and let nothing run
  (`UnusedDemuxerTakesLastResort`); `LastResortIff` and `TaskRunsIff` say exactly when a task runs.
* `fftools/thread_queue.h:56-59` says that finishing the sending side marks the stream.
  `fftools/thread_queue.c:227-241` also releases a choked queue. So the queue behind a demuxer can
  differ from its waiter (`FinishedQueueDiffers`); it does exactly while a record says that finishing
  released it and the demuxer has not changed since (`QueuesFollow`).
* A released demuxer that feeds into a filtergraph releases the input that filtergraph prefers
  (`NoneBlocked`). The last resort does not: it can release a demuxer alone whose filtergraph waits for
  another one (`LastResortMayBlock`).
* The source of the only eligible output can have exited while what it sent is still on its way; then
  no task is released and other inputs wait (`DrainingHoldsTheOther`).
* The cycle check looks at filtergraphs only. `DecoderLoopUnseen` is a fully connected graph that
  passes it although a decoder and an encoder feed each other. Climbing ends exactly when no loop of
  decoders and encoders lies above (`ClimbEndsIff`), and then within as many steps as there are
  decoders and encoders. With such a loop above a filter input the search never returns, unless it
  meets a filtergraph on its own path first: `StuckIff` gives the exact condition in the order of the
  search, and in `FirstFaultDecides` the same two faults give an error in one order and no answer in
  the other. The unchoking methods need `ChainsEnd`, which holds exactly when there is no such loop at
  all (`ChainsEndIffNoLoop`).
* A stream is eligible exactly when some unfinished stream has not reached the largest
  timestamp (`EligibleIffNotAtMax`).
* The counters of repeated and dropped frames move apart in four cases: a frame of negative duration
  (`NegativeDurationUnbalances`), a pending frame lost with a repetition that is given up
  (`PendingLostUnbalances`), and at the end of input a pending frame that is counted twice
  (`PendingAtEndUnbalances`) or a repetition over the limit (`RepetitionAtEndUnbalances`). The last two
  need a frame sent by this or another output of the filtergraph (`NothingSentBalances`).
  `FramesAccounted` and `EndAccounted` say by how much, for every accepted input.
* The duplicate counter is the number of repeated showings and the drop counter the number of pictures
  never shown (`CountersMean`), unless the first frame is repeated only in front of itself: nothing was
  received before it, so it stands in for the previous picture, but is still booked as pending
  (`BookedFirst`, `FirstFrameMiscounted`).
* A packet without a timestamp makes the repair before muxing forget the stream's position
  (`UntimedPacketForgets`); `OrderedIffResumesAbove` says exactly which streams stay in order.
* A looped input that reads timestamps only from its second pass on can go back in time
  (`UntimedFirstPassGoesBack`); `GoesBackIff` says exactly which runs do, and one that reads the same
  packets every time never does (`RepeatedInputNeverGoesBack`).
* The exact audio time base is given up slightly before it would overflow (`OverflowsIff`,
  `FitsButGivenUp`), and a fine time base of a frame can make that happen with common rates
  (`KeptBaseNeedsFallback`).

## Model

| member | source | states |
|---|---|---|
| Setup.SchedulerSetup.Connect | fftools/ffmpeg_sched.c:937-1113 | connecting a pair adds one destination to the source and sets the sink's source, changes no other edge, and keeps every edge recorded at both of its ends |
| Setup.SchedulerSetup.StartPrepare | fftools/ffmpeg_sched.c:1583-1697 | the start-up check accepts if and only if nothing is left unconnected, no filtergraph feeds itself, and every filter input can be climbed; it never returns exactly if everything is connected and the search gets stuck; an accepted graph is fit for scheduling if and only if no decoder or encoder reaches itself |
| Setup.FirstFaultDecides | fftools/ffmpeg_sched.c:1562-1571 | two connected graphs with the same two faults in different order: the search reports an error on one and gets stuck on the other |
| Setup.DecoderLoopUnseen | fftools/ffmpeg_sched.c:1547-1581 | a completely connected graph whose decoder and encoder feed each other has no filtergraph-level cycle, and climbing from its muxed stream never ends |
| Topology.ClimbEndsIff | fftools/ffmpeg_sched.c:1480-1499 | climbing from a source ends if and only if no loop of decoders and encoders lies above it, and then within as many steps as there are decoders and encoders |
| Topology.ChainsEndIffNoLoop | fftools/ffmpeg_sched.c:1324-1360 | all climbs end if and only if no decoder or encoder reaches itself |
| Topology.FiltersFedIffNoLoop | fftools/ffmpeg_sched.c:1514-1520 | every filter input can be climbed if and only if none has such a loop above it |
| Topology.SrcFiltergraph | fftools/ffmpeg_sched.c:1480-1499 | the walk up a chain of decoders and encoders reaches the demuxer or filtergraph at its top, or is recognised as one that never ends |
| CycleCheck.CheckAcyclicForOutput | fftools/ffmpeg_sched.c:1501-1545 | the depth-first search stays within a stack of one slot per filtergraph and answers what the recursive search does; it succeeds if and only if there is neither a cycle nor an endless climb upstream |
| SearchOrder.OutcomeMeans | fftools/ffmpeg_sched.c:1508-1544 | what the recursive search answers from one filtergraph: nothing found if and only if neither is there, and anything found is really there |
| SearchOrder.FirstStop | fftools/ffmpeg_sched.c:1513-1534 | what is found is the first stop in the order in which inputs are followed |
| SearchOrder.StuckIff | fftools/ffmpeg_sched.c:1561-1571 | the search over all filtergraphs never returns if and only if some endless climb comes before every filtergraph met again, and reports a cycle if and only if it is the other way round |
| SearchOrder.SearchMeans | fftools/ffmpeg_sched.c:1547-1581 | without a cycle the search gets stuck if and only if some climb is endless; without an endless climb it reports a cycle if and only if there is one |
| CycleCheck.FedIffAllEnd | fftools/ffmpeg_sched.c:1514-1520 | the climbs the search makes all end if and only if every filter input can be climbed |
| CycleCheck.CheckAcyclic | fftools/ffmpeg_sched.c:1547-1581 | the check succeeds if and only if the filtergraph-level graph has no cycle and every filter input can be climbed |
| CycleCheck.StackFits | fftools/ffmpeg_sched.c:1530-1531 | the search path never holds more frames than there are filtergraphs |
| CycleCheck.MeetStarted | fftools/ffmpeg_sched.c:1525-1527 | meeting a started filtergraph means that the recursive search answers a cycle and that there really is one above the start |
| CycleCheck.Finish | fftools/ffmpeg_sched.c:1536-1543 | when a filtergraph is finished, going on with the stack answers what the whole search does, and the started marks are again the stack plus the current filtergraph |
| CycleCheck.Descend | fftools/ffmpeg_sched.c:1529-1533 | going down keeps both, and the stack has room |
| CycleCheck.MeasureDescend | fftools/ffmpeg_sched.c:1529-1533 | descending decreases the termination measure even when the filtergraph was explored before |
| Closure.ExploredExactly | fftools/ffmpeg_sched.c:1289-1360 | an exploration that stops at demuxers met before finds exactly what its roots reach |
| Closure.ExploredThen | fftools/ffmpeg_sched.c:1324-1360 | two explorations one after the other, the second cut short by what the first has marked, make one exploration from the same roots |
| Decision.EligibleIffNotAtMax | fftools/ffmpeg_sched.c:1421-1428 | some output stream may be fed if and only if some unfinished one has no timestamp or one below the largest |
| Decision.EligibleIff | fftools/ffmpeg_sched.c:438-458 | an unfinished stream may be fed if and only if it has no timestamp, or all unfinished ones have, none is 100 ms or more behind it, and one is below the largest |
| Decision.DecisionUnique | fftools/ffmpeg_sched.c:1392-1458 | what has been reported determines the decision; the order of visits has no part in it |
| Decision.ResolveReached | fftools/ffmpeg_sched.c:1324-1360 | climbing from any source through decoders, encoders and preferred filter inputs ends at a demuxer or at a filtergraph that wants to run, and is part of the closure |
| Decision.EligibleSourceRuns | fftools/ffmpeg_sched.c:1414-1434 | the resolved source of every eligible stream is unchoked |
| Decision.LastResortIff | fftools/ffmpeg_sched.c:1448-1458 | without an eligible stream, the last resort lets a source with a task through if and only if the first demuxer that has not exited has a used stream, or all have exited and a filtergraph has not |
| Decision.TaskRunsIff | fftools/ffmpeg_sched.c:1414-1458 | a source with a task that has not exited is let through if and only if an eligible stream or a closed filter input demands one, or no stream is eligible and the last resort finds one |
| Decision.DrainingHoldsTheOther | fftools/ffmpeg_sched.c:1414-1434 | while an encoder drains behind an input that has exited, the other input stays choked and no task is let through |
| Decision.UnusedDemuxerTakesLastResort | fftools/ffmpeg_sched.c:1748-1749 | with an unused input in front, the last resort stops at a demuxer that has no task and leaves the one that has choked |
| Decision.Progress | fftools/ffmpeg_sched.c:1414-1458 | while an output is unfinished the source of some eligible output is let through, which has a task but may have exited; a task that has not exited is let through exactly under the condition above |
| RateControl.Scheduler.UnchokeDownstream | fftools/ffmpeg_sched.c:1289-1322 | explores exactly the positions below a sink, never chokes anything, and ends on every acyclic graph; what is explored is what is waited for (`WaitedIff`) |
| Demand.WaitedIff | fftools/ffmpeg_sched.c:1289-1360 | what the mutual recursion from the demanded sources comes to are exactly the sources somebody waits for: an output or closed input is fed from them, or a filtergraph downstream of a released demuxer prefers them |
| Demand.ReleasedIff | fftools/ffmpeg_sched.c:1406-1458 | a decision lets a source through if and only if it is waited for or the last resort |
| Demand.LastResortIsOne | fftools/ffmpeg_sched.c:1448-1458 | the last resort lets through exactly one source, if no stream is eligible and some source has not exited, and none otherwise |
| Demand.NoneBlocked | fftools/ffmpeg_sched.c:1307-1316 | whenever a demuxer is let through on demand, every filtergraph downstream of it has the source of the input it prefers let through, or runs itself if it wants none |
| Demand.ResolveByRoot | fftools/ffmpeg_sched.c:1324-1360 | the source of a stream is the demuxer at the top of its chain of codecs, or through the preferred inputs of the filtergraph there |
| Demand.CopyReleasesBoth | fftools/ffmpeg_sched.c:1307-1316 | a copied stream keeps one input running and thereby the other input of the filtergraph it also feeds |
| Demand.LastResortMayBlock | fftools/ffmpeg_sched.c:1448-1458 | on the same graph the last resort lets one demuxer through although its filtergraph waits for the other |
| RateControl.Scheduler.UnchokeDemux | fftools/ffmpeg_sched.c:1330-1338 | a choked demuxer is unchoked with everything below the first destination of each of its streams; an unchoked one stops the recursion |
| RateControl.Scheduler.UnchokeForStream | fftools/ffmpeg_sched.c:1324-1360 | explores exactly the positions above and around a source, and the mutual recursion ends |
| RateControl.Scheduler.TrailingDts | fftools/ffmpeg_sched.c:438-458 | the least last timestamp of the counted streams, or none if one has none or all are at the largest |
| RateControl.Scheduler.UnchokeEligible | fftools/ffmpeg_sched.c:1414-1434 | marks what the sources of all eligible streams, and nothing else, reach, and reports whether there was one |
| RateControl.Scheduler.UnchokeClosedInputs | fftools/ffmpeg_sched.c:1436-1446 | adds what the sources of closed filter inputs reach |
| RateControl.Scheduler.UnchokeLastResort | fftools/ffmpeg_sched.c:1448-1458 | without an eligible stream, lets through the first demuxer or else the first filtergraph that has not exited |
| RateControl.Scheduler.ChokeDemux | fftools/ffmpeg_sched.c:1362-1390 | the queues that are first destinations of the demuxer's streams get the new flag, all others keep theirs |
| RateControl.Scheduler.Announce | fftools/ffmpeg_sched.c:1460-1469 | all waiters show the new decision and the decoder queues behind demuxers follow it |
| RateControl.Scheduler.Decide | fftools/ffmpeg_sched.c:1406-1458 | the computed marks are the decision: unchoked if and only if demanded or the last resort |
| RateControl.Scheduler.ScheduleUpdate | fftools/ffmpeg_sched.c:1392-1471 | after every update the waiters show the decision for what has been reported and the queues follow; after a stop request nothing changes |
| RateControl.Scheduler.StreamReached | fftools/ffmpeg_sched.c:2008-2019 | reporting a timestamp changes one entry and re-establishes the decision |
| RateControl.Scheduler.StreamFinished | fftools/ffmpeg_sched.c:2194-2210 | a closed muxed stream is recorded and the decision re-established |
| RateControl.Scheduler.MuxDone | fftools/ffmpeg_sched.c:2242-2251 | all streams of the muxer, and no others, become finished |
| RateControl.Scheduler.DemuxDone | fftools/ffmpeg_sched.c:2170-2176 | the demuxer counts as exited and the decision is re-established |
| RateControl.Scheduler.FilterDone | fftools/ffmpeg_sched.c:2622-2628 | the filtergraph counts as exited and the decision is re-established |
| RateControl.Scheduler.FilterInputSent | fftools/ffmpeg_sched.c:2300-2314 | the end of a filter input is recorded once and the decision re-established |
| RateControl.Scheduler.FilterInputClosed | fftools/ffmpeg_sched.c:2553-2578 | closing a filter input is recorded once and the decision re-established |
| RateControl.Scheduler.FilterReceive | fftools/ffmpeg_sched.c:2519-2530 | a change of the preferred input re-establishes the decision |
| RateControl.Scheduler.FilterChokeInputs | fftools/ffmpeg_sched.c:2643-2653 | a filtergraph that wants no input re-establishes the decision |
| RateControl.Scheduler.FinishDecQueue | fftools/thread_queue.c:227-241 | finishing a decoder's queue outside the schedule lock releases it, records whether it was choked, and keeps the correspondence between queues and waiters |
| RateControl.NeverStuck | fftools/ffmpeg_sched.c:1392-1471 | whenever the lock is free the waiters themselves let the source of an eligible output through, and a task that has not exited exactly under that condition |
| RateControl.ReleasedAreWaited | fftools/ffmpeg_sched.c:1392-1471 | whenever the lock is free before termination, the waiters let through exactly the sources waited for and the last resort |
| QueueChokes.FollowChange | fftools/ffmpeg_sched.c:1362-1390 | choking or releasing a demuxer together with its queues keeps the correspondence for every demuxer and clears the record of the queues behind it |
| QueueChokes.FollowFinish | fftools/thread_queue.c:227-241 | a finished queue differs from its demuxer's waiter exactly if the demuxer is choked, and the record says so |
| RateControl.FinishedQueueDiffers | fftools/thread_queue.c:236-237 | an input 200 ms ahead is choked without having exited; finishing the queue behind it then leaves a released queue behind a choked demuxer |
| PreMux.Mux.QueuePacket | fftools/ffmpeg_sched.c:1931-1965 | an item is refused exactly when its FIFO is full, at the packet limit, and would pass the byte threshold; otherwise it is appended, and the FIFO grows as far as the limits allow |
| PreMux.Mux.NextStream | fftools/ffmpeg_sched.c:1125-1147 | the first stream with an untimed head, else the first one with the earliest head; none exactly when all FIFOs are empty |
| PreMux.Mux.FlushOne | fftools/ffmpeg_sched.c:1149-1164 | one head is taken and passed on, dropped because the muxer closed the stream, or turned into the end mark |
| PreMux.Mux.FlushAll | fftools/ffmpeg_sched.c:1115-1175 | the flush ends with every FIFO empty, each stream in order and complete unless the muxer closed it, and timed packets merged by time, ties going to the lowest stream |
| PreMux.MergeStep | fftools/ffmpeg_sched.c:1123-1170 | taking the next item keeps everything sent before everything waiting |
| PreMux.FlushTakes | fftools/ffmpeg_sched.c:1149-1164 | each step keeps, for every stream, that what was waiting is what was taken plus what is left |
| MuxRace.StepInv | fftools/ffmpeg_sched.c:1976-2006 | every move of senders, starter and muxer keeps the invariant of the double-checked start |
| MuxRace.ExactlyOnceInOrder | fftools/ffmpeg_sched.c:1967-2006 | in every interleaving the queue and FIFO of an open stream hold what was sent, once and in order, and after the start the queue holds all of it |
| MuxRace.NothingLost | fftools/ffmpeg_sched.c:1967-2006 | in every interleaving an open stream has in its queue and FIFO, in order, everything its sender was handed and the FIFO did not refuse, except the item still in hand |
| MuxRace.FifoBeforeDirect | fftools/ffmpeg_sched.c:1976-1992 | anything sent directly comes after all the stream ever had in its FIFO |
| MuxRace.MarkArrivesIff | fftools/ffmpeg_sched.c:1976-2006 | a sender that is done has its end mark in the queue of an open stream of a started muxer if and only if its FIFO did not refuse it |
| MuxRace.FlagsMean | fftools/ffmpeg_sched.c:1149-2001 | over every run: a stream is closed, its sending side finished, and its sender turned away at once exactly if one of the stated moves has happened; nothing is in the queue before the start |
| MuxRace.ClosedIsFinal | fftools/thread_queue.c:127-138 | nothing gets into the queue of a closed stream |
| MuxRace.WhereItStands | fftools/ffmpeg_sched.c:1976-2002 | over every run a sender is working on the item it was handed last, or waits for the next, or is done exactly if that was the end mark; queueing and sending end the attempt whatever comes of it |
| MuxRace.NeverStuck | fftools/ffmpeg_sched.c:1976-2006 | in every reachable state, until the muxer has started and no sender holds anything, somebody can go on, and every such move leaves less to do |
| MuxRace.QueueOnlyGrows | fftools/ffmpeg_sched.c:1115-1175 | what the muxer's queue has received keeps its place for the rest of the run |
| MuxStartup.Startup.MuxInit | fftools/ffmpeg_sched.c:1179-1213 | succeeds if and only if the muxer initialises and then its own task starts, or, with a session description and all initialised, the description is written and all tasks start; which tasks have started, also on failure |
| MuxStartup.Startup.StreamReady | fftools/ffmpeg_sched.c:1231-1254 | the last ready stream of a running program initialises its muxer, and an error is returned exactly if that fails; no muxer is initialised twice or before its streams are ready |
| MuxStartup.Startup.Start | fftools/ffmpeg_sched.c:1707-1718 | on start exactly the muxers whose streams are all ready are initialised, in turn until one fails; if everything succeeds outside, all of them |
| Edges.Sender.SendToDst | fftools/ffmpeg_sched.c:2025-2059 | the flag is set exactly when the end is passed on; an edge that has carried it carries nothing more |
| Edges.PassesOn | fftools/ffmpeg_sched.c:2031-2058 | for every kind of destination and every answer, which item or end an open edge carries |
| Edges.Sender.SendForStream | fftools/ffmpeg_sched.c:2061-2091 | a send reports the end exactly when all destinations have it, and otherwise each open destination got the item or the end |
| Edges.Sender.EncSend | fftools/ffmpeg_sched.c:2460-2491 | an encoder notes finished destinations but never reports the end |
| Edges.Sender.Done | fftools/ffmpeg_sched.c:2164-2168 | when a task is done every edge has carried the end, once |
| Edges.FlagMeansEnd | fftools/ffmpeg_sched.c:2025-2059 | at every point of every run an edge's flag is set exactly when its history holds the end, as the last entry |
| Edges.NothingAfterEnd | fftools/ffmpeg_sched.c:2031-2032 | in every run nothing changes an edge once its flag is set |
| Edges.EndsOnce | fftools/ffmpeg_sched.c:2031-2058 | in every run the flag rises in exactly one step, the one that passes the end on, with no end before it and no change after it |
| EndTimestamps.StepInv | fftools/ffmpeg_sched.c:2093-2135 | every step of demuxer and decoder keeps the one-token invariant |
| EndTimestamps.OneToken | fftools/ffmpeg_sched.c:2265-2292 | while the demuxer waits there is exactly one flush, pending report or queued report, so the one-slot queue never blocks the decoder and the report answers this flush |
| EndTimestamps.ReportsAnswerFlushes | fftools/ffmpeg_sched.c:2112-2121 | every completed flush got exactly its own report, in order |
| EndTimestamps.ReportsStay | fftools/ffmpeg_sched.c:2112-2121 | reports are received in the order they were sent, and none is lost or changed |
| EndTimestamps.NothingSkipped | fftools/ffmpeg_sched.c:2265-2292 | over every run what the decoder has read and has in its queue is what the demuxer has sent, in order, until the decoder leaves; when a report is given, everything sent has been read, its flush last |
| EndTimestamps.StoppedIff | fftools/ffmpeg_sched.c:2112-2121 | over every run the demuxer stops exactly if a flush finds the queue closed or no report will come |
| EndTimestamps.CanLeave | fftools/ffmpeg_sched.c:2391-2401 | a decoder that has not left can close its queue and then make waiting for reports fail |
| EndTimestamps.WaitingEnds | fftools/ffmpeg_sched.c:2396-2401 | a waiting demuxer can go on, or the decoder can take a step of a bounded number, whether it leaves or not |
| EndTimestamps.DemuxFlush | fftools/ffmpeg_sched.c:2093-2135 | the flush returns the latest of the valid timestamps reported, the first such |
| Timestamps.CompareExact | libavutil/mathematics.c:147-158 | comparing timestamps of any two time bases is comparing points in time |
| Timestamps.ComparisonsAgree | libavutil/mathematics.c:151-157 | the comparison by rounding down agrees with the comparison by products on all timestamps whose conversions fit 64 bits |
| Timestamps.RescaleNearError | libavutil/mathematics.c:58-76 | rounding to nearest is off by at most half a unit, also for negative values |
| Timestamps.RescaleNearExact | libavutil/mathematics.c:129-145 | a value with an exact counterpart is converted to it |
| Timestamps.RescaleNearTies | libavutil/mathematics.c:73-76 | a value halfway between two is rounded away from zero |
| Timestamps.RescaleNearOdd | libavutil/mathematics.c:66-76 | the opposite of a value is rounded to the opposite |
| Timestamps.ConversionError | libavutil/mathematics.c:142-145 | a conversion between time bases is off by at most half a tick of the target, and exact within one |
| Timestamps.DeltaClose | libavutil/mathematics.c:168-189 | whatever duration was predicted, the result stays within half an input tick and one sample tick of the timestamp, besides the final rounding |
| Timestamps.PredictsTheEnd | libavutil/mathematics.c:174-188 | the prediction left behind is the end of the packet on the sample clock, close to its timestamp, and what is returned is its start |
| Timestamps.SamplesCounted | libavutil/mathematics.c:174-188 | over a run of packets whose coarse timestamps agree with the sample count, each is converted from the exact count, with no rounding carried along |
| VideoSync.Converter.Finalise | fftools/ffmpeg_filter.c:2603-2634 | the history, the counters and the pending drop after a decision |
| VideoSync.Converter.VideoSyncProcess | fftools/ffmpeg_filter.c:2513-2634 | the method follows the decision function for every mode, threshold and frame |
| VideoSync.Converter.SendFrames | fftools/ffmpeg_filter.c:2714-2772 | by index: consecutive timestamps, the previous picture exactly in the first ones asked for, else the new one; a refusal stops right there |
| VideoSync.Converter.OutputFrame | fftools/ffmpeg_filter.c:2702-2783 | one input frame, end to end, including a consumer that fails part of the way |
| VideoSync.Converter.OutputEnd | fftools/ffmpeg_filter.c:2711-2712 | the end of input repeats the last frame by the median of the last three counts, and does nothing if no frame has been sent |
| VideoSync.ReceiveShows | fftools/ffmpeg_filter.c:2714-2772 | by index, which timestamp and which picture every emitted frame has |
| VideoSync.ShowsTheNewest | fftools/ffmpeg_filter.c:2720-2722 | over every accepted input each output shows the frame that caused it, or the one before as often as decided and first |
| VideoSync.UnitFramesPass | fftools/ffmpeg_filter.c:2513-2783 | frames of one tick back to back come out as they came in, in every mode, none repeated or dropped |
| VideoSync.LlrintTies | fftools/ffmpeg_filter.c:2580 | a time halfway between two integers is rounded to the even one |
| VideoSync.BeginsAt | fftools/ffmpeg_filter.c:2565-2598 | at which timestamp the output of a frame begins in every mode |
| VideoSync.DroppedIff | fftools/ffmpeg_filter.c:2574-2577 | at a constant rate a frame is dropped exactly if it ends too far before the output position |
| VideoSync.ShownOnTime | fftools/ffmpeg_filter.c:2578-2582 | at a constant rate the new picture is first shown at the output position, or between 1.1 and 0.1 before its start if that is later |
| VideoSync.VariableRate | fftools/ffmpeg_filter.c:2585-2591 | at a variable rate a frame is dropped exactly if it ends 0.6 or more before the output position, and otherwise shown once at the stated position |
| VideoSync.EndShows | fftools/ffmpeg_filter.c:2520-2531 | the end of input shows the last picture again at consecutive timestamps |
| VideoSync.CountsRemembered | fftools/ffmpeg_filter.c:2604-2607 | the median at the end is taken over the counts decided for the last three frames |
| VideoSync.BaseNotBack | fftools/ffmpeg_filter.c:2548-2591 | a decision never moves the output position back, and at a constant rate moves it only before the first frame |
| VideoSync.PrevWithinFrames | fftools/ffmpeg_filter.c:2578-2582 | with a nonnegative duration the previous picture is not asked for more often than there are frames |
| VideoSync.PrevTooOftenIff | fftools/ffmpeg_filter.c:2564-2584 | the previous picture is asked for more often than there are frames exactly under a condition on the input frame |
| VideoSync.GivenUpIff | fftools/ffmpeg_filter.c:2615-2622 | a repetition is given up exactly under a condition on the input frame and the state before it |
| VideoSync.ImbalanceStep | fftools/ffmpeg_filter.c:2603-2634 | how far one frame moves emitted from received - pending - dropped + duplicated |
| VideoSync.BalanceStep | fftools/ffmpeg_filter.c:2603-2634 | one frame keeps the balance if and only if it loses no pending frame and does not ask too often for the previous picture |
| VideoSync.FramesAccounted | fftools/ffmpeg_filter.c:2542-2634 | over every accepted input, in every mode, the imbalance is the sum of the errors of its frames |
| VideoSync.ConservedIff | fftools/ffmpeg_filter.c:2542-2634 | with nonnegative durations the balance holds after an accepted input if and only if no pending frame was lost with a repetition given up |
| VideoSync.FramesConserved | fftools/ffmpeg_filter.c:2542-2634 | over every input with nonnegative durations, in every mode, the balance holds |
| VideoSync.CountersMean | fftools/ffmpeg_filter.c:2609-2632 | over every smooth input with nonnegative durations the duplicate counter is the number of repeated showings in the output and the drop counter the number of pictures not shown, a pending one aside |
| VideoSync.BookedFirst | fftools/ffmpeg_filter.c:2609-2632 | after the first frame the counters mean this if and only if it was not repeated only in front of itself |
| VideoSync.FirstFrameMiscounted | fftools/ffmpeg_filter.c:2632 | a first frame shown twice that is booked as repeated twice and pending |
| VideoSync.EndBooked | fftools/ffmpeg_filter.c:2609-2632 | the end of input keeps the meaning of the counters if neither failing case applies |
| VideoSync.NegativeDurationUnbalances | fftools/ffmpeg_filter.c:2578-2582 | a frame of negative duration for which the balance fails |
| VideoSync.PendingLostUnbalances | fftools/ffmpeg_filter.c:2609-2622 | an input in which a pending frame is lost |
| VideoSync.EndAccounted | fftools/ffmpeg_filter.c:2520-2531 | after every accepted input the repeat count is not negative and the end adds one to the imbalance exactly in two cases, once a frame has been sent |
| VideoSync.BalanceEnd | fftools/ffmpeg_filter.c:2520-2531 | the end keeps the balance if and only if no frame has been sent, or no pending frame is dropped there and the last repetition is within the limit |
| VideoSync.NothingSentBalances | fftools/ffmpeg_filter.c:2711-2712 | an input with nothing but a dropped frame balances at its end unless another output has sent a frame |
| VideoSync.PendingAtEndUnbalances | fftools/ffmpeg_filter.c:2525-2528 | an input that ends with a pending frame and a balance that fails |
| VideoSync.RepetitionAtEndUnbalances | fftools/ffmpeg_filter.c:2617-2622 | an input that ends with a repetition over the limit and a balance that fails |
| VideoSync.TimestampsIncrease | fftools/ffmpeg_filter.c:2714-2772 | for every input, also with a failing consumer and after the end, output timestamps strictly increase, and are consecutive at a constant rate |
| VideoSync.DriftStep | fftools/ffmpeg_filter.c:2572-2584 | one frame at a constant rate brings the drift near zero or leaves it when the frame is dropped |
| VideoSync.NeverBehind | fftools/ffmpeg_filter.c:2533-2584 | at a constant rate, after any frames whatsoever, the output is at most half a frame behind, and at most 2.1 frames ahead exactly if it was not further ahead before the frame |
| VideoSync.DriftBounded | fftools/ffmpeg_filter.c:2533-2584 | over a whole constant rate run with frame ends that never decrease the output is at most half a frame behind and 2.1 frames ahead |
| MuxFixup.MuxStream.Convert | fftools/ffmpeg_mux.c:142-164 | timestamps and duration in the stream's time base; copied audio goes through its sample clock |
| MuxFixup.ConvertedTimes | fftools/ffmpeg_mux.c:142-164 | the converted timestamps denote the same points in time up to rounding; dropped and copied ones as stated |
| MuxFixup.MuxStream.FixupTs | fftools/ffmpeg_mux.c:138-207 | conversion followed by the repair, or a rejection that leaves the stream's position alone |
| MuxFixup.RepairedValues | fftools/ffmpeg_mux.c:166-200 | the repaired values: decoding raised to the least allowed and presentation only as far as needed, or, with decoding after presentation, both the value between them nearest to one after the last packet, then raised |
| MuxFixup.NoTimestampsUntouched | fftools/ffmpeg_mux.c:166 | formats without timestamps get packets unchanged |
| MuxFixup.FixRepairs | fftools/ffmpeg_mux.c:166-200 | after the repair decoding is not after presentation and not before the packet in front |
| MuxFixup.FixOnlyIfNeeded | fftools/ffmpeg_mux.c:166-200 | a packet is left alone if and only if it is in order |
| MuxFixup.DtsIncreases | fftools/ffmpeg_mux.c:163-201 | over every stream of timed packets decoding timestamps strictly increase (or never decrease), none after its presentation timestamp |
| MuxFixup.NeighboursIncrease | fftools/ffmpeg_mux.c:177-201 | two timed packets in a row are in order even if others carry no timestamp |
| MuxFixup.RejectedIff | fftools/ffmpeg_mux.c:177-190 | with errors fatal, a packet is rejected exactly when its own decoding timestamp is below the least allowed, whatever the first repair did |
| MuxFixup.UntimedPacketForgets | fftools/ffmpeg_mux.c:177-201 | a stream that goes back after a packet without a timestamp |
| MuxFixup.AfterUntimed | fftools/ffmpeg_mux.c:166-201 | a timed packet behind an untimed one is written at the earlier of its two timestamps, whatever came before |
| MuxFixup.OrderedIffResumesAbove | fftools/ffmpeg_mux.c:163-201 | a whole stream with any number of untimed packets is written in order if and only if each timed packet behind an untimed one settles above the last timed one |
| MuxFixup.OrderedUntouched | fftools/ffmpeg_mux.c:166-200 | a stream already in order is written unchanged |
| LoopOffset.Demuxer.TsFixup | fftools/ffmpeg_demux.c:425-449 | the offset is added and the least and greatest timestamps are kept up to date |
| LoopOffset.Demuxer.SeekToStart | fftools/ffmpeg_demux.c:198-223 | the offset of the next pass, or nothing changed when the input cannot seek |
| LoopOffset.PlayCovers | fftools/ffmpeg_demux.c:426-446 | after a pass the interval holds the start and end of every packet of it |
| LoopOffset.ShiftedPastEnd | fftools/ffmpeg_demux.c:213-217 | after going back a packet is shifted past everything seen, up to two roundings |
| LoopOffset.BackExactlyWhenBelowFloor | fftools/ffmpeg_demux.c:213-217 | in one time base a packet lands before the greatest timestamp if and only if it was read before the least, or before zero while no packet had a timestamp |
| LoopOffset.NeverGoesBack | fftools/ffmpeg_demux.c:198-223 | over any number of passes and any time bases no packet starts before the end of one of an earlier pass, up to two roundings |
| LoopOffset.NeverGoesBackExactly | fftools/ffmpeg_demux.c:425-449 | in one time base the same without any rounding |
| LoopOffset.RepeatedInputNeverGoesBack | fftools/ffmpeg_demux.c:198-223 | reading the same packets on every pass never goes back |
| LoopOffset.SeenBelowMax | fftools/ffmpeg_demux.c:425-449 | the greatest timestamp is not before any packet end or reported end of earlier passes |
| LoopOffset.MaxSeen | fftools/ffmpeg_demux.c:425-449 | and it is one of them |
| LoopOffset.RewindUnknown | fftools/ffmpeg_demux.c:213-217 | while no timestamp is known the offset stays |
| LoopOffset.GoesBackIff | fftools/ffmpeg_demux.c:198-223 | in one time base a run goes back if and only if some packet is read below the least timestamp so far, or below zero while there is none |
| LoopOffset.UntimedFirstPassGoesBack | fftools/ffmpeg_demux.c:213-217 | a run whose first pass reads no timestamps goes back |
| AudioTimeBase.LcmIsLeast | fftools/ffmpeg_dec.c:217-227 | the time base made from the rates is the coarsest one that holds both |
| AudioTimeBase.Decoder.SamplerateUpdate | fftools/ffmpeg_dec.c:205-246 | the choice of the time base and the conversion of what is kept in it |
| AudioTimeBase.Decoder.TsProcess | fftools/ffmpeg_dec.c:248-283 | one audio frame: predicted or converted timestamp, and the result counted in samples |
| AudioTimeBase.OverflowsIff | fftools/ffmpeg_dec.c:219 | the fallback is taken if and only if the exact denominator is within one sample rate of the limit |
| AudioTimeBase.FitsButGivenUp | fftools/ffmpeg_dec.c:219 | two rates whose exact denominator fits and is still given up |
| AudioTimeBase.UpdateExact | fftools/ffmpeg_dec.c:214-242 | without the fallback a change of rate moves neither the last timestamp nor the estimated duration |
| AudioTimeBase.EveryRateDivides | fftools/ffmpeg_dec.c:205-246 | over every run without the fallback, every sample rate seen divides the running denominator |
| AudioTimeBase.UntimedNeverDrifts | fftools/ffmpeg_dec.c:248-277 | over every such run of frames without timestamps, the next frame is due exactly the total length later |
| AudioTimeBase.UntimedOutput | fftools/ffmpeg_dec.c:279-282 | such a frame is handed on at the nearest sample to the time it is due |
| AudioTimeBase.TimedClose | fftools/ffmpeg_dec.c:261-275 | a frame with a timestamp stays within half a tick of its time base and a tick of the running one |
| AudioTimeBase.GapIff | fftools/ffmpeg_dec.c:264-269 | the test for a gap holds exactly if the frame starts at least a tick of its time base after the point where the last one ended |
| AudioTimeBase.TimedPlaced | fftools/ffmpeg_dec.c:261-275 | where a frame with a timestamp is placed: by its timestamp alone behind a gap or in a fine time base, at the counted position while that is plausible |
| AudioTimeBase.FirstFrame | fftools/ffmpeg_dec.c:186-282 | the first frame counts in its samples or its own finer time base, at its timestamp or at zero |
| AudioTimeBase.FrameBaseHeld | fftools/ffmpeg_dec.c:229-233 | the time base of a frame is kept if the rates allow it |
| AudioTimeBase.OutputNearest | fftools/ffmpeg_dec.c:279-282 | every frame is handed on at the sample nearest to where it was placed |
| AudioTimeBase.CommonNeverOverflows | fftools/ffmpeg_dec.c:219-233 | when every rate, and every time base of a frame that could be kept, divides 28224000, the fallback is never needed |
| AudioTimeBase.KeptBaseNeedsFallback | fftools/ffmpeg_dec.c:229-233 | two rates that divide 28224000 and a kept time base that does not, for which the fallback is taken |
| AudioTimeBase.ChangeExactIff | fftools/ffmpeg_dec.c:217-239 | a change of rate keeps all timestamps if and only if the fallback is not taken, or the old denominator divides the one taken instead |

## Left out

* Codec, filter, format, hardware and threading calls, packet and frame contents, reference
  counts and side data; allocation failures. Their answers are parameters where they matter
  (`World`, `replies`, `accepts`, `seekOk`).
* The inside of the thread queue: blocking, wake-ups, and the reading side. Its send, finish and
  choke flags are modelled. The sync queue between decoders and encoders (`send_to_enc_sq`) is
  not part of this model.
* Shutdown: `sch_stop` changes waiters without the schedule lock, so the claims about waiters end
  with a stop request. Whether waiting threads wake up in time is not modelled.
* Setup.SchedulerSetup.StartPrepare: queue and flag allocation is not modelled. A search that never
  returns is an answer of its own here; the model finds out by counting the steps of a climb.
* Edges.Sender.SendToDst: an end counts as passed on when it is handed to the receiver. A full
  pre-mux FIFO refuses an end mark like a packet and the sender ignores that, as in the code
  (`QueuePacket` shows the refusal; `MuxRace` allows it).
* Edges.Sender.Done: returns no status. The merged error code is not modelled, because sending
  the end never yields one.
* MuxRace.NeverStuck: a send that waits because the muxer's queue is full is not modelled.
* MuxRace.ExactlyOnceInOrder: which head the starter flushes is left open, so that the claim does
  not depend on the merge order; `FlushAll` fixes it. A receiver that finishes a stream is a single
  move. The bytes and packet limits appear as a free choice between room and no room.
* The two pre-mux limits as a promise to the user: `fftools/ffmpeg_mux_init.c:1536-1537` passes
  them in the opposite order of `fftools/ffmpeg_sched.c:1215-1216`, and the flush does not reduce
  the number of bytes counted.
* The muxer's heartbeat to subtitle decoders, a second producer on a decoder queue that ignores
  send results; the control stream of filtergraphs.
* LoopOffset.GoesBackIff: decoders that have been given no timestamp are taken to report ends that are
  not negative (`fftools/ffmpeg_dec.c:258` counts from zero), and packets share one time base;
  `NeverGoesBack` covers different ones with its rounding.
* MuxStartup.Startup.Start: the tasks of encoders, filtergraphs, decoders and demuxers started
  after the muxers are not modelled.
* RateControl.Scheduler.StreamReached: takes the end of the packet in microseconds; the conversion
  before it is `Timestamps.Rescale`. Subtracting two timestamps is assumed not to overflow 64 bits.
* RateControl.Scheduler.FinishDecQueue: one call is one atomic step next to the schedule lock.
* Timestamps.ComparisonsAgree: the same limit applies to the rounded comparison.
* Timestamps.RescaleNearError: does not model the 64-bit overflow answer of the conversion, which
  is outside the range of representable timestamps.
* VideoSync.DriftBounded: doubles and single-precision rounding are reals here, and the adjustment
  of a timestamp to the encoder time base is taken as given (`ipts`). Frame flags, the duration
  written into output frames and the repetition warning are not modelled.
* VideoSync.FramesAccounted: a consumer that refuses an output frame is outside the balance.
* VideoSync.TimestampsIncrease: passthrough and drop modes follow the input and promise nothing.
* LoopOffset.Demuxer.TsFixup: starts after wrap-around correction, time offset and scale, and ends
  before discontinuity detection.
* AudioTimeBase.Decoder.SamplerateUpdate: takes the value of the greatest common divisor; the binary
  algorithm that computes it (`libavutil/mathematics.c:37-56`) is not modelled.
* MuxFixup.MuxStream.FixupTs: log messages and their levels are not modelled.
* Wall-clock rate limiting, finished-stream counting with bitstream filters, option tables, stream
  mapping, metadata and terminal code.
