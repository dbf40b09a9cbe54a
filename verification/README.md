# Verified model of the GRAMS ToF flight software

A Dafny model of the parts of the ToF flight software and of its PETsys layer whose guarantees span many calls,
threads or inputs, with proofs of those guarantees. `dafny verify dfyconfig.toml` checks all of it.

- **Ordered event pipeline** (`EventPipeline*.dfy`): the bounded job queue, its worker pool, and stages that
  re-serialise on a sequence number. Every lock acquisition is a step; signals, waits and spurious wakeups are
  explicit. Any number of workers, stages and jobs.
- **Command link** (`Crc.dfy`, `Codec.dfy`, `CodecWitness.dfy`, `CommandClient.dfy`,
  `Bytes.dfy`, `RegisterBytes.dfy`): the bitwise CRC, printing and parsing of
  packets, and the loop that cuts a TCP stream back into packets. The CRC is the one of section 2 of ITU-T
  Recommendation V.41, run least significant bit first.
- **Hit processing** (`EventBuffer.dfy`, `CoarseSorter.dfy`, `Newton.dfy`, `ProcessHit.dfy`, `HitLaws.dfy`,
  `HitPipeline.dfy`, `CoincidenceGrouper.dfy`, `Events.dfy`): the growable buffer, the coarse sort, calibration and
  filter with laws that say how each output answers to each input, the clamped Newton loop and the pruned pair search.
  Times are reals.
- **DAQ control** (`DaqLifecycle*.dfy`, `FrameRing.dfy`, `RingPositions.dfy`, `AsicCommands.dfy`,
  `AsicCache.dfy`, `AsicCacheWitness.dfy`): the start, stop and reset handlers racing with
  the DAQ thread, the acquisition that empties the shared ring of frames while the server fills it, and the
  configuration cache in front of the ASIC registers.
- **Bit and calibration arithmetic** (`BitArrays.dfy`, `AsicFields.dfy`, `AsicRegisters.dfy`, `BiasTable.dfy`): saturating
  conversions, Gray codes, the permuted bit fields of both ASIC subtypes, and the inversion of the bias table.

Steps of threads, network reads, replies of the hardware, frames and failures are chosen by the environment:
as labels of a step relation, as parameters, or as arbitrary values inside methods that stand for the outside.

Assumed of the callers, as in the program: one producer thread that submits jobs with sequence numbers 0, 1, 2, ...
(`FlightOps/external/rawdata/src/RawReader.cpp:300-398`), stages that are called only from jobs, jobs that end, one
dispatcher thread, one client that moves the read pointer of the ring, and frames that arrive with increasing IDs.

Where the code does something other than its comments or its plain intent, the model follows the code:

- `completeQueue` waits with `if` for each worker in turn (`ThreadPool.cpp:79-83`) and can return while a worker is still
  busy: `CompleteQueueCanReturnEarly`, with the exact condition in `AllIdleExactly`. The reader makes two calls, so
  fewer than four workers or jobs are safe from that, spurious wakeups apart; with them a single job is enough,
  `AllIdleInAllRunsExactly`. All work is done when the destructor returns.
- An acquisition of n frames takes n + 1 of them (`daqd.py:1175-1237`): `FrameRing.Acquire`.
- STOP_DAQ, RESET_DAQ and the destructor can wait for ever, because `run` clears the stop flag
  (`GRAMS_TOF_DAQManager.cpp:96`): `StopCanHang`, with the exact condition in `CommandHangsExactly`; once
  hung nothing moves, by `StuckExactlyWhenHung`.
- When the DAQ thread cannot be created START_DAQ and RESET_DAQ leave the DAQ marked as running without one
  (`GRAMS_TOF_CommandDispatch.cpp:31-32,92-93`): `SpawnLeavesRunning`.
- Destroying the dispatcher after the DAQ ended by itself terminates the program
  (`GRAMS_TOF_CommandDispatch.cpp:459-470`): `DestructorCanTerminate`, with the exact condition in
  `DestructorTerminatesExactly`.
- The energy flag 0x16 overlaps the TDC and QDC flags (`ProcessHit.cpp:143`), so the counters by cause overlap:
  `Accounting` says how, `CountersAddUpExactly` when they do not, and `CountersOverlap` is a hit for which they do.
- The length check of a read (`daqd.py:902-903`) lets a reply pass that is a byte short of 125 bits:
  `ShortRepliesAreNoticed` says for which registers the check is exact, and coherence is proved in spite of it.
- A change of the last payload byte and the first checksum byte of a packet can go unnoticed, because the checksum runs
  least significant bit first and is sent high byte first (`GRAMS_TOF_CommandCodec.cpp:31-39,152`): the exact condition
  is in `Codec.CorruptionRejected`. So can a change of the argument count, when an argument looks like the end of a
  packet: the same lemma, with `FooterFreeCorruptionRejected` for packets without such an argument.
- The TAC summary built by `getAsicsConfig` takes in channel 63 only (`daqd.py:947`): `LastChannelsSufficeExactly` says
  when that is enough and `SummaryCanBeIncomplete` that it need not be. A failed `setAsicsConfig` can leave the summary
  stale until a field changes or access is forced: `RetryKeepsStaleness` and `SummaryCanGoStale`.
  `Connection.SetAsicsConfig` says when it is complete after a normal return and when a failure leaves it as it was.

## Model

| member | source | states |
|---|---|---|
| EventPipelineInvariant.RunKeepsInv | FlightOps/external/base/include/OrderedEventHandler.h:30-55 | the invariant of pool, queue, gates and program counters holds along every run of every interleaving, spurious wakeups included |
| EventPipelineInvariant.SignalWakesTheNextWaiter | FlightOps/external/base/include/OrderedEventHandler.h:46-52 | whenever the next sequence number is still waiting, its condition variable is registered, so the signal that follows the increment wakes it |
| EventPipelineTheorems.StagesAreSequential | FlightOps/external/base/include/OrderedEventHandler.h:30-55 | refinement of the sequential loop: the calls of handleEvents at each stage are a prefix of Begin 0, End 0, Begin 1, End 1, ..., and no two workers are past the wait loop of one stage at once |
| EventPipelineTheorems.NoLostWakeup | FlightOps/external/base/include/OrderedEventHandler.h:36-51 | a worker blocked although its number has come up is one step of the lock holder away from being woken |
| EventPipelineTheorems.SignalledConditionIsLive | FlightOps/external/base/include/OrderedEventHandler.h:35-51 | the condition variable a signal follows belongs to another worker still in the wait loop of that stage with exactly that number |
| EventPipelineTheorems.SmallestJobHasItsTurn | FlightOps/external/base/include/OrderedEventHandler.h:36-48 | the smallest job in flight is never blocked by a later one: wherever it is, the stage expects its number |
| EventPipelineTheorems.NeverStuck | FlightOps/external/base/src/ThreadPool.cpp:55-113 | deadlock freedom: in every reachable state short of the end some thread can take a step that is not a spurious wakeup |
| EventPipelineTermination.RunsAreBounded | FlightOps/external/base/src/ThreadPool.cpp:35-113 | every run under every schedule is finite, with a bound from the initial state and the number of spurious wakeups |
| EventPipelineTermination.PoolAccounting | FlightOps/external/base/src/ThreadPool.cpp:55-110 | in every reachable state submitted jobs = done + in flight + queued as multisets, the queue holds the next jobs in submission order and respects its bound |
| EventPipelineDrain.QueueIsDrained | FlightOps/external/base/src/ThreadPool.cpp:72-85 | when the last completeQueue returns the queue is empty and every job has been taken |
| EventPipelineDrain.CallsHalveBusyWorkers | FlightOps/external/base/src/ThreadPool.cpp:72-85 | without spurious wakeups every call of completeQueue at least halves the number of workers that can still be busy |
| EventPipelineBusyRun.CompleteQueueCanReturnEarly | FlightOps/external/base/src/ThreadPool.cpp:79-83 | with 2^n workers and jobs or more, any number of stages and any queue bound, some run without spurious wakeups leaves a worker busy when the last of n calls has returned |
| EventPipelineBusyRun.AllIdleExactly | FlightOps/external/base/src/ThreadPool.cpp:72-85 | when the last of n calls returns every worker is idle, in every run without spurious wakeups, if and only if there are fewer than 2^n workers or fewer than 2^n jobs |
| EventPipelineBusyRun.AllIdleInAllRunsExactly | FlightOps/external/base/src/ThreadPool.cpp:72-85 | over all runs, spurious wakeups included, every worker is idle when the last call returns if and only if there are no jobs, for any number of workers, stages and calls |
| EventPipelineBusyRun.OneCallExactly | FlightOps/external/base/src/ThreadPool.cpp:72-85 | one call is enough if and only if there is one worker or at most one job |
| EventPipelineTermination.FinishedDidEverything | FlightOps/external/base/src/ThreadPool.cpp:35-53 | when the destructor returns every job has run exactly once and every stage has handled 0, 1, ..., n-1 in order |
| EventPipelineTermination.EveryScheduleFinishes | FlightOps/external/base/src/ThreadPool.cpp:35-113 | following any schedule until only spurious wakeups remain takes boundedly many steps and ends with the pool destroyed and all work done in order |
| Crc.ComputeCrc16 | FlightOps/src/GRAMS_TOF_CommandCodec.cpp:173-183 | the two nested loops compute the register function that the theorems below are about |
| Crc.CrcIsTheRemainder | FlightOps/src/GRAMS_TOF_CommandCodec.cpp:173-183 | the checksum, bit-reflected, is the one and only remainder of M(x) x^16 modulo x^16 + x^12 + x^5 + 1 over GF(2) |
| Crc.CrcLinear | FlightOps/src/GRAMS_TOF_CommandCodec.cpp:173-183 | on messages of equal length the checksum is XOR-linear |
| Crc.BurstDetected | FlightOps/src/GRAMS_TOF_CommandCodec.cpp:173-183 | any change confined to 16 consecutive bits of a message of any length changes the checksum |
| Crc.TwoBytesDetected | FlightOps/src/GRAMS_TOF_CommandCodec.cpp:173-183 | any change confined to one byte or two adjacent bytes changes the checksum |
| Crc.OddErrorsDetected | FlightOps/src/GRAMS_TOF_CommandCodec.cpp:173-183 | any change of an odd number of bits changes the checksum |
| Bytes.ToBitsInjective | FlightOps/src/GRAMS_TOF_CommandCodec.cpp:173-177 | different bytes enter the checksum as different bit patterns |
| Codec.Write16Read16 | FlightOps/src/GRAMS_TOF_CommandCodec.cpp:9-39 | a 16-bit field is read back as it was written |
| Codec.Write32Read32 | FlightOps/src/GRAMS_TOF_CommandCodec.cpp:17-53 | a 32-bit field is read back as it was written, negative numbers included |
| Codec.Serialize | FlightOps/src/GRAMS_TOF_CommandCodec.cpp:129-158 | the printing loop produces the frame of the packet, with the computed or the forced checksum |
| Codec.Parse | FlightOps/src/GRAMS_TOF_CommandCodec.cpp:55-126 | the parser decides acceptance and result as the decoding function that the round trips are about |
| Codec.DecodeEncode | FlightOps/src/GRAMS_TOF_CommandCodec.cpp:55-158 | parsing a printed packet followed by any bytes gives the packet back, exactly when it has at most 32 arguments and no wrong checksum was forced on it |
| Codec.EncodeDecode | FlightOps/src/GRAMS_TOF_CommandCodec.cpp:55-191 | accepted input begins with exactly the bytes that printing the result gives, as many as getPacketSize says |
| Codec.PrefixFree | FlightOps/src/GRAMS_TOF_CommandCodec.cpp:129-158 | no packet is the beginning of another, nor of another followed by more bytes |
| Codec.CorruptionRejected | FlightOps/src/GRAMS_TOF_CommandCodec.cpp:61-113 | one byte or two adjacent bytes changed at any place: the packet is accepted if and only if either the argument count may be among them and it ends early, that is, the new count is smaller and at that argument stand the checksum of what comes before and the footer, or they are the last payload byte and the first checksum byte and the first change, run through the checksum, is the second one in the high byte |
| Codec.ByteCorruptionRejected | FlightOps/src/GRAMS_TOF_CommandCodec.cpp:61-113 | a change of a single byte of payload, checksum or footer is accepted if and only if it is the low byte of the count and the packet ends early |
| Codec.FooterFreeCorruptionRejected | FlightOps/src/GRAMS_TOF_CommandCodec.cpp:61-113 | a packet without an argument whose low half is 0xC5A4 never ends early: every change is rejected but the one of the last payload byte and the first checksum byte that makes up for itself |
| CodecWitness.StraddlingChangeAccepted | FlightOps/src/GRAMS_TOF_CommandCodec.cpp:99-106 | the exception exists: code 0x1234 with arguments 7 and -9, last payload byte changed by 0x91 and first checksum byte by 0x85, is accepted as arguments 7 and -154 |
| CodecWitness.CountChangeAccepted | FlightOps/src/GRAMS_TOF_CommandCodec.cpp:61-113 | a packet that can end early exists: code 0x1234 with arguments 0x131CC5A4 and -0x2D870000, its count changed from 2 to 0, is accepted as a packet without arguments |
| RegisterBytes.SpellingIsUnique | FlightOps/src/GRAMS_TOF_CommandCodec.cpp:31-39 | the two bytes in which the checksum is sent, high byte first, are the only ones with the bits of the register |
| Crc.LastByteChange | FlightOps/src/GRAMS_TOF_CommandCodec.cpp:173-183 | a change of the last byte changes the checksum as that change by itself would |
| CommandClient.Client.RecvData | FlightOps/src/GRAMS_TOF_Client.cpp:61-85 | delivered bytes followed by the read buffer are the received bytes; the FIFO neither loses, repeats nor reorders, and is empty whenever less than asked for is returned |
| CommandClient.CommandClient.ProcessBuffer | FlightOps/src/GRAMS_TOF_CommandClient.cpp:189-247 | the inner loop handles exactly the packets of the pure framer, keeps its rest, and closes when it does |
| CommandClient.CommandClient.HandleEvent | FlightOps/src/GRAMS_TOF_CommandClient.cpp:177-260 | one readable event delivers one chunk to the framer; a lost connection clears the buffer and keeps what was handled; each handled packet was acknowledged with its code and size |
| CommandClient.CommandClient.ReadEvents | FlightOps/src/GRAMS_TOF_CommandClient.cpp:154-261 | the read loop of one connection, for any sequence of events: handled are the packets of the framer on all the data up to the loss of the connection, and it stays open exactly when nothing was lost and no frame was bad |
| CommandClient.CommandClient.Run | FlightOps/src/GRAMS_TOF_CommandClient.cpp:75-265 | connection after connection each stream is framed by itself: no byte of one reaches the next, and the packets of all of them are handled once and in order |
| CommandClient.FramesAppend | FlightOps/src/GRAMS_TOF_CommandClient.cpp:186-247 | more bytes never change what was framed before |
| CommandClient.FragmentationIndependent | FlightOps/src/GRAMS_TOF_CommandClient.cpp:186-247 | for every cut of the stream into chunks the packets handled, up to the first bad frame, are those of the framer on the whole stream |
| CommandClient.SentIsHandled | FlightOps/src/GRAMS_TOF_CommandClient.cpp:186-247 | the packets a peer prints are the packets handled, each once and in order, however the network cuts up their bytes |
| CommandClient.FramesAreExact | FlightOps/src/GRAMS_TOF_CommandClient.cpp:189-247 | any stream begins with the bytes of the packets handled, and what follows them either needs more bytes, and is kept, or has a count above 32, fails to parse or cannot be acknowledged, and is given up |
| CommandClient.AckTellsCodeAndSize | FlightOps/src/GRAMS_TOF_CommandClient.cpp:221-226 | an acknowledgement parses as a packet with the code of the packet it is for and one argument, the number of bytes that one took |
| EventBuffers.EventBuffer.GetWriteSlot | FlightOps/external/base/include/EventBuffer.h:89-97 | the slot behind the last element always lies inside the capacity, and growing keeps the contents |
| EventBuffers.EventBuffer.Push | FlightOps/external/base/include/EventBuffer.h:103-106 | the contents become the old contents followed by the element |
| EventBuffers.EventBuffer.Reserve | FlightOps/external/base/include/EventBuffer.h:80-87 | reserving keeps the contents and never shrinks |
| EventBuffers.GrowthIsLinear | FlightOps/external/base/include/EventBuffer.h:54-106 | over any run of pushes the elements moved by reallocations are at most ten times the capacity gained and at most eleven times the number of pushes |
| CoarseSorter.SortedByTime | FlightOps/external/base/src/CoarseSorter.cpp:29-51 | following the pointers of the sorted entries gives a time-sorted permutation of the hits, whatever the sort does with equal times |
| CoarseSorter.HandleEvents | FlightOps/external/base/src/CoarseSorter.cpp:23-58 | the output buffer is a time-sorted permutation of the input, written inside the allocated capacity; the input is unchanged |
| Newton.Solve | FlightOps/external/base/src/ProcessHit.cpp:93-132 | the do-while loop stops at the first short step or after 100 steps, at exactly that iterate |
| Newton.SolutionIsBounded | FlightOps/external/base/src/ProcessHit.cpp:99-132 | for every curve the solver stops within 100 iterations no further than 10 per iteration, 1000 in all, from where it began; when it stops early the last point is a root up to 0.05 times the slope and the solution one up to the second order of a step of at most 0.05 |
| Newton.SlopeIsTheDerivative | FlightOps/external/base/src/ProcessHit.cpp:103-122 | the second polynomial is the derivative of the first: the difference is exact up to the square of the step |
| Newton.CurveIsThePolynomial | FlightOps/external/base/src/ProcessHit.cpp:103-112 | the function solved is the polynomial with all its coefficients, p0 included, evaluated by nested multiplication, less the ADC value |
| Newton.StraightCurveIsSolved | FlightOps/external/base/src/ProcessHit.cpp:99-132 | for p0 + p1 * t the solution is (efine - p0) / p1 if that is at most 1000 clocks away, and otherwise the point 1000 clocks nearer to it |
| Newton.BoundsAreReached | FlightOps/external/base/src/ProcessHit.cpp:99-132 | the bounds are reached, upwards and downwards: with nothing but p0 the solver makes 100 full steps towards the side of the ADC value |
| ProcessHit.ProcessOne | FlightOps/external/base/src/ProcessHit.cpp:42-162 | one hit: its calibrated values, and which flag bits are set for which causes, trigger hits included |
| HitLaws.TriggerHits | FlightOps/external/base/src/ProcessHit.cpp:48-57 | a trigger hit has the same time and end, a quarter of a clock per fine code above 27 below the coarse time, and an energy of 1 exactly for efine 28, else -1 |
| HitLaws.CoarseTimesShift | FlightOps/external/base/src/ProcessHit.cpp:48-81 | moving both coarse times by k moves both times by k and leaves the energy |
| HitLaws.StartCalibrationShifts | FlightOps/external/base/src/ProcessHit.cpp:69-83 | raising t0 of tac_T by d lowers the time by d, leaves the end and raises a time over threshold by d |
| HitLaws.EndCalibrationShifts | FlightOps/external/base/src/ProcessHit.cpp:78-84 | raising t0 of tac_E by d lowers the end and the time over threshold by d and leaves the time |
| HitLaws.TimeOffsetShifts | FlightOps/external/base/src/ProcessHit.cpp:72-73 | the channel offset is taken off the time in units of the clock period |
| HitLaws.FineCodesEnter | FlightOps/external/base/src/ProcessHit.cpp:69-83 | tfine enters the time through the ramp of tac_T only, efine the end through that of tac_E only |
| HitLaws.CoarseTimes | FlightOps/external/base/src/ProcessHit.cpp:68-90 | without TDC calibration time and end are the coarse ones, and for charge measurements the end always is |
| HitLaws.FineTimeSolvesTheRamp | FlightOps/external/base/src/ProcessHit.cpp:70-71 | the fine time solves a0 + a1 q + a2 q^2 = fine code, and it is the root at which the ramp does not fall |
| HitLaws.PlainEnergies | FlightOps/external/base/src/ProcessHit.cpp:84-90 | the energy is end minus time in time over threshold mode, and the ADC value in charge mode without calibration |
| HitLaws.StraightCharge | FlightOps/external/base/src/ProcessHit.cpp:92-143 | for a straight charge curve the energy is the energy curve, if in use, of (efine - p0) / p1 less the measured integration time |
| HitLaws.EnergyCurveIsLinear | FlightOps/external/base/src/ProcessHit.cpp:141 | how the energy curve depends on p0 and p3 |
| HitLaws.PlacesAreCopied | FlightOps/external/base/src/ProcessHit.cpp:150-163 | x, y, z, xi, yi and the region are those of the channel, each in its own place, and nothing else depends on them |
| HitLaws.NoPlace | FlightOps/external/base/src/ProcessHit.cpp:53-57 | trigger hits and hits without a map have region -1 and all else 0 |
| HitLaws.PassesExactly | FlightOps/external/base/src/ProcessHit.cpp:46-163 | no flag is set if and only if the hit is valid and is one of the trigger or has every calibration that is in use for it |
| HitLaws.SingleCauses | FlightOps/external/base/src/ProcessHit.cpp:46-163 | the bits that an invalid hit and each single missing calibration set |
| ProcessHit.OutputIsTheCleanSubsequence | FlightOps/external/base/src/ProcessHit.cpp:41-176 | the output is exactly the subsequence of hits without a flag, in order, each processed |
| ProcessHit.Accounting | FlightOps/external/base/src/ProcessHit.cpp:164-175 | sent plus flagged is received; the TDC and QDC counters are each at most the energy counter and together at least it; invalid, energy and position counters cover everything dropped |
| ProcessHit.CountersAddUpExactly | FlightOps/external/base/src/ProcessHit.cpp:143-169 | the counters by cause never add up to less than the flagged hits, and to exactly them if and only if no hit misses a calibration and none is both invalid and without a position |
| ProcessHit.CorrectionsBoundDisorder | FlightOps/external/base/src/ProcessHit.cpp:48-75 | sorted hits whose corrections spread by no more than d leave at most d out of order |
| ProcessHit.DisorderIsReached | FlightOps/external/base/src/ProcessHit.cpp:48-75 | the spread is attained by two hits of equal coarse time |
| ProcessHit.HandleEvents | FlightOps/external/base/src/ProcessHit.cpp:17-187 | the buffer loop produces the filtered hits and the counters, and from sorted hits with corrections within ten clocks an output with disorder at most MAX_UNORDER |
| HitPipeline.SortAndProcess | FlightOps/external/scripts_c/src/convert_raw_to_singles_impl.cpp:376-382 | sorter and hit processor in a row: the clean subsequence of a sorted permutation, with disorder at most MAX_UNORDER for corrections within ten clocks, whatever the order of the input |
| CoincidenceGrouper.HandleEvents | FlightOps/external/base/src/CoincidenceGrouper.cpp:24-55 | the double loop with early exit; at most MAX_UNORDER of disorder makes the output complete: exactly the pairs with allowed regions whose times differ by at most the window, earlier or later, each once, in lexicographic order, the larger region first |
| CoincidenceGrouper.LosslessExactly | FlightOps/external/base/src/CoincidenceGrouper.cpp:32-52 | the pruned search equals the complete one if and only if no row leaves a matching photon behind the one at which it ends |
| CoincidenceGrouper.PruningIsLossless | FlightOps/external/base/src/CoincidenceGrouper.cpp:32-52 | photons at most MAX_UNORDER out of order lose no coincidence |
| CoincidenceGrouper.BoundIsTight | FlightOps/external/base/include/Event.h:10-11 | for every larger disorder and every window some input loses one |
| CoincidenceGrouper.CompleteMeansTogether | FlightOps/external/base/src/CoincidenceGrouper.cpp:38-46 | a complete result pairs two photons if and only if the map allows their regions and the times differ by at most the window, either of them being the later; the larger region is in front |
| CoincidenceGrouper.OrderDoesNotMatter | FlightOps/external/base/src/SystemConfig.cpp:477-478 | for a map that holds in both orders, two photons are paired in one arrangement of the buffer if and only if they are in any other |
| DaqLifecycle.RunKeepsInv | FlightOps/src/GRAMS_TOF_CommandDispatch.cpp:13-101 | the invariant on mutex, handle, running flag and threads holds along every run of dispatcher, DAQ threads, signals and failures |
| DaqLifecycleTheorems.OneLiveThread | FlightOps/src/GRAMS_TOF_CommandDispatch.cpp:20-101 | at most one DAQ thread is alive, it is the one behind the handle, and no handler overwrites a joinable thread |
| DaqLifecycleTheorems.InitializesAlone | FlightOps/src/GRAMS_TOF_CommandDispatch.cpp:25-88 | the DAQ manager is cleaned up and initialized only while no DAQ thread is alive |
| DaqLifecycleTheorems.StartJoinsWithoutDeadlock | FlightOps/src/GRAMS_TOF_CommandDispatch.cpp:16-23 | when START joins while holding the mutex the thread is past its critical section, and its next step at the latest lets the join return |
| DaqLifecycleTheorems.StuckExactlyWhenHung | FlightOps/src/GRAMS_TOF_CommandDispatch.cpp:13-101 | in the middle of a command nothing can move if and only if STOP, RESET or the destructor joins a polling thread whose stop flag is cleared |
| DaqLifecycleTheorems.StopCanHang | FlightOps/src/GRAMS_TOF_DAQManager.cpp:93-104 | such a state is reachable: STOP before the thread has begun to run |
| DaqLifecycleTheorems.JoinIsSafeOnceRunning | FlightOps/src/GRAMS_TOF_CommandDispatch.cpp:52-56 | once the thread has passed the clearing of the flag, nothing that happens before the join returns can make it hang |
| DaqLifecycleTheorems.JoinHangsExactly | FlightOps/src/GRAMS_TOF_CommandDispatch.cpp:52-82 | a join of STOP, RESET or the destructor can still hang if and only if its thread has yet to clear the flag, or polls with the flag cleared |
| DaqLifecycleTheorems.CommandHangsExactly | FlightOps/src/GRAMS_TOF_CommandDispatch.cpp:52-82 | as a STOP, a RESET or the destructor begins: some run without a further command hangs if and only if the thread behind the handle has yet to clear the flag |
| DaqLifecycleTheorems.EveryCommandEndsOrHangs | FlightOps/src/GRAMS_TOF_CommandDispatch.cpp:13-101 | under every interleaving of dispatcher, threads, errors and signals a command is carried out within 53 steps besides the signals, or hangs in a join |
| DaqLifecycleTheorems.DestructorTerminatesExactly | FlightOps/src/GRAMS_TOF_CommandDispatch.cpp:459-470 | the destructor calls std::terminate if and only if it found the DAQ not running with a thread still joinable |
| DaqLifecycleTheorems.DestructorCanTerminate | FlightOps/src/GRAMS_TOF_CommandDispatch.cpp:459-487 | it does, after the DAQ thread ended by itself |
| DaqLifecycleTheorems.FailedInitializeLeavesNothing | FlightOps/src/GRAMS_TOF_CommandDispatch.cpp:25-28 | when initialize() fails in START or RESET no thread is created, none is alive and the DAQ is not running |
| DaqLifecycleTheorems.SpawnLeavesRunning | FlightOps/src/GRAMS_TOF_CommandDispatch.cpp:31-33 | a successful START or RESET leaves the DAQ running with a single new thread; if the thread cannot be created it leaves it running with none |
| DaqLifecycleTheorems.StopLeavesNothing | FlightOps/src/GRAMS_TOF_CommandDispatch.cpp:54-64 | a STOP that found the DAQ running leaves it not running and without a live thread |
| DaqLifecycleTheorems.RefusedCommandsChangeNothing | FlightOps/src/GRAMS_TOF_CommandDispatch.cpp:18-51 | a START while running and a STOP while not change nothing |
| DaqLifecycleTheorems.CommandsEndOnlySo | FlightOps/src/GRAMS_TOF_CommandDispatch.cpp:14-99 | START, STOP and RESET end in no other way than these |
| DaqLifecycleTheorems.RunningTellsTheThread | FlightOps/src/GRAMS_TOF_CommandDispatch.cpp:14-99 | between commands the flag is set if and only if the thread behind the handle has not passed its final critical section |
| FrameRing.PointersTellTheFill | FlightOps/external/petsys/daqd.py:1202-1204 | for 0 to bs frames the pointers modulo 2 bs give back their number, empty and full included |
| FrameRing.BlockFits | FlightOps/external/petsys/daqd.py:1202-1217 | a block is never more than is there, needed, or half the ring, is one of these three, and is non-empty exactly if the ring has two slots or more |
| FrameRing.FrameServer.BeginFrame | FlightOps/external/daqd/src/UDPFrameServer.cpp:100-160 | copying a frame into its slot leaves every frame not yet released intact, and is done unless the ring is full |
| FrameRing.FrameServer.EndFrame | FlightOps/external/daqd/src/UDPFrameServer.cpp:157-167 | a frame that is kept becomes the next one of the ring; a dropped one leaves the ring as it was |
| FrameRing.FrameServer.GetFrameID | FlightOps/external/petsys/daqd.py:1232-1233 | the ID of an unreleased frame is read unharmed however much the server does before and after |
| FrameRing.WriteBlock | FlightOps/external/rawdata/tools/write_raw.cpp:175-295 | the writer visits exactly the frames of the block while the server goes on, and returns the block's end |
| FrameRing.TakeBlock | FlightOps/external/petsys/daqd.py:1197-1235 | a round takes half the ring, or all that is needed, or at least all that was there when it began, none that is not there, and ends with the ID of the last one |
| FrameRing.Acquire | FlightOps/external/petsys/daqd.py:1149-1264 | the frames written are those from the first one of the step on, without gaps; that one came after all that was in the ring at the call; at most one more than required are taken, and with consecutive IDs exactly startFrame to stopFrame; it is done unless acquiring was switched off |
| AsicCommands.Hardware.TryCommand | FlightOps/external/petsys/daqd.py:854-918 | a write that returns was read back equal; a read returns at least the whole bytes of the register; other registers are untouched; a value of the wrong length is refused before anything is sent; each status other than 0 raises its own error, and any other error comes from a fault of the hardware |
| AsicCommands.Hardware.DoAsicCommand | FlightOps/external/petsys/daqd.py:844-851 | the same over up to five attempts: five faults and no less for a configuration error, fewer attempts only for a timeout or a refused value |
| AsicCommands.ShortRepliesAreNoticed | FlightOps/external/petsys/daqd.py:901-909 | replies too short for the register are all refused if and only if it fills whole bytes; for a channel register 120 bits are accepted |
| AsicCache.Connection.Build | FlightOps/external/petsys/daqd.py:925-948 | builds the cache from the hardware: all entries agree with it, also when it fails half-way, and the TAC summary is that of channel 63 of each ASIC |
| AsicCache.Connection.GetAsicsConfig | FlightOps/external/petsys/daqd.py:924-950 | the caller gets fresh copies, none of them an object of the cache; without a build nothing changes |
| AsicCache.Connection.SetRegister | FlightOps/external/petsys/daqd.py:964-982 | one register is written, cached as a fresh copy, or left alone because the cache has its value |
| AsicCache.Connection.SetActive | FlightOps/external/petsys/daqd.py:960-982 | the two loops: what is done carries the wanted values, the rest is as before, and the refresh mark is set exactly when a TAC field changed or access is forced |
| AsicCache.Connection.RebuildTac | FlightOps/external/petsys/daqd.py:984-994 | the summary becomes the exact set of settings of all channels of all active ASICs |
| AsicCache.Connection.SetAsicsConfig | FlightOps/external/petsys/daqd.py:955-998 | a normal return leaves hardware = cache = configuration on every active ASIC, if access was forced or cache and hardware agreed before; an error loses agreement at most at the register being written; with a cache present the TAC summary is complete after a normal return if and only if a field changed, access was forced on some ASIC, or it was complete before, and after an error, if no field was to change, if and only if it was before; no object of the caller enters the cache; every error has its cause: an ASIC missing from cache or configuration, a register of the wrong length, or a fault of the hardware |
| AsicCache.LastChannelsSufficeExactly | FlightOps/external/petsys/daqd.py:945-948 | the summary built from the last channels is the one of all channels if and only if every channel has settings that some last channel has |
| AsicCacheWitness.SummaryCanBeIncomplete | FlightOps/external/petsys/daqd.py:945-948 | it need not be: for each subtype, full registers of which channel 0 alone has a tac_max_age of 1 |
| AsicCache.RetryKeepsStaleness | FlightOps/external/petsys/daqd.py:968-984 | after a failed call and a successful second try that changes no field, the summary is complete if and only if it still was after the failure |
| AsicCacheWitness.SummaryCanGoStale | FlightOps/external/petsys/daqd.py:968-984 | it need not be: for each subtype, with full registers, a new tac_max_age of channel 0 is written, the write of a new dead_time to channel 1 fails, the second try has only that left and returns normally, and the summary lacks the new age |
| BitArrays.ValueOfDigits | FlightOps/external/petsys/bitarray_utils.py:6-28 | the digits of a number that fits have that number as their value |
| BitArrays.DigitsOfValue | FlightOps/external/petsys/bitarray_utils.py:6-28 | the value of n bits is below 2^n and its n digits are those bits |
| BitArrays.ValueIsLexicographic | FlightOps/external/petsys/bitarray_utils.py:21-28 | of two bit arrays of one length the one with a 1 at the leftmost difference has the larger value |
| BitArrays.SaturatedIsNearest | FlightOps/external/petsys/bitarray_utils.py:8-12 | the saturated number is the one number of n digits that is nearest to the argument |
| BitArrays.IntToBin | FlightOps/external/petsys/bitarray_utils.py:6-19 | the n digits of the number nearest to the argument among those that n digits can write, in order or reversed |
| BitArrays.BinToInt | FlightOps/external/petsys/bitarray_utils.py:21-28 | the value of the bits; with reverse the argument itself is turned round |
| BitArrays.GrayToBin | FlightOps/external/petsys/bitarray_utils.py:30-35 | the running parity of a code of any length; the empty code is an IndexError |
| BitArrays.GrayToInt | FlightOps/external/petsys/bitarray_utils.py:37-38 | the value of the running parity |
| BitArrays.GrayIsParity | FlightOps/external/petsys/bitarray_utils.py:30-35 | bit i of the result is set if and only if an odd number of the bits 0 to i of the code are |
| BitArrays.GrayInverse | FlightOps/external/petsys/bitarray_utils.py:30-35 | decoding is a bijection on each length, inverted by the XOR of neighbours |
| BitArrays.GrayNeighbours | FlightOps/external/petsys/bitarray_utils.py:30-38 | codes of one length whose grayToInt differ by one differ in exactly one bit, and equal values come from equal codes |
| AsicFields.BitsAreOwned | FlightOps/external/petsys/tofpet2c.py:24-71 | every listed bit lies inside its register and belongs to its field, for both registers of both subtypes |
| AsicFields.BitsAreDistinct | FlightOps/external/petsys/tofpet2b.py:23-71 | no index list repeats a bit |
| AsicFields.OwnersAreUnique | FlightOps/external/petsys/tofpet2b.py:176-220 | no bit belongs to two fields |
| AsicFields.OwnedBitsAreListed | FlightOps/external/petsys/tofpet2c.py:182-226 | a bit that belongs to a field is in its index list |
| AsicFields.BitOrder | FlightOps/external/petsys/tofpet2b.py:23-71 | which bit is the most significant: the highest in the digital settings of the global register and in channel registers, the lowest in bias settings and the two gains; the other digits follow one by one |
| AsicFields.IrregularOrder | FlightOps/external/petsys/tofpet2c.py:182-226 | the bits of the fields that are listed singly, most significant first |
| AsicRegisters.PutThenGet | FlightOps/external/petsys/tofpet2b.py:129-142 | bits written to a field are read back, and every other bit is as before |
| AsicRegisters.FieldsAreIsolated | FlightOps/external/petsys/tofpet2b.py:129-142 | writing one field changes no other |
| AsicRegisters.FieldsDetermineRegister | FlightOps/external/petsys/tofpet2b.py:176-220 | two registers with equal fields and equal unused bits are equal |
| AsicRegisters.SetThenGet | FlightOps/external/petsys/tofpet2b.py:122-147 | after setValue a field holds, of all values it can hold, the one nearest to the request; all other fields and unused bits are unchanged |
| AsicRegisters.EveryRunOfWrites | FlightOps/external/petsys/tofpet2b.py:122-147 | after any sequence of writes every field holds the last value written to it and unused bits are as in the beginning |
| AsicRegisters.Register.KeysExactly | FlightOps/external/petsys/tofpet2c.py:24-71 | both subtypes accept the same keys but for adebug_buffer, which only the second has |
| AsicRegisters.Register.SetBits | FlightOps/external/petsys/tofpet2b.py:268-272 | the loop over the index list writes the field, digit a to the listed bit a counted from the end of the register, or refuses an unknown key or a value of the wrong length and changes nothing |
| AsicRegisters.Register.GetBits | FlightOps/external/petsys/tofpet2b.py:276-281 | the loop over the index list reads the field into a fresh array, digit a from the listed bit a counted from the end |
| AsicRegisters.Register.SetValue | FlightOps/external/petsys/tofpet2c.py:267-272 | setValue on the register object, for every key and every integer: the field holds the nearest value it can hold |
| AsicRegisters.Register.GetValue | FlightOps/external/petsys/tofpet2c.py:282-292 | getValue on the register object |
| BiasTable.Config.MapBiasChannelVoltageToDAC | FlightOps/external/petsys/config.py:240-253 | the scan picks the first segment that reaches the voltage or the last one; each error is raised exactly for its cause; in all other cases, whatever the table, the result is the rounded inverse of that segment |
| BiasTable.MappedIsMonotone | FlightOps/external/petsys/config.py:240-253 | a higher voltage never gets a lower setting, across all segments and both extrapolations |
| BiasTable.MappedAtKnots | FlightOps/external/petsys/config.py:244-253 | at every point of the table the result is its DAC setting |
| BiasTable.LineThroughKnots | FlightOps/external/petsys/config.py:244-252 | the line that is inverted goes through both of its points, whether it rises, falls or is level |
| BiasTable.RoundedIsWithinHalfAStep | FlightOps/external/petsys/config.py:249-253 | for every segment that can be inverted, rising or falling, its voltage at the result misses the request by at most half a DAC step |

## Left out

- Duplicate or skipped sequence numbers, several producers, and failures of thread creation in the pool: not what the callers do.
- CommandClient.CommandClient.Run: epoll, the waiting and failed attempts to connect are not modelled; each event carries what `recv` returned.
- The checksum variant with polynomial 0x1021 and the little-endian build option, which nothing uses.
- EventBuffers.EventBuffer.Reserve: `malloc` and `realloc` always succeed, and the 32-bit wrap of the constructor's rounding for more than 4 billion events is not modelled.
- CoarseSorter.HandleEvents: the library sort is an insertion sort here, of which only its contract is used; the parent buffer and its sequence number are not modelled.
- ProcessHit.HandleEvents: floating-point rounding, and NaN or infinity (a zero slope at a root, a ramp without quadratic term, a negative discriminant, a power of a negative number), are not modelled: square root and power are any functions, the root theorems assume a true square root; the counters are those of one call.
- CoincidenceGrouper.HandleEvents: photons carry their time and region only, and coincidences name them by position.
- The grouping of hits into photons: `SimpleGrouper` is not part of this model, so nothing connects the hits' disorder with the photons'.
- DaqLifecycle.RunKeepsInv: the time-outs inside polling are not modelled; that polling ends for other reasons is a step that may happen at any time.
- FrameRing.Acquire: polling an empty ring for ever is not a run of the model (any finite number of empty polls is), nor is another client that restarts the acquisition meanwhile; frame contents, the monitor process, lost-frame bookkeeping and the data file are left out.
- AsicCache.Connection.GetAsicsConfig: the record that groups the registers of one ASIC is not an object of its own, a configuration maps addresses to register objects; changes to the set of active ASICs are left out.
- AsicCommands.Hardware.SendCommand: framing, serial numbers and resending inside sendCommand are not modelled; replies to reads are taken to carry the bits of the register.
- AsicRegisters.Register.SetValue: the default values set by the constructors and the printing of fields are left out; fractional values are not modelled.
- BiasTable.Config.MapBiasChannelVoltageToDAC: real numbers instead of floating point.
- Sockets, signals, sleeps, logging, the Python and ROOT bindings, file formats and INI reading, SPI, I2C and power drivers: device behaviour, not logic of this code.
- `CommandServer`, `EventClient` and `EventServer`: they parse one read at a time and add nothing to the codec.
