# jscope verification model

A Dafny 4.11 model of the parts of jscope where correctness is subtle: the `.jscope`
capture file, edge detection and reference levels, the timing measurements, the
wake protocol between the acquisition thread and the main thread, and the trace
decimator. `dafny verify dfyconfig.toml` checks the whole project.

## What is modelled

* **The capture file.** `CaptureFormat` holds the byte layouts, `CaptureScan` says
  what any bytes mean to a reader, `Recording` is the writer as a state machine over
  every sequence of calls, worker turns and disk failures, `WholeRecordings` reads off the
  calls alone what it takes and leaves behind, and `CaptureWriter` and `CaptureReader` are
  the two classes. `CaptureRecovery` joins them: cutting the file
  anywhere recovers exactly the whole frames, the index a close leaves behind is the
  one a scan would rebuild, and every frame offered reads back plane for plane.
* **Edges and levels.** `EdgeDetector` is the hysteresis machine, shown to report as
  many crossings as any choice of samples could; `LevelFinder` is the histogram.
* **Measurements.** `Statistics`, `Median`, `PulseTiming`, `EdgeTiming` and
  `MeasurementEngine` are `measureAll`; `BusEdges` is the bus command's edge summary.
* **The wake protocol.** `WakeProtocol` interleaves the producer, the dispatcher and
  the main thread step by step; `ScopeDriver` is the object that takes those steps.
* **The decimator.** `TraceDecimator` is the min/max envelope and its vertical mapping.

`Arithmetic`, `Bytes` and `Sequences` hold the facts the rest is built on.

The classes and loops of the source are classes and loops here. Each method is proved
equal to a function of its inputs or of the old state, and the properties are proved
of those functions, for every input, run or reachable state.

## Modelling choices

* `double` and `float` are exact reals, a cast to an integer is a floor (the casts
  modelled act on values that are not negative), and the root mean square is modelled
  by its square. Sample counts are unbounded integers, which covers 16-bit ones.
* Integers written to a file keep their low-order bytes only, as the C++ casts do.
  Structures are laid out as on a little-endian 64-bit machine: a `JScopeFrameHeader`
  is 152 bytes, of which the container uses four fields. A plane is its bytes.
* A file is a byte sequence. A disk is a function telling how many bytes each stream
  operation accepts, so a statement for every disk covers every failure. A worker
  turn and the end of `close` are single steps, as the file lock makes them.
* `std::nth_element` is known by its postcondition only; statements about medians hold
  for every arrangement it permits. `NthElement` has a body that sorts, on which
  nothing else depends.
* A timestamp in the index is the 64 bits of its double; the reader is given a
  function from those bits to a real.
* JSON metadata is a byte string and a predicate saying which strings parse.
* The dispatcher is first-in first-out, the wake flag is sequentially consistent,
  there is one producer, it has finished before the driver is destroyed, and state
  changes are requested one at a time.
* A pop of the ready ring is one step. The ring is built for one popping thread
  (`src/scope/JScopeFrameQueue.h:16-20`), but `acquire` pops it from the producer too
  (`src/scope/JScopeFramePool.h:88-90`); that the two never meet inside the ring is assumed.

## Where the code and its own description differ

* The median is said not to move until half of the intervals are spurious
  (`src/measure/JMeasurementEngine.cpp:155-165`). That holds for an odd number of
  intervals. For an even number `gaps[mid - 1]` is any element not above `gaps[mid]`,
  so one short glitch among four can halve the period: `OneGlitchHalvesTheReportedPeriod`;
  `EvenIsRobustIff` gives the exact condition.
* Crossing times are said to be interpolated between the bracketing samples
  (`src/measure/JEdgeDetector.h:46-47`). A sample already past the level but inside the
  band is not on the far side, and the time then falls before it, possibly before the
  record: `CreepingSignalGoesBackInTime`; `InPlaceIffBracketed` gives the exact condition.
* The band is described as `hysteresis` volts either side (`src/measure/JEdgeDetector.h:46`);
  the code uses half of it on each side, and so does the model.
* A file with no footer is said to open with the frames it holds
  (`src/capture/JCaptureReader.h:19-24`). Sample data that ends like a footer leading to an
  index hides them: `LookalikeHidesFrames`, `LookalikeIsReachable`; `CrashRecovery` gives the
  exact condition.
* Recorded frames are said never to be dropped (`src/capture/JCaptureWriter.h:28-33`). After
  a failed write every later frame is, and the writer cannot be opened again, because
  `close` leaves the failed stream attached: `FullDiskDropsFrames` and `FailureIsFinal`;
  `NothingIsDroppedIff` gives the exact condition.
* Rise and fall times are said to run between the two ends of this edge, not the next
  one's (`src/measure/JMeasurementEngine.cpp:52-55` and `234-235`). The search starts at the
  sample the crossing's time is converted to, which is before the sample that accepts the
  crossing: the one just before it when the crossing is bracketed, any earlier one when
  it is not. An edge that leaves its near level after that start is given no time, or one
  that begins at an earlier disturbance: `CleanStepHasNoRiseTime`, `BumpIsTimedWithTheEdge`,
  `CreepingEdgeHasNoRiseTime`; `EdgeOfReportIsOwnIff` gives the exact condition.
* The index that search starts from is converted from the crossing's time
  (`src/measure/JMeasurementEngine.cpp:236-237`), which C++ leaves undefined a sample or more
  before the record, and for a sample interval of zero: `FirstCrossingBeforeTheRecord`;
  `StartIsDefinedIff` gives the exact condition. Where it is not defined the model allows
  any index; with an interval of zero nothing is timed whichever it is
  (`ZeroIntervalHasNoTiming`).
* The bus pairs each rise with the fall after it by a binary search
  (`src/app/JScopeBusCommands.cpp:626-632`). Falls that are not in order can break what
  `std::upper_bound` requires: `CreepingFallIsOutOfOrder`. `Summarise` says nothing of the high times
  then; when all crossings are bracketed they are the durations up to the very next
  crossing (`SummaryOfBracketedRecord`).
* A payload of 4 GiB or more is recorded with a length that is too short:
  `OversizedFrameIsCutShort`; `OversizedPayloadIsCutShort` gives the exact condition.
* The envelope is said not to backtrack on edges of either direction
  (`src/measure/JTraceDecimator.cpp:95-105`). The first column always starts at its top, so a
  rising trace can: `RisingRampStepsBack`; `RisingTraceMonotoneIff` gives the exact condition.

## Model

| member | source | states |
|---|---|---|
| Recording.RunKeepsInv | src/capture/JCaptureWriter.cpp:149-274 | After any calls and worker turns on any disk: accepted frames are the processed ones followed by the pending ones in call order, `framesWritten` is the index length, every entry is its record's offset and header fields, a working stream holds header, JSON and exactly the processed records, a failed one stops inside the first unindexed record, a closed one holds at most the index and footer after all records |
| Recording.ReachableFileIsAPrefix | src/capture/JCaptureWriter.cpp:190-274 | Whatever failed, the file is an initial part of what a clean close of the accepted frames would have written |
| Recording.GoodCloseLosesNothing | src/capture/JCaptureWriter.cpp:243-274 | A close whose stream still works leaves every accepted frame in the file and the index, in call order, followed by the index block and footer |
| Recording.AmpleDiskClosesWell | src/capture/JCaptureWriter.cpp:243-274 | A disk that accepts every operation whole always lets a working recording close without a failure |
| Recording.NothingIsDroppedIff | src/capture/JCaptureWriter.cpp:214-274 | A close indexes every accepted frame if and only if no write has failed and the disk takes both operations of every record still queued |
| Recording.FullDiskDropsFrames | src/capture/JCaptureWriter.cpp:149-274 | For every metadata and frame: on a disk that is full after the header the frame is accepted and dropped, and the writer, closed and opened again, stays closed |
| Recording.OneFrameIsWritten | src/capture/JCaptureWriter.cpp:149-240 | On a disk with room, a recording holds its first frame's record after one worker turn |
| Recording.FailureIsFinal | src/capture/JCaptureWriter.cpp:149-274 | Once a write has failed, no later call of any kind changes the file, the index, `framesWritten` or `bytesWritten`: no footer is written, and from the first close or open on the writer is closed and stays so |
| WholeRecordings.AcceptedIsWhatWasWritten | src/capture/JCaptureWriter.cpp:149-274 | On any disk a recording consists of exactly the frames of the `write` calls between an `open` that succeeds and the next `close` or `open`, in call order |
| WholeRecordings.OpenSucceedsIff | src/capture/JCaptureWriter.cpp:149-188 | `open` succeeds if and only if the path can be opened, no failed file is still attached and the disk takes header and metadata; otherwise the reason is reported |
| WholeRecordings.CallsDecideTheFile | src/capture/JCaptureWriter.cpp:149-274 | On a disk with room, after any calls the writer takes frames, holds them and leaves files exactly as the calls say, however worker turns fall between them |
| WholeRecordings.WholeRecording | src/capture/JCaptureWriter.cpp:149-274 | Whatever came before, `open`, writes with worker turns anywhere among them, and `close` leave the closed image of exactly the frames written and an index of them all |
| WholeRecordings.BacklogIsReportedOnce | src/capture/JCaptureWriter.cpp:209-213 | Writes the worker does not get to are reported when there are more than 256, and once |
| CaptureWriter.CaptureWriter.Open | src/capture/JCaptureWriter.cpp:149-188 | Closes the current recording, then either refuses or starts a file with header and JSON and all counters reset |
| CaptureWriter.CaptureWriter.Write | src/capture/JCaptureWriter.cpp:190-214 | Queues a copy of the frame for an open recording and reports a backlog once |
| CaptureWriter.CaptureWriter.CopyOf | src/capture/JCaptureWriter.cpp:195-205 | The buffer is the header followed by every plane in order |
| CaptureWriter.CaptureWriter.RunWorker | src/capture/JCaptureWriter.cpp:214-240 | One queued frame reaches the file as one record and is indexed only if both writes succeeded |
| CaptureWriter.CaptureWriter.Close | src/capture/JCaptureWriter.cpp:243-274 | Drains the queue before the index and footer are written, and writes neither on a failed stream |
| CaptureScan.ScanIsSound | src/capture/JCaptureReader.cpp:82-117 | On any bytes at all a scan yields only records that carry the frame magic and header size and lie wholly inside the file, with the header fields found there |
| CaptureScan.ScannedBytes | src/capture/JCaptureReader.cpp:90-116 | The same in bytes: magic, header size, header and payload at their positions, timestamp and start index from the header |
| CaptureScan.AlteredRecordEndsTheScan | src/capture/JCaptureReader.cpp:97-99 | Changing any byte of a record's magic or header size ends the scan before it |
| CaptureFormat.EmptyRecordingLayout | src/capture/JCaptureFormat.h:23-40 | The bytes of the file header without metadata and of an empty index |
| CaptureFormat.RecordLayout | src/capture/JCaptureFormat.h:42-58 | The bytes of a record's start, an index entry and a footer |
| CaptureFormat.FrameHeaderLayout | src/scope/JScopeFrameHeader.h:23-27 | The positions of the four header fields the container reads |
| CaptureScan.ScanIsInFileOrder | src/capture/JCaptureReader.cpp:82-117 | The records found are disjoint and in increasing order |
| CaptureScan.ScanOfTruncation | src/capture/JCaptureReader.cpp:86-116 | Cutting any file at any byte keeps exactly the leading records that still end inside the cut |
| CaptureScan.ScanFindsRecords | src/capture/JCaptureReader.cpp:95-115 | Records laid down by the writer are found one for one, with the offsets the writer would index |
| CaptureReader.CaptureReader.ScanForFrames | src/capture/JCaptureReader.cpp:82-117 | The stream walk terminates and rebuilds the chain of whole records from a position |
| CaptureReader.CaptureReader.ReadFooterIndex | src/capture/JCaptureReader.cpp:171-193 | The footer's index is taken exactly when magic, offset, count and all entries are there |
| CaptureReader.CaptureReader.Open | src/capture/JCaptureReader.cpp:123-207 | A file opens exactly when header and metadata are acceptable; its index comes from the footer when usable and from the scan otherwise |
| CaptureReader.FrameBuffer.StorePlane | src/scope/JScopeFrame.h:56-78 | Filling the start of one plane of the strided buffer leaves the rest of it and every other plane as they were |
| CaptureReader.CaptureReader.ReadFrame | src/capture/JCaptureReader.cpp:216-240 | Succeeds exactly when the record is wholly in the file, whatever the buffer's size, and returns its header and every plane |
| CaptureReader.CaptureReader.FrameAtTime | src/capture/JCaptureReader.cpp:242-248 | Over timestamps that do not decrease the binary search returns the last entry not after the time, or 0, which is what a linear walk from the end returns; a valid index over any |
| CaptureReader.CaptureReader.SeekIsMonotone | src/capture/JCaptureReader.cpp:242-248 | Seeking to a later time never lands on an earlier frame |
| CaptureRecovery.CrashRecovery | src/capture/JCaptureReader.cpp:166-200 | For every run and every prefix of the file: refused inside the metadata; otherwise opened as recovered with exactly the whole records in written order if and only if the last 24 bytes do not start with the footer magic or do not lead to an index magic, a count and that many whole entries; each whole record reads back as the frame given to `write`, and no cut one does |
| CaptureRecovery.FooterOnBytes | src/capture/JCaptureReader.cpp:170-194 | For any bytes, when their end leads to an index and which entries it holds, field by field |
| CaptureRecovery.CutFrameIsNotRead | src/capture/JCaptureReader.cpp:216-240 | A frame cut anywhere is not read even through its right offset |
| CaptureRecovery.AlteredHeaderIsRefused | src/capture/JCaptureReader.cpp:132-150 | Changing any one of the first 20 bytes of a file that opens makes it refused if and only if it is not one of bytes 8 to 11 |
| CaptureRecovery.BadMetadataIsRefused | src/capture/JCaptureReader.cpp:152-163 | Metadata that is cut or does not parse is refused |
| CaptureRecovery.AlteredRecordIsNotRead | src/capture/JCaptureReader.cpp:221-224 | Changing any byte of a record's magic makes its frame unreadable |
| CaptureRecovery.IndexAgreesWithFile | src/capture/JCaptureWriter.cpp:218-234 | At every reachable moment the index in memory equals what a scan of the file as it stands would rebuild |
| CaptureRecovery.FooterIndexRefinesScan | src/capture/JCaptureReader.cpp:170-194 | On a closed file the index read through the footer equals the scanned one and the file is not marked recovered |
| CaptureRecovery.CleanCloseOpens | src/capture/JCaptureReader.cpp:170-240 | A run closed without failure opens through its footer and every accepted frame reads back, header and planes |
| CaptureRecovery.OfferedFrameReadsBack | src/capture/JCaptureReader.cpp:216-240 | Each frame offered by a cut or closed file is the frame that was written |
| CaptureRecovery.OversizedPayloadIsCutShort | src/capture/JCaptureWriter.cpp:223-226 | The length field spans its record exactly when the payload is below 2^32 |
| CaptureRecovery.OversizedFrameIsCutShort | src/capture/JCaptureWriter.cpp:223-226 | One channel of 2^31 samples: the record claims to end where its samples begin |
| CaptureRecovery.LookalikeHidesFrames | src/capture/JCaptureReader.cpp:173-191 | For every metadata there is a one-frame interrupted recording that opens as closed and empty although a scan finds its frame |
| CaptureRecovery.LookalikeIsReachable | src/capture/JCaptureWriter.cpp:149-240 | Opening, writing that frame and one worker turn leave exactly that file, on any disk with room for it |
| EdgeDetector.FindCrossings | src/measure/JEdgeDetector.cpp:101-141 | The loop reports the crossings of the two-threshold machine, with their interpolated times and directions, and none without hysteresis |
| EdgeDetector.VoltsAreAffine | src/measure/JMeasurementEngine.cpp:27-29 | A count at the zero offset is zero volts and each further count one step more |
| EdgeDetector.GreedyIsLongest | src/measure/JEdgeDetector.cpp:117-138 | No alternating choice of samples beyond the thresholds, starting opposite the initial side, is longer than the machine's |
| EdgeDetector.CrossingsAreLongest | src/measure/JEdgeDetector.cpp:101-141 | The number reported is the length of a longest such choice, and the machine's own choice attains it |
| EdgeDetector.WiderBandCountsNoMore | src/measure/JEdgeDetector.cpp:114-115 | Widening the hysteresis at the same level never increases the count |
| EdgeDetector.FewerSamplesCountNoMore | src/measure/JEdgeDetector.cpp:119-139 | Deleting samples other than the first never increases the count |
| EdgeDetector.CrossingsAlternate | src/measure/JEdgeDetector.cpp:127-137 | Directions alternate and each tells which threshold the accepting sample cleared |
| EdgeDetector.AcceptedSamples | src/measure/JEdgeDetector.cpp:119-138 | The sample before an accepted one had not cleared that threshold |
| EdgeDetector.CrossingTimeBounds | src/measure/JEdgeDetector.cpp:128-135 | The denominator is never zero, the time is strictly before the accepting sample, and not before the previous one if and only if that one was on the near side of the level |
| EdgeDetector.InPlaceIffBracketed | src/measure/JEdgeDetector.cpp:128-135 | All times of a record lie in their sample pairs if and only if all crossings are bracketed |
| EdgeDetector.BracketedTimesIncrease | src/measure/JEdgeDetector.cpp:122-139 | With all crossings bracketed the times strictly increase |
| EdgeDetector.CreepingSignalGoesBackInTime | src/measure/JEdgeDetector.cpp:101-141 | From the samples -10, 10, -9, -10 the detector reports a rise at 0.5 and then a fall at -7 |
| LevelFinder.FindLevels | src/measure/JEdgeDetector.cpp:19-99 | The loops compute the extremes, the histogram, its two separated modes and the levels or the fallback |
| LevelFinder.BinsSumToCount | src/measure/JEdgeDetector.cpp:40-45 | The bins count every sample once |
| LevelFinder.BinCountIsPopulation | src/measure/JEdgeDetector.cpp:42-45 | A bin holds exactly the samples less than one bin width above its voltage |
| LevelFinder.LevelsAreReal | src/measure/JEdgeDetector.cpp:61-98 | There are a densest bin and a densest one 16 or more away from it; the levels are these two when they hold 5% of the samples together and the second one 2%, and the fallback to the extremes is taken exactly when they do not |
| LevelFinder.LevelsAreOrdered | src/measure/JEdgeDetector.cpp:85-98 | vMin <= base < top <= vMax and top - base is at least 16/127 of the range |
| LevelFinder.LevelsAreValidIff | src/measure/JEdgeDetector.cpp:19-36 | There are levels exactly when there are samples, and a flat record has its one voltage as both |
| LevelFinder.RestingAtTheExtremes | src/measure/JEdgeDetector.cpp:39-98 | A record at its lowest count, and at its highest, more often than at all counts between has its extremes as levels |
| Statistics.MeasureAmplitudes | src/measure/JMeasurementEngine.cpp:99-118 | One pass over the counts gives the minimum, maximum, mean and mean square of the volts |
| Statistics.AmplitudesAreConsistent | src/measure/JMeasurementEngine.cpp:110-118 | volMin <= avg <= volMax and avg^2 <= rms^2 <= max(volMin^2, volMax^2) |
| Median.OddIsMedian | src/measure/JMeasurementEngine.cpp:166-174 | An odd number of values gives the element of middle rank for every permitted arrangement |
| Median.OddIsRobust | src/measure/JMeasurementEngine.cpp:155-165 | An odd number stays inside every interval holding more than half of the values |
| Median.EvenRange | src/measure/JMeasurementEngine.cpp:171-173 | An even number gives a value from (least + upper median) / 2 to the upper median |
| Median.EvenIsRobustIff | src/measure/JMeasurementEngine.cpp:171-173 | For an even number, all permitted arrangements stay in an interval holding more than half of the values if and only if the mean of least and upper median does |
| Median.OneGlitchHalvesThePeriod | src/measure/JMeasurementEngine.cpp:155-165 | Gaps 1, 1000, 1000, 1000 can give 500.5 |
| Median.TakeMedian | src/measure/JMeasurementEngine.cpp:171-173 | Rearranges the values in place as the library may and computes the median from them |
| PulseTiming.MeasurePeriod | src/measure/JMeasurementEngine.cpp:176-190 | Period and frequency are those of a possible median interval of the rises, or of the falls, or are invalid |
| PulseTiming.PeriodIsPositive | src/measure/JMeasurementEngine.cpp:176-190 | A reported period is positive and the frequency its reciprocal; increasing times always have one |
| PulseTiming.PeriodNeedsThree | src/measure/JMeasurementEngine.cpp:142-190 | Increasing, alternating crossings have a period exactly when there are three of them, no longer than from the first to the last |
| PulseTiming.SteadyRisesHaveTheirPeriod | src/measure/JMeasurementEngine.cpp:166-190 | Evenly spaced rises are given their spacing as period |
| PulseTiming.DutyOfAQuarter | src/measure/JMeasurementEngine.cpp:197-221 | High for one part in four is a duty of 25 |
| PulseTiming.OneGlitchHalvesTheReportedPeriod | src/measure/JMeasurementEngine.cpp:155-190 | Rises at 0, 1, 1001, 2001 and 3001 can be reported with a period of 500.5 |
| PulseTiming.DutyIff | src/measure/JMeasurementEngine.cpp:192-221 | For such crossings a duty is reported exactly when there is a period and some rise is followed by the next crossing within it |
| PulseTiming.MeasureDuty | src/measure/JMeasurementEngine.cpp:197-221 | Duty is reported exactly when some rise has a high time, is strictly between 0 and 100, and is a possible median high time over the period |
| PulseTiming.RisePairsWithNext | src/measure/JMeasurementEngine.cpp:202-210 | On increasing alternating crossings the first later fall of a rise is the very next crossing |
| PulseTiming.HighAndLowTelescope | src/app/JScopeBusCommands.cpp:626-632 | High and low times add up to last minus first |
| PulseTiming.CountsDifferByOne | src/app/JScopeBusCommands.cpp:604-611 | Numbers of rises and falls differ by at most one, decided by the first and last direction |
| EdgeTiming.CrossTimeBefore | src/measure/JMeasurementEngine.cpp:56-69 | Finds the last crossing of the level at or before an index, or that there is none |
| EdgeTiming.CrossTimeAfter | src/measure/JMeasurementEngine.cpp:71-83 | Finds the first crossing at or after an index, or that there is none |
| EdgeTiming.AtTheLevel | src/measure/JMeasurementEngine.cpp:61-76 | A step from a sample exactly at the level leaves it and does not reach it, and a step to one the other way round |
| EdgeTiming.EdgeTimesAreInOrder | src/measure/JMeasurementEngine.cpp:238-246 | For any index the level left is crossed strictly before the one reached, both inside the record |
| EdgeTiming.EndsStraddleTheCrossing | src/measure/JMeasurementEngine.cpp:229-239 | Searched from the sample before a bracketed crossing, the two ends lie on either side of it |
| EdgeTiming.EndsAreOwnIff | src/measure/JMeasurementEngine.cpp:234-239 | The two ends found from an earlier sample are those of the edge itself if and only if on the way the near level is not left and the far level not reached |
| EdgeTiming.EdgeTimeIsOwnIff | src/measure/JMeasurementEngine.cpp:229-246 | Searched from any earlier sample, the far level not being reached on the way, the time is the own edge's if and only if the near level is not left on the way either; otherwise it is longer or missing |
| EdgeTiming.MeasureEdge | src/measure/JMeasurementEngine.cpp:229-246 | From any start and for any sample interval: a time is reported exactly when both crossings exist and the interval is positive, is their difference, and lies in (0, (count - 1) * dt] |
| MeasurementEngine.MeasureAll | src/measure/JMeasurementEngine.cpp:87-251 | The whole report for any window of any plane and any sample interval: of the samples from the window's first one on, amplitudes, levels, period, duty and edge times as specified; nothing when the window starts behind the record |
| MeasurementEngine.View | src/measure/JMeasurementEngine.cpp:36-46 | A window is the samples from its start, as many as asked for and there, or all that are left |
| MeasurementEngine.ReportOfBracketedRecord | src/measure/JMeasurementEngine.cpp:87-251 | From the samples to the report: when a record is not flat and its crossings are bracketed, times increase, there is a period exactly with three crossings and it is shorter than the record, a duty exactly when some rise is followed within a period, and rise and fall times span the first crossing of their direction |
| MeasurementEngine.SearchStartsBeforeCrossing | src/measure/JMeasurementEngine.cpp:236-237 | The search for the ends starts at the sample before the crossing if and only if the crossing is bracketed or in the first step |
| MeasurementEngine.StartIsDefinedIff | src/measure/JMeasurementEngine.cpp:236-237 | Converting a crossing time to an index is defined if and only if the interval is not zero and the line through the two samples reaches the level less than e steps before sample e - 1 |
| MeasurementEngine.BracketedEdgeReading | src/measure/JMeasurementEngine.cpp:229-246 | The reading for a bracketed first crossing is its own edge's time if and only if that step does not leave the near level |
| MeasurementEngine.EdgeOfReportIsOwnIff | src/measure/JMeasurementEngine.cpp:229-246 | For the first rise and first fall of any record that is not flat, bracketed or not: the search starts before the accepting sample; its ends are the own edge's if and only if up to that sample the near level is not left and the far level not reached; unless the start is before the crossing ahead of it, the time is the own edge's if and only if the near level is not left, and otherwise longer or missing |
| MeasurementEngine.CleanStepHasNoRiseTime | src/measure/JMeasurementEngine.cpp:234-242 | Samples 0, 0, 0, 10, 10, 10: an edge of 0.8 sample intervals is given no rise time |
| MeasurementEngine.BumpIsTimedWithTheEdge | src/measure/JMeasurementEngine.cpp:234-242 | Samples 0, 3, 0, 10, 10: the same edge is given more than 2.5 sample intervals |
| MeasurementEngine.CreepingEdgeHasNoRiseTime | src/measure/JMeasurementEngine.cpp:234-242 | Samples 0, 0, 0, 540, 551, 1000, 1000, 1000: the rise is timed 7/11 of a sample before the record and given no rise time, although both ends of the edge are there |
| MeasurementEngine.FirstCrossingBeforeTheRecord | src/measure/JMeasurementEngine.cpp:236-237 | With the engine's own levels and hysteresis a record of 11 samples has its first rise 48 samples before the record, where the conversion is not defined |
| MeasurementEngine.FlatRecordHasNoTiming | src/measure/JEdgeDetector.cpp:108-112 | A record with no amplitude reports its level and no period, frequency, duty or edges |
| MeasurementEngine.ZeroIntervalHasNoTiming | src/measure/JMeasurementEngine.cpp:148-246 | With a sample interval of zero no period, frequency, duty or edge time is reported |
| BusEdges.Summarise | src/app/JScopeBusCommands.cpp:604-638 | Rises, falls, intervals and the limited list of a time window and polarity, and the high times wherever the falls are as `std::upper_bound` requires |
| BusEdges.TimesAreExact | src/app/JScopeBusCommands.cpp:607-610 | The rises and the falls of a summary are exactly the crossings from `from` to `to`, both included, in order and relative to the reference time |
| BusEdges.MatchesAreExact | src/app/JScopeBusCommands.cpp:607-611 | The crossings eligible for the list are exactly those within the bounds and of the polarity asked for |
| BusEdges.ListedAreTheFirst | src/app/JScopeBusCommands.cpp:613-619 | The list holds the first of them up to the limit |
| BusEdges.UpperBound | src/app/JScopeBusCommands.cpp:629-632 | On times partitioned by the one sought the binary search finds what the linear search finds |
| Sequences.PartitionPoint | src/capture/JCaptureReader.cpp:244-246 | The binary search both callers use finds where a condition that stays true begins to hold |
| BusEdges.WindowIsWellFormed | src/app/JScopeBusCommands.cpp:607-611 | Any from/to window of increasing alternating crossings is increasing and alternating |
| BusEdges.SummaryIsConsistent | src/app/JScopeBusCommands.cpp:604-634 | In any window of increasing, alternating crossings the falls are in order, each rise is paired with the very next crossing, counts differ by at most one, high and low times span the window |
| BusEdges.SummaryOfBracketedRecord | src/app/JScopeBusCommands.cpp:598-634 | The same for the crossings detected in any record whose crossings are bracketed |
| BusEdges.CreepingFallIsOutOfOrder | src/app/JScopeBusCommands.cpp:626-632 | From the samples -10, 10, -10, 10, -9, -10 the second fall is timed before the first rise, and the falls are not partitioned by that rise |
| BusEdges.EngineAndBusAgree | src/app/JScopeBusCommands.cpp:626-632 | The engine's high times are the bus's, restricted to those shorter than a period |
| WakeProtocol.RunKeepsInv | src/scope/JScopeDriver.h:145-149 | Under every interleaving: outstanding wakes equal the flag, a non-empty ready ring has something under way, frames leave in published order, notifications are the requested changes |
| WakeProtocol.AtMostOneWake | src/scope/JScopeDriver.h:141-144 | At most one wake is queued at any moment, and the flag is set exactly while one is outstanding |
| WakeProtocol.SettlingDeliversEverything | src/scope/JScopeDriver.h:207-213 | With the producer at rest the main thread alone empties ring and queue, handing over every frame that was waiting in order |
| WakeProtocol.NoFrameIsForgotten | src/scope/JScopeDriver.h:145-149 | From every reachable state, finishing the publish under way and letting the main thread run delivers everything published and not dropped |
| WakeProtocol.PublishedFramesArrive | src/scope/JScopeDriver.h:145-149 | From every reachable state with the producer between frames, publishing as many as the ring has room for and letting the main thread run hands over those that waited and all of them, in order |
| WakeProtocol.HistoryIsTheActions | src/scope/JScopeFramePool.h:102-110 | In every run what counts as published is every frame published while there was room, what counts as requested every state set, and the ring never exceeds its capacity |
| WakeProtocol.TickTakesEverything | src/scope/JScopeSession.cpp:180-216 | The periodic drain takes everything that waits without a wake |
| WakeProtocol.DestructionSilences | src/scope/JScopeDriver.h:172-179 | After destruction nothing queued takes a frame, notifies a state or touches the driver |
| WakeProtocol.ChangesAreChanges | src/scope/JScopeDriver.h:192-198 | Listeners never see a state twice in a row and end with the latest |
| WakeProtocol.EveryChangeIsNotified | src/scope/JScopeDriver.h:192-198 | No change is skipped |
| ScopeDriver.ScopeDriver.PublishFrame | src/scope/JScopeDriver.h:145-149 | Publishing is the three steps in order, ring, exchange, post; the frame is in the ring if there was room, the invariant is kept, and the flag is set with exactly one wake on its way |
| ScopeDriver.ScopeDriver.ExchangeWakePending | src/scope/JScopeDriver.h:207-208 | Sets the flag and stops when it was set already, which is exactly when a wake is on its way |
| ScopeDriver.ScopeDriver.ChangeState | src/scope/JScopeDriver.h:192-198 | Stores the state, posts a notification only for a change, and keeps the invariant |
| ScopeDriver.ScopeDriver.RunNext | src/scope/JScopeDriver.h:172-179 | Runs the oldest callback, which does nothing once the driver is gone, and keeps the invariant |
| ScopeDriver.ScopeDriver.ReclaimOldest | src/scope/JScopeFramePool.h:88-96 | Takes the oldest published frame back when the pool is dry, and keeps the invariant |
| ScopeDriver.ScopeDriver.DrainOnTick | src/scope/JScopeSession.cpp:180-186 | The periodic drain starts without a wake and keeps the invariant |
| ScopeDriver.ScopeDriver.Release | src/scope/JScopeDriver.h:54 | Dropping the life token keeps the invariant, from which silence follows |
| ScopeDriver.ScopeDriver.RunMainThread | src/scope/JScopeSession.cpp:194-216 | Runs callbacks and drains until ring and queue are empty and everything published has been taken in order |
| TraceDecimator.Decimate | src/measure/JTraceDecimator.cpp:32-142 | Which path is taken, every vertex of it, and never more vertices than reserved |
| TraceDecimator.VerticesAreShownSamples | src/measure/JTraceDecimator.cpp:56-142 | Every vertex is drawn where the voltage of some sample on screen belongs |
| TraceDecimator.ShownSamplesAreDrawn | src/measure/JTraceDecimator.cpp:64-142 | Every sample the viewport asks for is a vertex or lies between the two vertices of one column |
| TraceDecimator.PanningIsDropping | src/measure/JTraceDecimator.cpp:64-66 | The samples before the first one on screen do not matter: the drawing is that of the rest |
| TraceDecimator.VerticesAcross | src/measure/JTraceDecimator.cpp:68-141 | Few samples are spread evenly from edge to edge, and an envelope has two vertices for each whole pixel column |
| TraceDecimator.RangeFillsTheScreen | src/measure/JTraceDecimator.cpp:37-46 | The ends of the vertical range are drawn at the top and bottom edges, swapped when inverted, and the offset in the middle |
| TraceDecimator.NoRangeIsTheMiddle | src/measure/JTraceDecimator.cpp:37-54 | Without a range everything is drawn half way down, and without a height nothing is read back |
| TraceDecimator.ColumnsPartition | src/measure/JTraceDecimator.cpp:109-113 | Column spans are not empty and partition the window, so neither fix-up of `hi` is needed |
| TraceDecimator.NoSampleIsHidden | src/measure/JTraceDecimator.cpp:115-140 | Every sample of the window is drawn between the two vertices of its column, and both vertices are samples of that column |
| TraceDecimator.ExtremesAreDrawn | src/measure/JTraceDecimator.cpp:115-140 | The extremes of the vertices are the extremes of the window, and every sample is drawn between them |
| TraceDecimator.FallingTraceDoesNotBacktrack | src/measure/JTraceDecimator.cpp:95-140 | Non-increasing samples give a monotone polyline for any offset, inversion and scale sign |
| TraceDecimator.RisingTraceDoesNotBacktrack | src/measure/JTraceDecimator.cpp:95-140 | Non-decreasing samples give a polyline monotone from its second vertex on |
| TraceDecimator.RisingTraceMonotoneIff | src/measure/JTraceDecimator.cpp:128-129 | With more than one column, a rising polyline is monotone from its first vertex if and only if the trace is flat or the first column holds one level |
| TraceDecimator.RisingRampStepsBack | src/measure/JTraceDecimator.cpp:128-129 | Samples 0, 1, 2, 3 in two columns do not draw a monotone polyline |
| TraceDecimator.FastMapRefines | src/measure/JTraceDecimator.cpp:19-28 | The precomputed map draws every voltage where the full conversion does |
| TraceDecimator.CursorReadsBack | src/measure/JTraceDecimator.cpp:37-54 | A voltage drawn and read back is unchanged |
| TraceDecimator.PositionReadsBack | src/measure/JTraceDecimator.cpp:37-54 | A position read and drawn again is unchanged |

## Left out

- Real streams, threads, USB, GPU, widgets, menus, settings and the bus transport: input, output and interface plumbing.
- `metaToJson` and `metaFromJson`: the JSON library is not part of this model, so metadata is an opaque text that parses or does not.
- Bad allocations: an index count read from a forged footer can exceed memory before the read fails; the model goes on to the scan.
- Buffering inside the output stream: a failure is seen by the operation that causes it; what a crash leaves on disk is any prefix.
- `write` and `close` racing on different threads: each call is one step, as are worker turns.
- Floating-point rounding, infinities and NaN in samples, times and measurements, and the square root of the mean square.
- MeasurementEngine.MeasureAll: where C++ leaves the conversion of a crossing time to an index undefined, the report may start from any sample.
- Recording.FailureIsFinal: assumes the stream object keeps the failed file attached, as `std::basic_filebuf::open` on an open file fails.
- Weak memory orders, two producers, and `_setState` called from two threads at once, where exchange order and delivery order can differ.
- Handlers that close the driver from inside a wake, and the contents of `JScopeSession::drain` beyond taking every ready frame.
- The indices and locks of `JScopeFrameQueue`: the ready ring is a bounded queue.
- `JCsvExport`, `JReferenceWaveform`, `JCursorModel`, `JScopeActions`, command parsing and the means and extremes in `statsJson`: easy members that would dilute the model.
