# Capture Panel: a model of its capture path and proofs about it

Capture Panel plays a train of marker impulses and a source signal out of an audio device, records
what comes back, finds the markers in the recording and writes the stretch of the recording that
answers the source as a WAV file.  This project models that path and proves that it delivers what
it is for.  `dafny verify dfyconfig.toml` checks all of it.

The main results, each for all inputs or all runs:

* **What is written is what was played.**  Over the loopback device, with any source, any gains, any
  block and chunk sizes and any legal partial reads, every latency below one marker interval is found
  exactly, the aligned payload is the source at the product of the gains on the channels that are played,
  routed and recorded (`EndToEnd.CaptureThroughLoopback`), and the WAV file into which that payload is
  streamed reads back as it, quantised to its bit depth (`CaptureToFile.CaptureToWav`).  What the alignment
  finds is stated for every input, whatever its levels and its latency: it is right exactly if the markers
  come back above the fixed threshold less than one interval late (`EndToEnd.CaptureAndAlign`,
  `EndToEnd.AlignedIffShortLatency`).
* **The marker matcher is a lexicographic optimum**: most matches, then least squared residual, then
  greatest peaks, among all order-preserving matchings within tolerance
  (`MarkerMatching.Backtrace`).  What its evaluation says is stated over the paired frames, by sums and by
  counting (`MarkerScores.EvaluationIsExact`, `MarkerScores.MedianIsMiddle`), and strong evidence lies within
  31 frames (`MarkerSelection.SelectionIsNarrow`).  The selection takes the earliest sufficiently complete train and, although
  its comparisons with an epsilon are not transitive, a best-fitting one of these up to less than a hundredth
  of a frame (`MarkerSelection.SelectionOfIsSelection`, `MarkerSelection.DriftIsSmall`); for a cleanly
  delayed train it is complete exactly if the delay is below the interval or the train has at most three
  markers (`CleanDelay.FullTrainIffShortDelay`).
* **The streaming protocol is safe in every interleaving** of producer, callbacks, writer and control
  thread: a returned recording is complete and unaltered, the output played for it was the delayed playback
  of the plan, the first failure stays, and teardown ends (`CaptureOutcome`, `CapturePlayback`).  Below it,
  the ring refines a queue (`RingProtocol`) and the callback gate never lets a callback see a target that is
  not published (`CallbackGate`).
* **Every streaming form agrees with its simple form**: the playback stream, the aligned reader, the
  loopback recording, the output buffers, the WAV stream.
* **The codecs round-trip**: WAV containers with any chunks around the samples
  (`WavChunks.OtherChunksAreSkipped`), all integer ASIO sample types down to the place of every byte
  (`SampleConverter.PlaneIsStored`), JSON strings for arbitrary bytes.  The normalised correlation obeys Cauchy-Schwarz with its equality case.

## How the model is built

Samples are `real` (the source's `float` and `double`), frames and positions are integers; where the
source's 16-, 32- or 64-bit limits decide something they are written out.  A signal is the
interleaved sequence of its samples, and `Arithmetic.Samples(frames, channels)` is the sample offset
of a frame (`SamplesIsProduct`: the product).  Objects whose methods update fields are classes, loops
are loops proved against a function of the inputs, and pure code is functions.

Behaviour that the source takes from outside is a parameter that the proofs quantify over: how many
frames a reader hands out per call and whether it keeps its contract (`FrameStreams.Grant`), how much
of a write the ring accepts and when a stop is seen (`PlaybackProducer.Producer`), when samples become
available (`OutputTimeline`), the square root (any function with its defining law), and the values of
IEEE bit patterns.

The concurrent parts are transition systems whose steps are single atomic accesses or copies of
single elements; all interleavings are considered under sequential consistency.  `RingProtocol` shows
that ring operations act as atomic queue operations, and `CaptureProtocol` builds on that: one step of
it is one ring operation or one access to a flag, with local work before or after it.  Only the final
checks of the control thread are one step together, because nobody else runs by then.  Callbacks and
driver messages that passed the gate before it closed may still act while it drains.  The producer of
`CaptureProtocol` is the abstraction of `PlaybackProducer.Producer`, its callback of
`OutputTimeline.OutputSide`.

Two places where the code does less than a reader may expect are stated exactly: a delay of one
interval or more is found one or two intervals too short, or not at all
(`CleanDelay.FullTrainIffShortDelay`, `EndToEnd.SelectedLatency`), and a sample rate that is accepted for
writing but rounds to zero gives a file that cannot be read (`WavFormat.ContainerRoundTrip`,
`WavSamples.RateBelowOneIsLost`).  Five checks of the code turn out to be unreachable: in the streaming
protocol the late playback underflow of `process` (`CaptureSafety.LookingKeepsInvariant`) and the
partial-frame and invalid-block errors of the recording writer (`CaptureSafety.MeasuredIsWhole`,
`CaptureSafety.ReadIsWhole`), in the alignment the inconsistent marker mapping
(`PayloadAlignment.SelectionIsMapped`), and in the loopback device the out-of-sequence error
(`FakeLoopback.CaptureFrame`).

## Model

| member | source | states |
|---|---|---|
| `MarkerMatching.IsBetterIsLexicographic` | src/core/src/alignment.cpp:137-150 | the comparison of alignment scores, epsilon included, is the strict lexicographic order on match count, squared residual and peak sum, because frame residuals are integers |
| `MarkerMatching.ProcessingKeepsInvariant` | src/core/src/alignment.cpp:152-247 | one cell of the table's double loop keeps the invariant: every filled cell dominates its predecessors' offers and is derived from one of them |
| `MarkerMatching.FillTable` | src/core/src/alignment.cpp:185-247 | the filled table dominates and is derived at every cell |
| `MarkerMatching.MatchingIsBounded` | src/core/src/alignment.cpp:116-135 | no admissible matching inside a prefix of markers and candidates scores better than that prefix's cell |
| `MarkerMatching.BacktraceStep` | src/core/src/alignment.cpp:249-264 | every cell the backtrace meets has a step, and the step's pair completes a matching whose score adds up to the final cell |
| `MarkerMatching.Backtrace` | src/core/src/alignment.cpp:249-266 | the pairs returned are an order-preserving matching within tolerance that no other such matching beats lexicographically; the backtrace ends |
| `MarkerScores.MakeMarkerSequence` | src/core/src/alignment.cpp:178-335 | over its frames, the pairing of a hypothesis has the most pairs, of those the least squared distance from the hypothesis, of those the loudest peaks; there is an evaluation exactly for two pairs or more with neighbours at representable distances, and its middle latency, timing and fit scores, average peak and coherence are those of the paired frames |
| `MarkerScores.OptimalIsBest` | src/core/src/alignment.cpp:116-150 | the optimum of the table is the best of all pairings, compared by the number, the latencies and the peaks of their pairs |
| `MarkerScores.EvaluationIsExact` | src/core/src/alignment.cpp:268-335 | a pairing is coherent if and only if the squared deviations of its latencies from their average sum to at most 100 per match, the sizes of its interval errors to at most 10 per interval and their squared deviations to at most 100 per interval; the timing score is the sum of the two spreads and the mean error, the fit score adds 10 per frame too early, a thousandth per frame too late and the larger of 16 frames and 20 ms for each missing marker |
| `MarkerScores.StrongIsStrongPairing` | src/core/src/alignment.cpp:352-362 | evidence is strong if and only if three quarters of the markers are matched, coherently, with at most half of the latencies negative |
| `MarkerScores.CoherentIsNarrow` | src/core/src/alignment.cpp:331-333 | in a coherent train of at most five matches any two latencies differ by at most 31 frames |
| `MarkerScores.MedianIsMiddle` | src/core/src/alignment.cpp:79-83 | counted over the unsorted list, at most half of the latencies are below the median and more than half are not above it |
| `MarkerScores.MiddleIsUnique` | src/core/src/alignment.cpp:79-83 | only one number has this property |
| `MarkerCandidates.NormalizedCandidatesAreNormalized` | src/core/src/alignment.cpp:580-594 | sorting and removing duplicates keeps one candidate per frame, the loudest, in increasing order |
| `MarkerSelection.HypothesesAreProposed` | src/core/src/alignment.cpp:600-605 | the hypotheses of the double loop, in the order of their first visit, are exactly the representable differences of the pairs visited so far |
| `MarkerSelection.TryHypotheses` | src/core/src/alignment.cpp:600-620 | every representable difference between a candidate and a marker is tried once, in that order, with the matcher's answer; the running best and the strong trains are those of the answers in that order |
| `MarkerSelection.BestFits` | src/core/src/alignment.cpp:337-350 | the running best fits as well as any train tried, up to one epsilon per comparison, and there is none only if there is no train |
| `MarkerSelection.WinnerIsBandWinner` | src/core/src/alignment.cpp:364-377 | the running choice among the direct trains lies in the band, has the most matches in it, of those the best timing up to one epsilon per comparison, and loses to no train after it |
| `MarkerSelection.FitsAreComparedWithin` | src/core/src/alignment.cpp:337-350 | fit scores within 0.000001 of one another leave the comparison to the peaks, all others decide it |
| `MarkerSelection.TimingsAreComparedWithin` | src/core/src/alignment.cpp:364-377 | with as many matches, timing scores within 0.000001 leave the comparison to the fit and at last to the latency |
| `MarkerSelection.BestIsFirstBestFit` | src/core/src/alignment.cpp:337-350 | if fit scores are equal or differ by more than the epsilon, the running best is exactly the first train with the least fit score and, of these, the loudest peaks |
| `MarkerSelection.WinnerIsFirstBandBest` | src/core/src/alignment.cpp:364-377 | if the scores of the direct trains are as clear, the running choice is exactly the first best of the band by matches, timing, fit, peaks and earlier latency |
| `MarkerSelection.DriftIsSmall` | src/core/src/alignment.cpp:563-572 | for all accepted inputs these epsilons add up to at most 0.00256 frames |
| `MarkerSelection.BestInEarliestBand` | src/core/src/alignment.cpp:622-648 | the loop over the direct trains computes the running choice in the band of the smallest direct median |
| `MarkerSelection.DirectChoiceIsSelection` | src/core/src/alignment.cpp:622-652 | the choice among the recorded direct trains is within tolerance of the smallest strong median and no worse than any strong hypothesis of that band |
| `MarkerSelection.SelectionOfIsSelection` | src/core/src/alignment.cpp:563-654 | what the loops compute is a most complete, best timed train of the earliest band if any train is strong, and otherwise a best-fitting one |
| `MarkerSelection.SelectMarkerSequence` | src/core/src/alignment.cpp:563-654 | one to five increasing markers, one to 512 candidates and a positive rate are accepted, everything else gives nothing; the tolerance is 35 ms to the nearest frame and at least 8; every hypothesis has been answered with a best pairing and its evaluation over the frames, exactly the strong pairings are strong evidence, the result is the one that the loops determine from these answers and meets that contract, and if any train is strong any two latencies of the result differ by at most 31 frames |
| `MarkerSelection.AnswersAreJudged` | src/core/src/alignment.cpp:606-620 | each answer of the matcher is a best pairing, evaluated and rated over its frames |
| `MarkerSelection.SelectionIsNarrow` | src/core/src/alignment.cpp:622-652 | a selection from strong evidence holds two matches or more within 31 frames of one another |
| `CleanDelay.OptimumIsShifted` | src/core/src/alignment.cpp:178-266 | for an equally spaced, cleanly delayed train of which the first markers arrived, the optimum under a hypothesis k intervals off is the train shifted by k |
| `CleanDelay.ShiftedEvaluation` | src/core/src/alignment.cpp:268-335 | a shifted train evaluates as coherent, with its hypothesis as median latency and a fit score of its lateness and its missing markers |
| `CleanDelay.OnlyOneShiftInBand` | src/core/src/alignment.cpp:630-642 | only one shift lies in the earliest band, because the tolerance is below the interval |
| `CleanDelay.CleanDelaySelection` | src/core/src/alignment.cpp:563-654 | which shift of a clean train is selected, for every delay, two to five markers and one marker lost of four or five |
| `CleanDelay.LostShiftFitsBest` | src/core/src/alignment.cpp:290-318 | if d markers are lost, the shift by d intervals fits clearly better than every other |
| `CleanDelay.LossyDelaySelection` | src/core/src/alignment.cpp:337-350 | if more are lost the latency found is one interval too small for each of them |
| `CleanDelay.FullTrainIffShortDelay` | src/core/src/alignment.cpp:352-362 | the full train is selected if and only if the delay is below the interval or there are at most three markers |
| `CleanDelay.CleanDelayIsCleanRun` | src/core/src/alignment.cpp:568-595 | such inputs pass the entry checks and normalisation unchanged |
| `SpscRing.Ring.constructor` | src/backends/asio/src/asio_spsc_ring.hpp:28-33 | a new ring is empty with the given capacity |
| `SpscRing.Ring.Write` | src/backends/asio/src/asio_spsc_ring.hpp:51-59 | as many samples as fit are appended to the contents, in order |
| `SpscRing.Ring.WriteExact` | src/backends/asio/src/asio_spsc_ring.hpp:63-75 | all samples are appended if they fit, otherwise nothing changes |
| `SpscRing.Ring.Read` | src/backends/asio/src/asio_spsc_ring.hpp:78-87 | as many samples as there are, up to the request, are removed from the front into the destination |
| `SpscRing.Ring.ReadExact` | src/backends/asio/src/asio_spsc_ring.hpp:91-102 | the destination is filled from the front of the contents, or nothing changes |
| `SpscRing.Ring.CopyIntoStorage` | src/backends/asio/src/asio_spsc_ring.hpp:111-124 | the two-part copy puts sample k into the slot of cursor + k, modulo the capacity, and touches no other slot |
| `SpscRing.Ring.CopyFromStorage` | src/backends/asio/src/asio_spsc_ring.hpp:126-139 | the two-part copy reads sample k from the slot of cursor + k |
| `SpscRing.CopySlotIsModular` | src/backends/asio/src/asio_spsc_ring.hpp:115-116 | the slot at which the wrapped copy puts sample k is (cursor + k) modulo the capacity |
| `SpscRing.BlockAvoids` | src/backends/asio/src/asio_spsc_ring.hpp:51-59 | a block that fits beside the unread samples uses none of their slots |
| `RingProtocol.StepKeepsInvariant` | src/backends/asio/src/asio_spsc_ring.hpp:51-139 | every step of either side, one cursor access or one copied element at a time, keeps the ring's invariant |
| `RingProtocol.RunKeepsInvariant` | src/backends/asio/src/asio_spsc_ring.hpp:51-139 | the invariant, with at most capacity unread elements, holds in every state of every interleaving |
| `RingProtocol.NoUnreadSlotIsOverwritten` | src/backends/asio/src/asio_spsc_ring.hpp:111-124 | the producer's copy never touches a slot that is still to be read |
| `RingProtocol.TakenIsPrefixOfPublished` | src/backends/asio/src/asio_spsc_ring.hpp:51-102 | what the consumer has taken is a prefix of what the producer has written |
| `RingProtocol.StepRefinesQueue` | src/backends/asio/src/asio_spsc_ring.hpp:51-102 | every step leaves the abstract queue alone, appends a whole block at its end or removes a whole block from its front |
| `RingProtocol.MeasuredDataStays` | src/backends/asio/src/asio_spsc_ring.hpp:40-44 | the data that the consumer measured is still there when it acts on it |
| `RingProtocol.MeasuredRoomStays` | src/backends/asio/src/asio_spsc_ring.hpp:51-75 | the room that the producer measured is still there until it publishes, and its block fits into it |
| `CallbackGate.StepKeepsInvariant` | src/backends/asio/src/asio_callback_lifetime.hpp:52-91 | every atomic access of owners and callbacks keeps the gate's invariant, failed exchanges and reactivation included |
| `CallbackGate.RunKeepsInvariant` | src/backends/asio/src/asio_callback_lifetime.hpp:52-100 | the low bits of the state word equal the number of live readers in every state of every run |
| `CallbackGate.WordCountsReaders` | src/backends/asio/src/asio_callback_lifetime.hpp:94-100 | the state word keeps 32 bits, its low 31 bits count the live readers, and its top bit is the closed bit |
| `CallbackGate.ReadersHoldThePublishedTarget` | src/backends/asio/src/asio_callback_lifetime.hpp:67-80 | a live reader holds the currently published target, which is not null |
| `CallbackGate.DeactivateReturnsDrained` | src/backends/asio/src/asio_callback_lifetime.hpp:82-91 | when the wait of a deactivation is over no reader is live |
| `CallbackGate.ClosingOnlyDrains` | src/backends/asio/src/asio_callback_lifetime.hpp:85-88 | once closed, the reader count never rises |
| `CallbackGate.OneOwner` | src/backends/asio/src/asio_callback_lifetime.hpp:52-65 | at most one capture owns the gate at a time |
| `CaptureProtocol.PeakOfConcatenation` | src/backends/asio/src/asio_stream_workers.cpp:350-357 | the running peak over blocks is the peak of their concatenation |
| `CaptureProtocol.PeakIsLargest` | src/backends/asio/src/asio_stream_workers.cpp:350-357 | no sample is larger than the peak, and one is as large |
| `CaptureSafety.BlockConsumes` | src/backends/asio/src/asio_capture.cpp:261-296 | the overlap of an output block with the playback is what becomes due in it |
| `CaptureSafety.OutputKeepsPlayback` | src/backends/asio/src/asio_capture.cpp:261-296 | a callback's output block keeps playback consumption in step with the output cursor, or publishes an underflow |
| `CaptureSafety.OutputKeepsOutput` | src/backends/asio/src/asio_capture.cpp:261-310 | unless it underflows, a callback fills its buffer with exactly the frames that are due: padding, mapped playback, silence |
| `CaptureSafety.BlockKeepsRecording` | src/backends/asio/src/asio_capture.cpp:312-340 | a recorded block enters the ring whole, or publishes an overflow and leaves the ring unchanged |
| `CaptureSafety.LookingKeepsInvariant` | src/backends/asio/src/asio_capture.cpp:378-390 | without a failure, playback is consumed when the recording completes: the late underflow does not occur |
| `CaptureSafety.AlignedIsWhole` | src/backends/asio/src/asio_stream_workers.cpp:329-332 | the block size of the recording writer is a whole number of frames, at most one chunk |
| `CaptureSafety.MeasuredIsWhole` | src/backends/asio/src/asio_stream_workers.cpp:329-343 | the writer measures whole frames whenever the ring is not empty; its partial-frame error does not occur |
| `CaptureSafety.ReadIsWhole` | src/backends/asio/src/asio_stream_workers.cpp:344-349 | what was measured is still there and is taken whole; the invalid-block error does not occur |
| `CaptureSafety.StoringKeepsInvariant` | src/backends/asio/src/asio_stream_workers.cpp:349-365 | the file stays the concatenation of the blocks taken, with their count and peak |
| `CaptureSafety.StepKeepsInvariant` | src/backends/asio/src/asio_stream_workers.cpp:203-411 | every step of producer, callback, writer and control thread keeps the capture's invariant |
| `CaptureSafety.RunKeepsInvariant` | src/backends/asio/src/asio_capture.cpp:346-399 | the invariant holds in every state of every interleaving |
| `CaptureOutcome.ReturnedRecordingIsComplete` | src/backends/asio/src/asio_capture.cpp:842-873 | if a capture returns, its file is the concatenation of all recorded blocks, has exactly the expected samples, carries their peak, all playback was consumed, the whole output was what was due and no fatal event occurred |
| `CaptureOutcome.OutputIsDue` | src/backends/asio/src/asio_capture.cpp:261-310 | in every interleaving, until a failure, every frame of output is the one that is due |
| `CapturePlayback.OutputIsDelayedPlayback` | src/backends/asio/src/asio_capture.cpp:261-310 | in every interleaving, until a failure, every frame the callbacks write is the playback of the plan, delayed by the padding and mapped to the output channels |
| `CapturePlayback.ReturnedCapturePlayedAll` | src/backends/asio/src/asio_capture.cpp:842-873 | a capture that returns has played all of the delayed playback |
| `CaptureWitness.CaptureCanReturn` | src/backends/asio/src/asio_capture.cpp:640-873 | there are runs that return: one frame played and recorded |
| `CaptureOutcome.ReturnedIsFinal` | src/backends/asio/src/asio_stream_workers.cpp:391-411 | no actor can take a step after a recording has been returned |
| `CaptureOutcome.FirstFailureStays` | src/backends/asio/src/asio_stream_workers.cpp:203-211 | the first published failure is the one every later state reports, and any fatal event rules out a returned recording |
| `CaptureOutcome.JoiningStepsDown` | src/backends/asio/src/asio_stream_workers.cpp:249-390 | while the control thread joins, only workers move and every move lowers their rank |
| `CaptureOutcome.JoinIsBounded` | src/backends/asio/src/asio_stream_workers.cpp:196-201 | the number of steps during a join is bounded by the rank at its start, on the stopping and on the draining path |
| `CaptureOutcome.JoinIsNotStuck` | src/backends/asio/src/asio_capture.cpp:529-555 | while the control thread joins some step is possible |
| `FrameStreams.FrameReader.ReadFrames` | src/core/src/streaming.cpp:74-85 | a legal reader delivers between one and the requested number of frames, the next ones of its stream, and nothing only at the end |
| `FrameStreams.ScaleInPlace` | src/core/src/streaming.cpp:230-232 | the gain loop multiplies exactly the given samples |
| `FrameStreams.ScaledAt` | src/core/src/streaming.cpp:230-232 | every sample of a gained block is the sample times the gain |
| `PlaybackPlan.PlaybackLength` | src/core/src/alignment.cpp:705-722 | the playback of a source of its declared length has exactly the planned frames |
| `PlaybackPlan.PreambleAt` | src/core/src/alignment.cpp:728-737 | before the source a sample is at the amplitude if its frame is a marker and zero otherwise |
| `PlaybackPlan.PlayedGrows` | src/core/src/alignment.cpp:739-759 | the next frames read extend what has been played by their gained samples |
| `PlaybackPlan.Materialize` | src/core/src/alignment.cpp:705-761 | the materialised plan is markers, silence and the gained source; the exact error for each bad descriptor, marker or reader |
| `PlaybackProducer.Producer.WritePlayback` | src/backends/asio/src/asio_stream_workers.cpp:249-261 | the samples reach the ring in order, all of them or, on a stop, a prefix |
| `PlaybackProducer.Producer.FillPreamble` | src/backends/asio/src/asio_stream_workers.cpp:275-287 | a chunk of the preamble is that stretch of the planned preamble, with one pass over the markers |
| `PlaybackProducer.Producer.ProducePlayback` | src/backends/asio/src/asio_stream_workers.cpp:263-318 | what is pushed is always a prefix of the materialised playback; without stop and failure it is all of it; it fails exactly if the source is short |
| `AlignedReader.SampleOffsetAdd` | src/core/src/audio.cpp:112-134 | sample offsets add up across negative and positive frames |
| `AlignedReader.ExtractFrames` | src/core/src/audio.cpp:96-136 | the extract holds the recording's samples from the start frame on and zeros outside it, for any start; the exact error cases |
| `AlignedReader.PayloadReader.Fill` | src/core/src/streaming.cpp:210-227 | partial reads follow each other until the request is met or the recording ends |
| `AlignedReader.PayloadReader.ReadFrames` | src/core/src/streaming.cpp:199-237 | each call delivers the next frames of the gained, zero-extended stretch, none skipped or repeated |
| `AlignedReader.Materialize` | src/core/src/streaming.cpp:507-537 | for every chunk size and every legal reader the payload equals the gain times the extract of the recording |
| `FakeLoopback.SourceWindow.Load` | src/backends/fake/src/fake_backend.cpp:292-332 | frames can be loaded again or next; anything else, and only that, is out of sequence |
| `FakeLoopback.CaptureSample` | src/backends/fake/src/fake_backend.cpp:386-404 | a mapped sample is the delayed playback at the combined gain |
| `FakeLoopback.CaptureFrame` | src/backends/fake/src/fake_backend.cpp:368-405 | a recording frame is the delayed playback frame on the mapped channels and silent elsewhere; the out-of-sequence error does not occur |
| `FakeLoopback.Capture` | src/backends/fake/src/fake_backend.cpp:213-433 | for every block size, chunk size and latency: frame f, channel c of the recording is the gained playback at f minus padding and latency if c is one of the played, the routed and the recorded channels, and silent otherwise and outside the playback; a plan is refused exactly if it is not playable or its recording has no 64-bit length; every source frame is read exactly once |
| `FakeLoopback.DelayedFramesAt` | src/backends/fake/src/fake_backend.cpp:368-378 | frame f, channel c of the recording is the playback at f minus padding and latency |
| `MarkerDetection.FollowRun` | src/core/src/alignment.cpp:429-437 | the inner loop ends at the end of the maximal run and returns its peak |
| `MarkerDetection.Detect` | src/core/src/alignment.cpp:406-441 | the candidates are exactly the maximal runs of frames above the threshold, one each, with onset and run peak, in increasing order |
| `MarkerDetection.DetectionIsUnique` | src/core/src/alignment.cpp:406-441 | the levels determine the candidates |
| `MarkerDetection.RangePeakIsMaximum` | src/core/src/alignment.cpp:393-404 | the range peak is the greatest frame peak |
| `MarkerDetection.CollectPeaks` | src/core/src/alignment.cpp:786-855 | for every chunk size and every partial read, entry k is the gained peak over the channels of frame lower + k |
| `DetectedRuns.SearchRangeIsWindow` | src/core/src/alignment.cpp:443-468 | a frame is searched if and only if it is recorded, not before the first expected marker by more than 600 ms (at least 64 frames), not behind the last by that and 80 ms (at least 8 frames), and before the source if that starts after the markers |
| `DetectedRuns.WindowPeaksAreLevels` | src/core/src/alignment.cpp:834-852 | the level of a frame is the magnitude of its loudest channel at the gain |
| `DetectedRuns.ThresholdIsThreshold` | src/core/src/alignment.cpp:414-416 | the threshold is half the loudest level of the window, and at least 0.005 |
| `DetectedRuns.DetectionIsRuns` | src/core/src/alignment.cpp:406-441 | the candidates are the runs of levels above the threshold, one each, at their first frame with their loudest level |
| `DetectedRuns.CandidatesAreLoud` | src/core/src/alignment.cpp:414-416 | a run at or below half the loudest level, or 0.005, gives no candidate |
| `PayloadAlignment.MarkerLatencies` | src/core/src/alignment.cpp:470-487 | all latencies of the sequence, or none if the mapping is broken |
| `PayloadAlignment.SelectionIsMapped` | src/core/src/alignment.cpp:470-487 | every train that can be selected maps its candidates to markers at representable distances |
| `PayloadAlignment.AlignPayload` | src/core/src/alignment.cpp:763-936 | the candidates are the loud runs of the recorded samples in reach of the markers; the latency is the middle, by counting, of the latencies of the selected train and the payload starts that much after the expected source start, not before frame 0; it succeeds exactly if two markers and 45 of 100 were matched, and fails otherwise only for a bad reference or a broken recording reader |
| `CleanWindow.PulsesAreDetected` | src/core/src/alignment.cpp:406-441 | isolated pulses of equal level are detected exactly where they are |
| `CleanWindow.QuietIsEmpty` | src/core/src/alignment.cpp:406-441 | where no frame exceeds the fixed threshold nothing is detected |
| `CleanWindow.PreamblePeak` | src/core/src/alignment.cpp:834-852 | before the source arrives a recorded frame is at the marker level or silent |
| `EndToEnd.AlignmentPlanIsPlan` | src/core/src/alignment.cpp:656-696 | every plan that is made is one the backends accept |
| `EndToEnd.AlignmentPlanIsLaidOut` | src/core/src/alignment.cpp:656-696 | a source with frames whose playback has a 64-bit length is planned as five markers 100 ms apart, two seconds of silence and the source; every other source is refused |
| `EndToEnd.RateBounds` | src/core/include/capture_panel/core/constants.hpp:17-46 | at every supported rate the tolerance is below the marker interval, and that below padding, search radius and silence |
| `EndToEnd.WindowIsInside` | src/core/src/alignment.cpp:443-468 | the search window starts before the expected markers and ends before the source could arrive |
| `EndToEnd.WindowHoldsTrain` | src/core/src/alignment.cpp:443-468 | for a latency below the interval every delayed marker lies in the search window, and each marker that does not costs an interval of latency |
| `EndToEnd.CandidatesAreArrivals` | src/core/src/alignment.cpp:857-863 | the candidates are the markers that arrive in the window, each late by the latency |
| `EndToEnd.SilenceHasNoCandidates` | src/core/src/alignment.cpp:857-863 | without a marker that is loud enough and arrives in time there is no candidate |
| `EndToEnd.SelectedLatency` | src/core/src/alignment.cpp:864-904 | for every session, what the alignment rests on: the true latency below one interval, one interval less if four or five markers are found, two less with three, and a failure with fewer |
| `EndToEnd.AlignedIffShortLatency` | src/core/src/alignment.cpp:864-904 | among all sessions, the true latency is found if and only if the markers come back above the threshold less than one interval late |
| `EndToEnd.PayloadIsSource` | src/core/src/alignment.cpp:904-925 | the trimmed payload is the source at the product of the gains |
| `EndToEnd.CaptureAndAlign` | src/core/src/capture.cpp:456-526 | for all inputs: an impossible plan, a recording without a 64-bit length and a latency found beyond the recording are validation errors, two markers or fewer fail to align, and otherwise the result is the recording and the stretch of it that starts at the latency found |
| `EndToEnd.CleanCaptureIsClean` | src/core/src/capture.cpp:456-526 | the sessions that are aligned to the true latency, by their inputs: the source has frames and 64-bit lengths, a channel is routed, the markers come back above 0.005 and less than one interval late |
| `EndToEnd.CaptureThroughLoopback` | src/core/src/streaming.cpp:507-537 | for these inputs the materialised payload is the source at the product of the gains on the channels that are played, routed and recorded, and silence on all others |
| `CaptureToFile.WrittenPayloadHoldsSource` | src/core/src/capture.cpp:548-556 | a file written from the gained source reads back with its dimensions and its quantised samples |
| `CaptureToFile.CaptureToWav` | src/core/src/capture.cpp:456-556 | the whole path down to the bytes, the aligned payload streamed into the WAV writer: for the same inputs and every writable output the file reads back as the quantised gained source on the same channels, with the rate to the nearest whole number |
| `PcmCodec.ValueOfBytes` | src/core/src/wav.cpp:96-106 | reading the bytes of a number gives it back modulo their width |
| `PcmCodec.BytesOfValue` | src/core/src/wav.cpp:268-284 | writing the number of given bytes gives the bytes back |
| `PcmCodec.WriteUnsigned` | src/backends/asio/src/asio_sample_converter.cpp:116-127 | the bytes of the value are stored in either byte order |
| `PcmCodec.ReadUnsigned` | src/backends/asio/src/asio_sample_converter.cpp:129-142 | the value of the bytes in either byte order |
| `PcmCodec.SignedRoundTrip` | src/backends/asio/src/asio_sample_converter.cpp:144-154 | a value in range survives two's complement, truncation to bytes and sign extension |
| `PcmCodec.QuantizationError` | src/core/src/wav.cpp:236-250 | the quantised value is within half a unit of the clamped sample, within one unit next to +1 |
| `PcmCodec.QuantizedIsNearest` | src/core/src/wav.cpp:236-250 | the quantised value of a sample is the nearest whole number of units, halves away from zero, the ends of the range from -1 and +1 outwards |
| `PcmCodec.SignExtendedIsTwosComplement` | src/backends/asio/src/asio_sample_converter.cpp:144-154 | sign extension gives the value in the range of its bits that has the low bits of the number |
| `PcmCodec.QuantizedIsMonotone` | src/core/src/wav.cpp:236-250 | quantisation is monotone |
| `PcmCodec.QuantizedIsIdempotent` | src/backends/asio/src/asio_sample_converter.cpp:98-114 | a quantised sample is quantised to itself |
| `SampleConverter.SampleRoundTrip` | src/backends/asio/src/asio_sample_converter.cpp:156-196 | for every integer sample type decoding an encoded sample gives its quantised value |
| `SampleConverter.DecodedIsStable` | src/backends/asio/src/asio_sample_converter.cpp:156-196 | encoding a decoded sample gives the same bytes |
| `SampleConverter.DecodedIsExact` | src/backends/asio/src/asio_sample_converter.cpp:174-196 | whatever bytes a driver leaves, a decoded integer sample lies in [-1, 1) and quantises to exactly the integer of the bytes |
| `SampleConverter.ValidatedIsFirstFault` | src/backends/asio/src/asio_sample_converter.cpp:212-226 | the first buffer of an unsupported type or without room for all frames decides the error, and there is none exactly if all buffers do |
| `SampleConverter.PlaneIsStored` | src/backends/asio/src/asio_sample_converter.cpp:30-89 | for every sample type by name, with its width and valid bits: byte i of the stored number lies i bytes from the front of its frame in an Lsb type and from the back in an Msb type, and is byte i of the two's complement of the quantised sample, or of the pattern of the clamped one |
| `SampleConverter.AllIsRead` | src/backends/asio/src/asio_sample_converter.cpp:30-89 | the mirror image: the bytes of a frame spell a number in that order, which means the value in the range of the valid bits with the same low bits, or the number of the pattern, clamped |
| `SampleConverter.InterleavedToAsio` | src/backends/asio/src/asio_sample_converter.cpp:254-278 | if the sample count is the product of frames and channels and no buffer is at fault, every byte of every channel is stored as the sample type by name demands; otherwise the first fault is returned and no buffer changes |
| `SampleConverter.AsioToInterleaved` | src/backends/asio/src/asio_sample_converter.cpp:280-303 | if the shape fits and no plane is at fault, every sample means the number that the bytes of its frame spell; otherwise the first fault is returned and nothing changes |
| `SampleConverter.PlanarRoundTrip` | src/backends/asio/src/asio_sample_converter.cpp:254-303 | de-interleaving and interleaving are inverse: the round trip quantises each sample and does nothing else |
| `WavChunks.ParseDescriptor` | src/core/src/wav.cpp:323-405 | a file is accepted exactly if it is a RIFF container of chunks of which the first format and the first data chunk are accepted, and then it is read as these two |
| `WavChunks.ContainerParses` | src/core/src/wav.cpp:359-382 | whatever chunks a file has and in whatever order, with pad bytes, a tail and bytes behind the container, its first format and its first data chunk decide |
| `WavChunks.WrittenIsContainer` | src/core/src/wav.cpp:812-890 | a written file is the container of its format and its data chunk |
| `WavChunks.OtherChunksAreSkipped` | src/core/src/wav.cpp:359-382 | any other chunks before, between and behind the two that were written, and second ones behind them, leave format and frame count as they were; the data moves by the bytes inserted before it |
| `WavChunks.AcceptedIffChunks` | src/core/src/wav.cpp:323-405 | the accepted files are exactly the containers whose chunks are accepted |
| `WavChunks.HeaderFaults` | src/core/src/wav.cpp:335-357 | the errors for a file without a RIFF/WAVE header or shorter than its header says |
| `WavChunks.CutIsRefused` | src/core/src/wav.cpp:359-371 | a chunk that does not end before its container is a read error, unless a chunk before it was refused already |
| `WavFormat.ParsedFormatIsAccepted` | src/core/src/wav.cpp:134-206 | a format chunk is accepted exactly if it has the plain or the extensible form with accepted fields, and as these |
| `WavFormat.FormatFaults` | src/core/src/wav.cpp:178-205 | which fields are accepted, and which of several faults decides the error |
| `WavFormat.FormatChunkFaults` | src/core/src/wav.cpp:138-175 | the errors of a chunk that is too short or extensible in an unknown way |
| `WavFormat.DescriptorIsSound` | src/core/src/wav.cpp:382-404 | a parsed file has a checked format and whole frames inside the file |
| `WavFormat.AcceptedFits` | src/core/src/wav.cpp:722-771 | no 16- or 32-bit header field of an accepted output wraps around |
| `WavFormat.AcceptedIsWritable` | src/core/src/wav.cpp:722-771 | an output is accepted exactly if it has 16, 24 or 32 bits, frames and channels, a rate within a thousandth of a whole number, and a frame, a second and data that fit their fields |
| `WavFormat.RefusedOutputs` | src/core/src/wav.cpp:722-771 | which of several faults of an output decides the error |
| `WavFormat.FmtFields` | src/core/src/wav.cpp:815-822 | the fields of the format chunk are read back as written: PCM, channels, rate, rate times block alignment as the byte rate, block alignment and bits |
| `WavFormat.FileParts` | src/core/src/wav.cpp:812-824 | where the parts of a written file lie |
| `WavFormat.ContainerRoundTrip` | src/core/src/wav.cpp:323-405 | parsing a written file returns its format, data location and frame count, pad byte included, unless the rate rounded to zero |
| `WavFormat.ExtensibleParses` | src/core/src/wav.cpp:150-181 | the extensible form of PCM parses like the plain form, with its stated valid bits |
| `FrameSources.FillFrom` | src/core/src/wav.cpp:840-859 | the read loop of the writer fills a chunk with the next samples of any reader, a plain one or an aligned payload, or reports the reader |
| `WavSamples.EncodedAt` | src/core/src/wav.cpp:861-868 | sample k lies at its place among the encoded bytes |
| `WavSamples.WriteWav` | src/core/src/wav.cpp:773-890 | the written bytes are header, encoded samples of the reader and pad, for any chunks and partial reads; the exact error otherwise |
| `WavSamples.ReadWav` | src/core/src/wav.cpp:600-720 | every container whose chunks are accepted is read, block by block, to its last sample, and each sample means the bytes at its place: the two's complement without its padding bits in units of the range, or the number of the float pattern |
| `WavSamples.OtherChunksKeepSamples` | src/core/src/wav.cpp:359-382 | chunks around those that were written do not change any sample that is read back |
| `WavSamples.WavReader.ReadFrames` | src/core/src/wav.cpp:452-498 | from any start frame and for any read sizes, the stream delivers that slice of what reading the whole file returns |
| `WavSamples.WavRoundTrip` | src/core/src/wav.cpp:600-890 | a written file is read back with the same format and with every sample equal to its quantised value |
| `WavSamples.PaddedSampleReadsBack` | src/core/src/wav.cpp:481-489 | a value stored above padding bits is decoded as itself |
| `WavSamples.DecodedIsInRange` | src/core/src/wav.cpp:481-489 | whatever bytes a PCM file holds, a decoded sample lies in [-1, 1) |
| `WavSamples.RateBelowOneIsLost` | src/core/src/wav.cpp:736-742 | a concrete rate that is accepted for writing and whose file cannot be read |
| `JsonString.EncodingIsAccepted` | src/cli/cli.cpp:48-82 | the encoding of every Unicode scalar value is recognised, whatever follows |
| `JsonString.AcceptedIsEncoding` | src/cli/cli.cpp:48-82 | whatever is recognised is the encoding of a scalar value |
| `JsonString.AppendJsonString` | src/cli/cli.cpp:84-122 | the loop appends the quoted form of the value |
| `JsonString.QuotedDecodes` | src/cli/cli.cpp:84-122 | the quoted form is a JSON string (section 7 of RFC 8259) in UTF-8 (RFC 3629) that decodes to the input with stray bytes replaced by U+FFFD |
| `JsonString.QuotedIsClean` | src/cli/cli.cpp:84-122 | the output is valid UTF-8 without raw control bytes |
| `JsonString.AsciiForms` | src/cli/cli.cpp:84-122 | which bytes are escaped by a letter, which by a code unit with capital digits, and that no others are |
| `JsonString.PlainIsVerbatim` | src/cli/cli.cpp:84-122 | valid text without quotes, backslashes and controls is only put between quotes |
| `JsonString.RepairedIsSame` | src/cli/cli.cpp:89-98 | valid UTF-8 is not changed by the repair |
| `JsonString.QuotedIsInjective` | src/cli/cli.cpp:84-122 | different valid strings have different quoted forms |
| `Correlation.CauchySchwarz` | src/core/src/verification.cpp:166-174 | the accumulated product is bounded by the energies |
| `Correlation.NormalizedCorrelation` | src/core/src/verification.cpp:155-179 | the accumulation loop computes the score |
| `Correlation.ScoreIsExact` | src/core/src/verification.cpp:155-179 | the squared score times the two energies is the squared product; windows outside the recording or with an energy of at most 1e-7 score 0 |
| `Correlation.ScoreIsBounded` | src/core/src/verification.cpp:155-179 | the score lies between 0 and 1 for every signal |
| `Correlation.MultipleScoresOne` | src/core/src/verification.cpp:155-179 | a measured window that is any multiple of the reference scores 1 |
| `Correlation.OneIsMultiple` | src/core/src/verification.cpp:155-179 | only a multiple of the reference scores 1 |
| `Correlation.ScoreIgnoresGain` | src/core/src/verification.cpp:155-179 | gain and polarity do not change the score of a measured window |
| `Correlation.BestMatch` | src/core/src/verification.cpp:181-202 | the result is the first visited frame with the highest score, or nothing exactly if the range is empty or the reference has no energy |
| `OutputTimeline.Timeline.NextOutputBlock` | src/backends/asio/src/asio_buffer_timeline.hpp:26-30 | the next block starts at the cursor and is cut at the end of the capture |
| `OutputTimeline.Timeline.NextInputBlock` | src/backends/asio/src/asio_buffer_timeline.hpp:32-40 | the first input is dropped, the following ones are consecutive |
| `OutputTimeline.OutputSide.WriteOutput` | src/backends/asio/src/asio_capture.cpp:261-310 | it underflows exactly if fewer samples are available than the playback frames in the block need, and then plays silence; without an underflow the buffer is the stretch of the delayed playback that is due |
| `OutputTimeline.OutputSide.DueCounts` | src/backends/asio/src/asio_capture.cpp:265-271 | the playback frames that are due are counted: those behind the padding and within the playback |
| `OutputTimeline.OutputSide.PlayBuffers` | src/backends/asio/src/asio_capture.cpp:342-399 | for every buffer size and supply: there is no underflow exactly if every buffer finds its playback pushed, and then the buffers concatenate to padding, mapped playback and silence; the recording is complete exactly when all but the first two buffers cover it, and playback is consumed by then |

## Left out

- Floating point: rounding, NaN and infinities, and the clamping of non-finite gains; samples are reals and finite.
- IEEE float samples in WAV files and ASIO buffers: their bit patterns are opaque parameters, so only integer formats have a round trip.
- Weak memory ordering: the protocols are proved under sequential consistency; cursors are unbounded, so 64-bit wrap-around of a cursor is not modelled.
- Allocation limits: checks that a sample count exceeds the address space are not modelled, as sizes are unbounded.
- Requests to readers are counted in frames, so the errors for a destination that is not frame-aligned do not arise.
- Route validation and the comparison of the device's sample rate with the playback's.
- Cancellation, progress reports, timeouts and waits: the control thread of `CaptureProtocol` may stop polling and refuse at any time instead.
- CaptureProtocol.ControlBreaks: the polling loop may end at any time and for no reason; only the choice to drain is restricted to what the code allows.
- CaptureProtocol.WriterCloses: closing the file may fail at any time, so returning a recording is proved safe, not inevitable.
- Callbacks that a driver issues before it is started: callbacks come between start and the closing of the gate.
- Driver, file system, temporary files and atomic rename: a driver is an adversary that issues callbacks, a file is a sequence of samples or bytes.
- The identity snapshot of a WAV source and the comparison with an expected format when a stream is opened.
- EndToEnd.CaptureThroughLoopback: claims no payload for latencies of one interval or more, where the alignment rests on a wrong latency or fails (`EndToEnd.SelectedLatency`).
- Which of several matchings with the same optimal score the backtrace returns.
- Payload warnings (low evidence, spread and interval error) and the latency in milliseconds.
- The peak scans of assets, WAV files and the loopback recording, which would repeat the reader loops already modelled.
- The verification sweep: its synthesis needs sine and logarithm, and matching a channel (`match_sweep_channel`) combines `Correlation.BestMatch` over three ranges without a law of its own.
- Command-line parsing, printing, device lists, channel specifications, the desktop application.
