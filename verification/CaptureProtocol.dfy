/**
 One capture as four actors that share two rings and a few flags: the playback producer, the
 driver's audio callbacks, the recording writer and the control thread.  A step is one atomic
 access to what they share, or one operation of a ring, which RingProtocol shows to be an atomic
 queue operation, together with local work.  Steps interleave in any order, and the driver, the
 file system and the source may misbehave at any time.
 */
module CaptureProtocol {
  import opened AlignedReader
  import opened Arithmetic

  /** The dimensions of one capture. */
  datatype Config = Config(
    playback: seq<real>, playbackChannels: pos, playbackFrames: pos,
    outputChannels: pos, recordChannels: pos, padding: nat, bufferFrames: pos,
    playbackCapacity: nat, recordingCapacity: nat, writerChunkFrames: pos)
  {
    function TotalFrames(): nat {
      padding + playbackFrames + padding
    }

    ghost predicate Valid() {
      |playback| == Samples(playbackFrames, playbackChannels)
    }
  }

  datatype Failure = NoFailure | PlaybackUnderflow | RecordingOverflow | SourceFailure | WriterFailure

  datatype Producer =
    | ProducerCheck      // about to load the stop flag, or to finish
    | ProducerSawNoStop  // about to load the failure
    | ProducerWrite      // about to call ring.write
    | ProducerThrown     // the source failed; about to publish the failure
    | ProducerFailed     // about to store the finished flag
    | ProducerExited

  /** Where the one callback that holds `processing` is inside process(). */
  datatype Callback =
    | Idle
    | InvalidIndex        // about to flag a buffer index that is not 0 or 1
    | Output              // about to write the output buffer
    | Underflow           // read_exact refused; about to publish it
    | Consumed            // all playback read; about to mark it
    | Converting          // about to convert the output buffer
    | Input               // about to read the input buffer
    | Overflow            // write_exact refused; about to publish it
    | Completing          // about to store completed_frames
    | Finishing(ok: bool) // about to flag a failed conversion, or to load the failure
    | LookingForConsumed  // recording complete; about to load playback_consumed
    | LateUnderflow       // playback was not consumed; about to publish it
    | MarkFinished        // about to mark the recording producer finished
    | LookingForReentry   // about to load the re-entrancy flag
    | Clearing(finish: bool)

  datatype Writer =
    | WriterTop                                   // about to load what is available
    | WriterPartial                               // saw less than a frame
    | WriterMeasured(aligned: nat)                // about to read that many samples
    | WriterHolds(block: seq<real>, frames: nat)  // read from the ring, not yet in the file
    | WriterEmpty                                 // saw no data; about to load the finished flag
    | WriterSawFinished                           // about to look at the ring once more
    | WriterEnded                                 // about to close the file
    | WriterSawUnfinished                         // about to load the stop flag
    | WriterSawNoStop                             // about to load the failure
    | WriterThrown
    | WriterExited

  datatype Control =
    | Priming
    | Polling
    | Deciding                         // the loop was left; about to load `done`
    | SawDone                          // about to load the finished flag of the recording
    | Stopping(drain: bool)            // driver stop, then the gate is closed
    | Draining(drain: bool)            // waiting for the callbacks that entered before
    | Drained(drain: bool)             // none is left; about to request the stop
    | Joining
    | Checking
    | Refused
    | Returned

  /** The playback ring by its two cursors (it holds the playback in order), and its flags. */
  datatype Playback = Playback(
    pushed: nat, pulled: nat, framesConsumed: nat, consumed: bool, producerFinished: bool)

  /** Everything converted from the driver, everything pushed into the ring, and its cursors. */
  datatype Recording = Recording(
    recorded: seq<real>, recordedFrames: nat, ring: seq<real>, ringFrames: nat, taken: nat, takenFrames: nat,
    completedFrames: nat, finished: bool)

  /** AsioBufferTimeline. */
  datatype Timeline = Timeline(output: nat, input: nat, firstInput: bool)

  datatype File = File(samples: seq<real>, frames: nat, peak: real, rawPeak: real, finished: bool)

  datatype Flags = Flags(
    stop: bool, done: bool, conversionFailed: bool, invalidIndex: bool, reentrant: bool, driverEvent: bool)

  /** The callbacks that passed the gate, besides the one that is processing. */
  datatype Entered = Entered(
    arrived: nat,     // about to test and set `processing`
    bouncing: nat,    // found it set; about to flag the re-entrancy
    ending: nat,      // cleared it; about to store `done`
    signalling: nat)  // a driver message, about to store its flag

  /** `output` holds the frames of all output buffers filled so far, each with all its channels. */
  datatype State = State(
    play: Playback, output: seq<seq<real>>, rec: Recording, time: Timeline, file: File, failure: Failure,
    flags: Flags, entered: Entered, producer: Producer, callback: Callback, writer: Writer, control: Control)

  const NOBODY := Entered(0, 0, 0, 0)

  // ---------------------------------------------------------------- helpers

  /** The largest magnitude, 0 for no samples. */
  function Peak(samples: seq<real>): real {
    if samples == [] then 0.0
    else MaxReal(Peak(samples[..|samples| - 1]), AbsReal(samples[|samples| - 1]))
  }

  lemma {:induction false} PeakOfConcatenation(a: seq<real>, b: seq<real>)
    ensures Peak(a + b) == MaxReal(Peak(a), Peak(b))
    ensures Peak(a) >= 0.0
  {
    if b == [] {
      assert a + b == a;
      if a != [] {
        PeakOfConcatenation(a[..|a| - 1], []);
      }
    } else {
      assert (a + b)[..|a + b| - 1] == a + b[..|b| - 1];
      PeakOfConcatenation(a, b[..|b| - 1]);
    }
  }

  /** No sample is larger than the peak, and one is as large, unless there is none. */
  lemma {:induction false} PeakIsLargest(samples: seq<real>)
    ensures forall i :: 0 <= i < |samples| ==> -Peak(samples) <= samples[i] <= Peak(samples)
    ensures if samples == [] then Peak(samples) == 0.0
            else exists i :: 0 <= i < |samples| && (samples[i] == Peak(samples) || samples[i] == -Peak(samples))
  {
    if samples != [] {
      var front := samples[..|samples| - 1];
      PeakIsLargest(front);
      PeakOfConcatenation(front, []);
      assert front + [] == front;
      if front == [] {
        assert Peak(samples) == AbsReal(samples[0]);
      } else {
        var i :| 0 <= i < |front| && (front[i] == Peak(front) || front[i] == -Peak(front));
        assert samples[i] == front[i];
      }
    }
  }

  /** publish_failure: a compare-and-swap from none, so the first failure stays. */
  function Published(current: Failure, failure: Failure): Failure {
    if current == NoFailure then failure else current
  }

  predicate FatalDriverEvent(s: State) {
    || s.failure != NoFailure || s.flags.driverEvent || s.flags.conversionFailed
    || s.flags.invalidIndex || s.flags.reentrant
  }

  /** remaining_block of the timeline. */
  function BlockFrames(c: Config, cursor: nat): nat {
    Min(Max(0, c.TotalFrames() - cursor), c.bufferFrames)
  }

  /** How many frames of the block [start, end) lie inside the playback. */
  function Overlap(c: Config, start: nat, end: nat): int {
    Min(end, c.padding + c.playbackFrames) - Max(start, c.padding)
  }

  // ---------------------------------------------------------------- output frames

  /** Channel `channel` of frame `frame` of some playback samples, silent if they have no such channel. */
  function MappedSample(c: Config, samples: seq<real>, frame: nat, channel: int): real {
    if 0 <= channel < c.playbackChannels then SampleOrZero(samples, Samples(frame, c.playbackChannels) + channel)
    else 0.0
  }

  /** That frame on all output channels. */
  function MappedFrame(c: Config, samples: seq<real>, frame: nat): (r: seq<real>)
    ensures |r| == c.outputChannels
  {
    seq(c.outputChannels, channel => MappedSample(c, samples, frame, channel))
  }

  function SilentFrame(c: Config): (r: seq<real>)
    ensures |r| == c.outputChannels
  {
    seq(c.outputChannels, _ => 0.0)
  }

  /** One output buffer: `overlap` frames of source samples behind `silent` silent ones. */
  function FilledBuffer(c: Config, source: seq<real>, silent: nat, overlap: nat): (r: seq<seq<real>>)
    ensures |r| == c.bufferFrames
  {
    seq(c.bufferFrames, k requires 0 <= k =>
      if silent <= k < silent + overlap then MappedFrame(c, source, k - silent) else SilentFrame(c))
  }

  /** The next samples of the playback ring. */
  function NextPlayback(c: Config, from: nat, count: nat): seq<real> {
    if from + count <= |c.playback| then c.playback[from..from + count] else []
  }

  // ---------------------------------------------------------------- the producer

  /** should_stop loads the stop flag, then the failure; if either says so the thread returns. */
  ghost predicate ProducerLooksForStop(c: Config, s: State, s': State) {
    && s.producer == ProducerCheck && s.play.pushed < |c.playback|
    && s' == s.(producer := if s.flags.stop then ProducerExited else ProducerSawNoStop)
  }

  ghost predicate ProducerLooksForFailure(c: Config, s: State, s': State) {
    && s.producer == ProducerSawNoStop
    && s' == s.(producer := if s.failure != NoFailure then ProducerExited else ProducerWrite)
  }

  /** ring.write takes any number of the samples that fit. */
  ghost predicate ProducerPushes(c: Config, s: State, s': State) {
    && s.producer == ProducerWrite
    && s.play.pushed <= s'.play.pushed <= |c.playback|
    && s'.play.pushed - s.play.pulled <= c.playbackCapacity
    && s' == s.(play := s.play.(pushed := s'.play.pushed), producer := ProducerCheck)
  }

  ghost predicate ProducerCompletes(c: Config, s: State, s': State) {
    && (s.producer == ProducerFailed || (s.producer == ProducerCheck && s.play.pushed == |c.playback|))
    && s' == s.(play := s.play.(producerFinished := true), producer := ProducerExited)
  }

  ghost predicate ProducerFails(c: Config, s: State, s': State) {
    || (s.producer == ProducerCheck && s.play.pushed < |c.playback|
        && s' == s.(producer := ProducerThrown))
    || (s.producer == ProducerThrown
        && s' == s.(failure := Published(s.failure, SourceFailure), producer := ProducerFailed))
  }

  ghost predicate ProducerStep(c: Config, s: State, s': State) {
    || ProducerLooksForStop(c, s, s') || ProducerLooksForFailure(c, s, s') || ProducerPushes(c, s, s')
    || ProducerCompletes(c, s, s') || ProducerFails(c, s, s')
  }

  // ---------------------------------------------------------------- the audio callbacks

  predicate GateOpen(s: State) {
    s.control == Polling || s.control == Deciding || s.control == SawDone || s.control.Stopping?
  }

  /** A buffer callback or a driver message passes the gate. */
  ghost predicate CallbackArrives(c: Config, s: State, s': State) {
    && GateOpen(s)
    && (|| s' == s.(entered := s.entered.(arrived := s.entered.arrived + 1))
        || s' == s.(entered := s.entered.(signalling := s.entered.signalling + 1)))
  }

  /** The test-and-set of `processing`: one callback processes, any other only flags the re-entrancy. */
  ghost predicate CallbackTakes(c: Config, s: State, s': State) {
    && s.entered.arrived > 0
    && var t := s.(entered := s.entered.(arrived := s.entered.arrived - 1));
       if s.callback != Idle then s' == t.(entered := t.entered.(bouncing := t.entered.bouncing + 1))
       else s' == t.(callback := Output) || s' == t.(callback := InvalidIndex)
  }

  ghost predicate CallbackFlags(c: Config, s: State, s': State) {
    || (s.entered.bouncing > 0
        && s' == s.(flags := s.flags.(reentrant := true),
                    entered := s.entered.(bouncing := s.entered.bouncing - 1)))
    || (s.entered.signalling > 0
        && s' == s.(flags := s.flags.(driverEvent := true),
                    entered := s.entered.(signalling := s.entered.signalling - 1)))
    || (s.entered.ending > 0
        && s' == s.(flags := s.flags.(done := true), entered := s.entered.(ending := s.entered.ending - 1)))
  }

  /** The frames of the current output block that lie inside the playback. */
  function DueOverlap(c: Config, s: State): int {
    Overlap(c, s.time.output, s.time.output + BlockFrames(c, s.time.output))
  }

  /** write_output_buffer: the overlap with the playback is read from the ring, exactly or not at all. */
  ghost predicate CallbackWritesOutput(c: Config, s: State, s': State) {
    && s.callback == Output
    && if DueOverlap(c, s) <= 0 then WritesSilence(c, s, s', Converting)
       else if s.play.pushed - s.play.pulled < Samples(DueOverlap(c, s), c.playbackChannels) then
         WritesSilence(c, s, s', Underflow)
       else WritesPlayback(c, s, s', DueOverlap(c, s))
  }

  ghost predicate WritesSilence(c: Config, s: State, s': State, next: Callback) {
    s' == s.(time := s.time.(output := s.time.output + BlockFrames(c, s.time.output)),
             output := s.output + FilledBuffer(c, [], 0, 0), callback := next)
  }

  ghost predicate WritesPlayback(c: Config, s: State, s': State, overlap: nat) {
    var consumed := s.play.framesConsumed + overlap;
    var samples := Samples(overlap, c.playbackChannels);
    var silent := Max(s.time.output, c.padding) - s.time.output;
    s' == s.(time := s.time.(output := s.time.output + BlockFrames(c, s.time.output)),
             play := s.play.(pulled := s.play.pulled + samples, framesConsumed := consumed),
             output := s.output + FilledBuffer(c, NextPlayback(c, s.play.pulled, samples), silent, overlap),
             callback := if consumed >= c.playbackFrames then Consumed else Converting)
  }

  ghost predicate CallbackPublishes(c: Config, s: State, s': State) {
    || (s.callback == InvalidIndex
        && s' == s.(flags := s.flags.(invalidIndex := true), callback := Clearing(true)))
    || (s.callback == Underflow
        && s' == s.(failure := Published(s.failure, PlaybackUnderflow), callback := Converting))
    || (s.callback == Overflow
        && s' == s.(failure := Published(s.failure, RecordingOverflow), callback := Completing))
    || (s.callback == LateUnderflow
        && s' == s.(failure := Published(s.failure, PlaybackUnderflow), callback := MarkFinished))
    || (s.callback == Consumed
        && s' == s.(play := s.play.(consumed := true), callback := Converting))
    || (s.callback == MarkFinished
        && s' == s.(rec := s.rec.(finished := true), callback := Clearing(true)))
    || (s.callback == Completing
        && s' == s.(rec := s.rec.(completedFrames := s.time.input), callback := Finishing(true)))
    || (s.callback == Finishing(false)
        && s' == s.(flags := s.flags.(conversionFailed := true), callback := Clearing(true)))
  }

  /** The native output buffer is filled, or the conversion fails; priming ends here. */
  ghost predicate CallbackConverts(c: Config, s: State, s': State) {
    && s.callback == Converting
    && if s.control == Priming then
         || s' == s.(callback := Idle, control := Polling)
         || s' == s.(callback := Idle, control := Stopping(false))
       else
         || s' == s.(callback := Input)
         || s' == s.(callback := Finishing(false))
  }

  ghost predicate CallbackReadsInput(c: Config, s: State, s': State) {
    && s.callback == Input
    && if s.time.firstInput then
         s' == s.(time := s.time.(firstInput := false), callback := Finishing(true))
       else
         var frames := BlockFrames(c, s.time.input);
         var t := s.(time := s.time.(input := s.time.input + frames));
         if frames == 0 then s' == t.(callback := Finishing(true))
         else
           || s' == t.(callback := Finishing(false))
           || exists block: seq<real> ::
                |block| == Samples(frames, c.recordChannels) && Records(c, t, s', block, frames)
  }

  /** The converted block is written to the recording ring, whole or not at all. */
  ghost predicate Records(c: Config, t: State, s': State, block: seq<real>, frames: nat) {
    var r := t.rec.(recorded := t.rec.recorded + block, recordedFrames := t.rec.recordedFrames + frames);
    if |t.rec.ring| - t.rec.taken + |block| <= c.recordingCapacity then
      s' == t.(rec := r.(ring := t.rec.ring + block, ringFrames := t.rec.ringFrames + frames),
               callback := Completing)
    else s' == t.(rec := r, callback := Overflow)
  }

  /** The loads at the end of process(), which decide whether the capture is done. */
  ghost predicate CallbackLooks(c: Config, s: State, s': State) {
    || (s.callback == Finishing(true)
        && s' == s.(callback :=
             if s.failure != NoFailure then Clearing(true)
             else if s.time.input >= c.TotalFrames() then LookingForConsumed
             else LookingForReentry))
    || (s.callback == LookingForConsumed
        && s' == s.(callback := if s.play.consumed then MarkFinished else LateUnderflow))
    || (s.callback == LookingForReentry && s' == s.(callback := Clearing(s.flags.reentrant)))
  }

  /** `processing` is cleared; done is stored afterwards, possibly beside the next callback. */
  ghost predicate CallbackClears(c: Config, s: State, s': State) {
    && s.callback.Clearing?
    && s' == s.(entered := s.entered.(ending := s.entered.ending + if s.callback.finish then 1 else 0),
                callback := Idle)
  }

  ghost predicate CallbackStep(c: Config, s: State, s': State) {
    || CallbackArrives(c, s, s') || CallbackTakes(c, s, s') || CallbackFlags(c, s, s')
    || CallbackWritesOutput(c, s, s') || CallbackPublishes(c, s, s') || CallbackConverts(c, s, s')
    || CallbackReadsInput(c, s, s') || CallbackLooks(c, s, s') || CallbackClears(c, s, s')
  }

  // ---------------------------------------------------------------- the writer

  /** available_to_read of the recording ring. */
  function Waiting(r: Recording): nat {
    Max(0, |r.ring| - r.taken)
  }

  /** The block size of write_recording: what is available, cut to a chunk and to whole frames. */
  function AlignedSamples(c: Config, available: nat): (aligned: nat)
    ensures aligned <= available
  {
    var count := Min(available, Samples(c.writerChunkFrames, c.recordChannels));
    count - count % c.recordChannels
  }

  ghost predicate WriterMeasures(c: Config, s: State, s': State) {
    && s.writer == WriterTop
    && var aligned := AlignedSamples(c, Waiting(s.rec));
       s' == s.(writer := if Waiting(s.rec) == 0 then WriterEmpty
                          else if aligned == 0 then WriterPartial
                          else WriterMeasured(aligned))
  }

  ghost predicate WriterReads(c: Config, s: State, s': State) {
    && s.writer.WriterMeasured?
    && var read := Min(s.writer.aligned, Waiting(s.rec));
       if read == 0 || read % c.recordChannels != 0 then s' == s.(writer := WriterThrown)
       else Takes(c, s, s', read, read / c.recordChannels)
  }

  /** That many samples, which are so many frames, leave the ring. */
  ghost predicate Takes(c: Config, s: State, s': State, samples: nat, frames: nat) {
    && s.rec.taken + samples <= |s.rec.ring|
    && s' == s.(rec := s.rec.(taken := s.rec.taken + samples, takenFrames := s.rec.takenFrames + frames),
                writer := WriterHolds(s.rec.ring[s.rec.taken..s.rec.taken + samples], frames))
  }

  /** The block is appended to the file, unless a sample or the file system is bad. */
  ghost predicate WriterStores(c: Config, s: State, s': State) {
    && s.writer.WriterHolds?
    && var block, frames := s.writer.block, s.file.frames + s.writer.frames;
       || s' == s.(writer := WriterThrown)
       || s' == s.(file := s.file.(samples := s.file.samples + block, frames := frames,
                                   peak := MaxReal(s.file.peak, Peak(block))),
                   writer := if frames > c.TotalFrames() then WriterThrown else WriterTop)
  }

  /** The loads of an iteration that found no data, or less than a frame. */
  ghost predicate WriterLooks(c: Config, s: State, s': State) {
    || (s.writer == WriterPartial
        && s' == s.(writer := if s.rec.finished then WriterThrown else WriterTop))
    || (s.writer == WriterEmpty
        && s' == s.(writer := if s.rec.finished then WriterSawFinished else WriterSawUnfinished))
    || (s.writer == WriterSawFinished
        && s' == s.(writer := if Waiting(s.rec) > 0 then WriterTop else WriterEnded))
    || (s.writer == WriterSawUnfinished
        && s' == s.(writer := if s.flags.stop then WriterExited else WriterSawNoStop))
    || (s.writer == WriterSawNoStop
        && s' == s.(writer := if s.failure != NoFailure then WriterExited else WriterTop))
  }

  ghost predicate WriterCloses(c: Config, s: State, s': State) {
    && s.writer == WriterEnded
    && (|| s' == s.(writer := WriterThrown)
        || (s.file.frames == c.TotalFrames()
            && s' == s.(file := s.file.(rawPeak := s.file.peak, finished := true), writer := WriterExited)))
  }

  ghost predicate WriterFails(c: Config, s: State, s': State) {
    && s.writer == WriterThrown
    && s' == s.(failure := Published(s.failure, WriterFailure), writer := WriterExited)
  }

  ghost predicate WriterStep(c: Config, s: State, s': State) {
    || WriterMeasures(c, s, s') || WriterReads(c, s, s') || WriterStores(c, s, s')
    || WriterLooks(c, s, s') || WriterCloses(c, s, s') || WriterFails(c, s, s')
  }

  // ---------------------------------------------------------------- the control thread

  /** The prebuffer does not fill in time, or something else throws before the output is primed. */
  ghost predicate ControlGivesUp(c: Config, s: State, s': State) {
    && s.control == Priming && s.callback == Output
    && var t := s.(callback := Idle, control := Draining(false));
       || s' == t
       || s' == t.(failure := Published(s.failure, PlaybackUnderflow))
  }

  /** The polling loop ends at any time; a recording that was cancelled or failed is not drained. */
  ghost predicate ControlBreaks(c: Config, s: State, s': State) {
    && s.control == Polling
    && (s' == s.(control := Deciding) || s' == s.(control := Stopping(false)))
  }

  /** Only a recording that is done and finished is drained. */
  ghost predicate ControlChooses(c: Config, s: State, s': State) {
    || (s.control == Deciding && s' == s.(control := if s.flags.done then SawDone else Stopping(false)))
    || (s.control == SawDone && s' == s.(control := Stopping(s.rec.finished)))
  }

  ghost predicate ControlClosesGate(c: Config, s: State, s': State) {
    s.control.Stopping? && s' == s.(control := Draining(s.control.drain))
  }

  ghost predicate ControlSeesNoCallback(c: Config, s: State, s': State) {
    && s.control.Draining? && s.callback == Idle && s.entered == NOBODY
    && s' == s.(control := Drained(s.control.drain))
  }

  ghost predicate ControlRequestsStop(c: Config, s: State, s': State) {
    && s.control.Drained?
    && s' == s.(flags := s.flags.(stop := s.flags.stop || !s.control.drain), control := Joining)
  }

  ghost predicate ControlJoins(c: Config, s: State, s': State) {
    && s.control == Joining && s.producer == ProducerExited && s.writer == WriterExited
    && s' == s.(control := Checking)
  }

  /**
   Nobody else runs by now, so the checks are one step.  Cancellation, a timeout or a driver error
   refuses at any time; the other checks are exact.
   */
  ghost predicate ControlDecides(c: Config, s: State, s': State) {
    && s.control == Checking
    && (|| s' == s.(control := Refused)
        || (&& !FatalDriverEvent(s) && s.rec.completedFrames >= c.TotalFrames() && s.file.finished
            && s' == s.(control := Returned)))
  }

  ghost predicate ControlStep(c: Config, s: State, s': State) {
    || ControlGivesUp(c, s, s') || ControlBreaks(c, s, s') || ControlChooses(c, s, s')
    || ControlClosesGate(c, s, s') || ControlSeesNoCallback(c, s, s') || ControlRequestsStop(c, s, s')
    || ControlJoins(c, s, s') || ControlDecides(c, s, s')
  }

  // ---------------------------------------------------------------- runs

  ghost predicate Init(s: State) {
    && s.play == Playback(0, 0, 0, false, false) && s.output == []
    && s.rec == Recording([], 0, [], 0, 0, 0, 0, false)
    && s.time == Timeline(0, 0, true)
    && s.file == File([], 0, 0.0, 0.0, false)
    && s.failure == NoFailure && s.flags == Flags(false, false, false, false, false, false)
    && s.entered == NOBODY
    && s.producer == ProducerCheck && s.callback == Output && s.writer == WriterTop
    && s.control == Priming
  }

  ghost predicate Step(c: Config, s: State, s': State) {
    ProducerStep(c, s, s') || CallbackStep(c, s, s') || WriterStep(c, s, s') || ControlStep(c, s, s')
  }

  /** A run: it starts in the initial state and every state follows from the one before. */
  ghost predicate IsRun(c: Config, run: seq<State>) {
    && c.Valid() && |run| > 0 && Init(run[0])
    && forall i {:trigger IsStep(c, run, i)} :: 0 < i < |run| ==> IsStep(c, run, i)
  }

  ghost predicate IsStep(c: Config, run: seq<State>, i: nat)
    requires 0 < i < |run|
  {
    Step(c, run[i - 1], run[i])
  }
}
