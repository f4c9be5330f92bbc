/** What holds in every state of a capture, whatever the interleaving: see CaptureSafety. */
module CaptureInvariant {
  import opened Arithmetic
  import opened CaptureProtocol

  /** The playback frames among the first `cursor` output frames. */
  function ConsumedBy(c: Config, cursor: nat): nat {
    Min(Max(0, cursor - c.padding), c.playbackFrames)
  }

  /** Playback samples leave the ring in whole frames, never ahead of the producer. */
  ghost predicate PlaybackOk(c: Config, s: State) {
    && s.play.pulled <= s.play.pushed <= |c.playback|
    && s.play.pushed - s.play.pulled <= c.playbackCapacity
    && s.play.pulled == Samples(s.play.framesConsumed, c.playbackChannels)
    && s.play.framesConsumed <= ConsumedBy(c, s.time.output)
    && (s.failure == NoFailure && s.callback != Underflow ==>
          s.play.framesConsumed == ConsumedBy(c, s.time.output))
    && (s.play.framesConsumed == c.playbackFrames <==> s.play.consumed || s.callback == Consumed)
    && (s.producer == ProducerSawNoStop || s.producer == ProducerWrite ==> s.play.pushed < |c.playback|)
  }

  /** Frame f of the output as it is meant to be: padding, playback on its channels, silence. */
  function DueFrame(c: Config, f: nat): seq<real> {
    if c.padding <= f < c.padding + c.playbackFrames then MappedFrame(c, c.playback, f - c.padding)
    else SilentFrame(c)
  }

  ghost predicate AreDue(c: Config, frames: seq<seq<real>>) {
    forall f {:trigger frames[f]} :: 0 <= f < |frames| ==> frames[f] == DueFrame(c, f)
  }

  /** Without a failure the output so far is what is due. */
  ghost predicate OutputOk(c: Config, s: State) {
    && s.time.output == Min(c.TotalFrames(), |s.output|)
    && (s.failure == NoFailure && s.callback != Underflow ==> AreDue(c, s.output))
  }

  /** The callback has written its output block but not yet read its input block. */
  predicate BeforeInput(s: State) {
    && s.control != Priming
    && (s.callback == Underflow || s.callback == Consumed || s.callback == Converting || s.callback == Input)
  }

  /** Some callback is in the gate or may still enter it. */
  predicate IsActive(s: State) {
    s.callback != Idle || GateOpen(s) || s.entered.arrived > 0
  }

  /** The output is at least one block ahead of the input, two while a callback holds both. */
  ghost predicate TimelineOk(c: Config, s: State) {
    && s.time.input <= c.TotalFrames() && s.time.output <= c.TotalFrames()
    && (s.control == Priming ==>
          && s.time.input == 0 && s.entered == NOBODY
          && (s.callback == Output || s.callback == Underflow || s.callback == Consumed
              || s.callback == Converting))
    && (s.control == Priming && s.callback == Output ==> s.output == [])
    && (IsActive(s) && !(s.control == Priming && s.callback == Output) ==>
          s.time.output >= Min(c.TotalFrames(),
            s.time.input + if BeforeInput(s) then 2 * c.bufferFrames else c.bufferFrames))
  }

  /** Blocks enter the ring whole; without a failure every recorded block is in it. */
  ghost predicate RecordingOk(c: Config, s: State) {
    && |s.rec.recorded| == Samples(s.rec.recordedFrames, c.recordChannels)
    && |s.rec.ring| == Samples(s.rec.ringFrames, c.recordChannels)
    && s.rec.taken == Samples(s.rec.takenFrames, c.recordChannels)
    && s.rec.takenFrames <= s.rec.ringFrames <= s.rec.recordedFrames <= s.time.input
    && s.rec.completedFrames <= s.time.input
    && (s.failure == NoFailure && s.callback != Overflow ==> s.rec.ring == s.rec.recorded)
    && (s.rec.finished || s.callback == MarkFinished || s.callback == LookingForConsumed ==>
          s.time.input == s.time.output == c.TotalFrames() && s.play.consumed)
    && s.callback != LateUnderflow
  }

  ghost predicate IsWhole(c: Config, samples: nat) {
    samples == Samples(samples / c.recordChannels, c.recordChannels)
  }

  /** The writer is between two blocks. */
  predicate HoldsNothing(w: Writer) {
    !w.WriterHolds? && w != WriterThrown && w != WriterExited
  }

  /** The file is what was taken from the ring, except for the block in the writer's hands. */
  ghost predicate WriterOk(c: Config, s: State) {
    && s.rec.taken <= |s.rec.ring|
    && s.writer != WriterPartial
    && (s.writer.WriterMeasured? ==>
          && 0 < s.writer.aligned <= |s.rec.ring| - s.rec.taken && IsWhole(c, s.writer.aligned))
    && (s.writer.WriterHolds? ==>
          && s.file.samples + s.writer.block == s.rec.ring[..s.rec.taken]
          && s.file.frames + s.writer.frames == s.rec.takenFrames
          && |s.writer.block| == Samples(s.writer.frames, c.recordChannels))
    && (HoldsNothing(s.writer) || s.file.finished ==>
          s.file.samples == s.rec.ring[..s.rec.taken] && s.file.frames == s.rec.takenFrames)
    && (s.writer == WriterSawFinished || s.writer == WriterEnded || s.file.finished ==> s.rec.finished)
    && s.file.peak == Peak(s.file.samples)
    && (s.file.finished ==>
          && s.writer == WriterExited && s.file.frames == c.TotalFrames()
          && s.file.rawPeak == s.file.peak)
  }

  /** The gate is closed and empty. */
  predicate IsDrained(s: State) {
    s.control.Drained? || s.control == Joining || IsJoined(s)
  }

  predicate IsJoined(s: State) {
    s.control == Checking || s.control == Refused || s.control == Returned
  }

  predicate Drains(s: State) {
    || (s.control.Stopping? && s.control.drain) || (s.control.Draining? && s.control.drain)
    || (s.control.Drained? && s.control.drain)
  }

  /** From the drained gate on no callback runs; after the join no worker runs either. */
  ghost predicate ControlOk(s: State) {
    && (IsDrained(s) ==> s.callback == Idle && s.entered == NOBODY)
    && (IsJoined(s) ==> s.producer == ProducerExited && s.writer == WriterExited)
    && (Drains(s) ==> s.rec.finished)
    && (s.control == Joining ==> s.flags.stop || s.rec.finished)
    && (s.control == Returned ==> !FatalDriverEvent(s) && s.file.finished)
  }

  ghost predicate Invariant(c: Config, s: State) {
    && c.Valid() && PlaybackOk(c, s) && OutputOk(c, s) && TimelineOk(c, s) && RecordingOk(c, s)
    && WriterOk(c, s) && ControlOk(s)
  }
}
