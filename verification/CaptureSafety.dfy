/** Every step of every actor keeps the invariant of one capture. */
module CaptureSafety {
  import opened AlignedReader
  import opened Arithmetic
  import opened CaptureInvariant
  import opened CaptureProtocol

  lemma InitIsInvariant(c: Config, s: State)
    requires c.Valid() && Init(s)
    ensures Invariant(c, s)
  {
  }

  // ---------------------------------------------------------------- what a step does not touch

  lemma WriterStays(c: Config, s: State, s': State)
    requires WriterOk(c, s) && s'.rec == s.rec && s'.writer == s.writer && s'.file == s.file
    ensures WriterOk(c, s')
  {
    hide Samples, Peak, IsWhole;
  }

  lemma DataStays(c: Config, s: State, s': State)
    requires PlaybackOk(c, s) && OutputOk(c, s) && RecordingOk(c, s) && WriterOk(c, s)
    requires s' == s.(flags := s'.flags, entered := s'.entered, control := s'.control)
    ensures PlaybackOk(c, s') && OutputOk(c, s') && RecordingOk(c, s') && WriterOk(c, s')
  {
    hide AreDue, Samples, Peak, IsWhole, ConsumedBy;
  }

  // ---------------------------------------------------------------- the producer

  lemma PushingKeepsInvariant(c: Config, s: State, s': State)
    requires Invariant(c, s) && ProducerPushes(c, s, s')
    ensures Invariant(c, s')
  {
    hide AreDue, Samples, WriterOk, ConsumedBy;
    WriterStays(c, s, s');
  }

  lemma ProducerMovesKeepInvariant(c: Config, s: State, s': State)
    requires Invariant(c, s)
    requires ProducerLooksForStop(c, s, s') || ProducerLooksForFailure(c, s, s') || ProducerCompletes(c, s, s')
    ensures Invariant(c, s')
  {
    hide AreDue, Samples, WriterOk, ConsumedBy;
    WriterStays(c, s, s');
  }

  lemma ProducerFailureKeepsInvariant(c: Config, s: State, s': State)
    requires Invariant(c, s) && ProducerFails(c, s, s')
    ensures Invariant(c, s')
  {
    hide AreDue, Samples, WriterOk, ConsumedBy;
    WriterStays(c, s, s');
  }

  lemma ProducerKeepsInvariant(c: Config, s: State, s': State)
    requires Invariant(c, s) && ProducerStep(c, s, s')
    ensures Invariant(c, s')
  {
    hide Invariant;
    if ProducerPushes(c, s, s') {
      PushingKeepsInvariant(c, s, s');
    } else if ProducerFails(c, s, s') {
      ProducerFailureKeepsInvariant(c, s, s');
    } else {
      ProducerMovesKeepInvariant(c, s, s');
    }
  }

  // ---------------------------------------------------------------- the output block

  /** The output block [cursor, end) holds the playback frames that become due in it. */
  lemma BlockConsumes(c: Config, cursor: nat)
    requires cursor <= c.TotalFrames()
    ensures
      var end := cursor + BlockFrames(c, cursor);
      && ConsumedBy(c, end) == ConsumedBy(c, cursor) + Max(0, Overlap(c, cursor, end))
      && 0 <= ConsumedBy(c, cursor) && ConsumedBy(c, end) <= c.playbackFrames
  {
  }

  lemma OutputKeepsPlayback(c: Config, s: State, s': State)
    requires c.Valid() && PlaybackOk(c, s) && s.time.output <= c.TotalFrames()
    requires CallbackWritesOutput(c, s, s')
    ensures PlaybackOk(c, s')
  {
    hide PlaybackOk, WritesSilence, WritesPlayback, Samples;
    if DueOverlap(c, s) <= 0 {
      SilenceKeepsPlayback(c, s, s', Converting);
    } else if s.play.pushed - s.play.pulled < Samples(DueOverlap(c, s), c.playbackChannels) {
      SilenceKeepsPlayback(c, s, s', Underflow);
    } else {
      PlayingKeepsPlayback(c, s, s', DueOverlap(c, s));
    }
  }

  lemma SilenceKeepsPlayback(c: Config, s: State, s': State, next: Callback)
    requires PlaybackOk(c, s) && s.time.output <= c.TotalFrames() && s.callback == Output
    requires WritesSilence(c, s, s', next) && (next == Underflow || (next == Converting && DueOverlap(c, s) <= 0))
    ensures PlaybackOk(c, s')
  {
    hide FilledBuffer, Samples, ConsumedBy, Overlap, BlockFrames;
    BlockConsumes(c, s.time.output);
  }

  lemma PlayingKeepsPlayback(c: Config, s: State, s': State, overlap: nat)
    requires PlaybackOk(c, s) && s.time.output <= c.TotalFrames() && s.callback == Output
    requires WritesPlayback(c, s, s', overlap) && overlap == DueOverlap(c, s) > 0
    requires s.play.pushed - s.play.pulled >= Samples(overlap, c.playbackChannels)
    ensures PlaybackOk(c, s')
  {
    hide FilledBuffer, NextPlayback, Samples, ConsumedBy, Overlap, BlockFrames;
    BlockConsumes(c, s.time.output);
    SamplesAdd(s.play.framesConsumed, overlap, c.playbackChannels);
  }

  lemma SliceSample(samples: seq<real>, from: nat, to: nat, i: nat)
    requires from <= to <= |samples| && i < to - from
    ensures SampleOrZero(samples[from..to], i) == SampleOrZero(samples, from + i)
  {
  }

  lemma ReadSampleIsPlayback(c: Config, from: nat, overlap: nat, j: nat, channel: nat)
    requires c.Valid() && from + overlap <= c.playbackFrames && j < overlap && channel < c.playbackChannels
    ensures
      var unit := c.playbackChannels;
      SampleOrZero(NextPlayback(c, Samples(from, unit), Samples(overlap, unit)), Samples(j, unit) + channel)
        == SampleOrZero(c.playback, Samples(from + j, unit) + channel)
  {
    hide Samples, SampleOrZero;
    var unit := c.playbackChannels;
    SamplesAdd(from, overlap, unit);
    SamplesMonotone(from + overlap, c.playbackFrames, unit);
    SamplesAdd(from, j, unit);
    SamplesAdd(j, 1, unit);
    OneFrame(unit);
    SamplesMonotone(j + 1, overlap, unit);
    var base := Samples(from, unit);
    SliceSample(c.playback, base, base + Samples(overlap, unit), Samples(j, unit) + channel);
  }

  /** A frame of the samples that were read is the frame of the playback that it stands for. */
  lemma ReadFrameIsPlayback(c: Config, from: nat, overlap: nat, j: nat)
    requires c.Valid() && from + overlap <= c.playbackFrames && j < overlap
    ensures
      var source := NextPlayback(c, Samples(from, c.playbackChannels), Samples(overlap, c.playbackChannels));
      MappedFrame(c, source, j) == MappedFrame(c, c.playback, from + j)
  {
    hide Samples, SampleOrZero, NextPlayback;
    var source := NextPlayback(c, Samples(from, c.playbackChannels), Samples(overlap, c.playbackChannels));
    forall channel | 0 <= channel < c.outputChannels
      ensures MappedFrame(c, source, j)[channel] == MappedFrame(c, c.playback, from + j)[channel]
    {
      if channel < c.playbackChannels {
        ReadSampleIsPlayback(c, from, overlap, j, channel);
      }
    }
  }

  /** Frame k of a buffer behind `count` frames: how far the block reaches, and where playback is in it. */
  lemma BlockIsDue(c: Config, count: nat, k: nat)
    requires k < c.bufferFrames
    ensures
      var start := Min(c.TotalFrames(), count);
      var overlap := Overlap(c, start, start + BlockFrames(c, start));
      var silent := Max(start, c.padding) - start;
      if overlap > 0 && silent <= k < silent + overlap then
        && ConsumedBy(c, start) + overlap <= c.playbackFrames
        && count + k == c.padding + ConsumedBy(c, start) + (k - silent)
      else !(c.padding <= count + k < c.padding + c.playbackFrames)
  {
  }

  /** The buffer holds what is due behind `count` frames. */
  ghost predicate FillsDue(c: Config, buffer: seq<seq<real>>, count: nat) {
    forall k {:trigger buffer[k]} :: 0 <= k < |buffer| ==> buffer[k] == DueFrame(c, count + k)
  }

  lemma SilentBufferIsDue(c: Config, count: nat)
    requires
      var start := Min(c.TotalFrames(), count);
      Overlap(c, start, start + BlockFrames(c, start)) <= 0
    ensures FillsDue(c, FilledBuffer(c, [], 0, 0), count)
  {
    hide Overlap, BlockFrames, ConsumedBy, MappedFrame, SilentFrame;
    var buffer := FilledBuffer(c, [], 0, 0);
    forall k {:trigger buffer[k]} | 0 <= k < |buffer| ensures buffer[k] == DueFrame(c, count + k) {
      BlockIsDue(c, count, k);
    }
  }

  lemma PlayedBufferIsDue(c: Config, count: nat, overlap: nat)
    requires c.Valid()
    requires
      var start := Min(c.TotalFrames(), count);
      overlap == Overlap(c, start, start + BlockFrames(c, start)) > 0
    ensures
      var start := Min(c.TotalFrames(), count);
      var source := NextPlayback(c, Samples(ConsumedBy(c, start), c.playbackChannels),
                                 Samples(overlap, c.playbackChannels));
      FillsDue(c, FilledBuffer(c, source, Max(start, c.padding) - start, overlap), count)
  {
    hide Overlap, BlockFrames, ConsumedBy, MappedFrame, SilentFrame, NextPlayback, Samples;
    var start := Min(c.TotalFrames(), count);
    var silent := Max(start, c.padding) - start;
    var from := ConsumedBy(c, start);
    var source := NextPlayback(c, Samples(from, c.playbackChannels), Samples(overlap, c.playbackChannels));
    var buffer := FilledBuffer(c, source, silent, overlap);
    forall k {:trigger buffer[k]} | 0 <= k < |buffer| ensures buffer[k] == DueFrame(c, count + k) {
      BlockIsDue(c, count, k);
      if silent <= k < silent + overlap {
        ReadFrameIsPlayback(c, from, overlap, k - silent);
      }
    }
  }

  lemma DueGrows(c: Config, frames: seq<seq<real>>, buffer: seq<seq<real>>)
    requires AreDue(c, frames) && FillsDue(c, buffer, |frames|)
    ensures AreDue(c, frames + buffer)
  {
    hide DueFrame;
    forall f | 0 <= f < |frames + buffer| ensures (frames + buffer)[f] == DueFrame(c, f) {
      if f >= |frames| {
        assert buffer[f - |frames|] == DueFrame(c, |frames| + (f - |frames|));
      }
    }
  }

  /** Unless it underflows, a callback fills its buffer with the frames that are due. */
  lemma OutputKeepsOutput(c: Config, s: State, s': State)
    requires c.Valid() && PlaybackOk(c, s) && OutputOk(c, s) && CallbackWritesOutput(c, s, s')
    ensures OutputOk(c, s')
  {
    hide AreDue, FillsDue, FilledBuffer, NextPlayback, Samples, Overlap, ConsumedBy, BlockFrames;
    if s'.failure == NoFailure && s'.callback != Underflow {
      if DueOverlap(c, s) <= 0 {
        SilentBufferIsDue(c, |s.output|);
        DueGrows(c, s.output, FilledBuffer(c, [], 0, 0));
      } else {
        var overlap := DueOverlap(c, s);
        PlayedBufferIsDue(c, |s.output|, overlap);
        var source := NextPlayback(c, s.play.pulled, Samples(overlap, c.playbackChannels));
        DueGrows(c, s.output, FilledBuffer(c, source, Max(s.time.output, c.padding) - s.time.output, overlap));
      }
    }
    OutputCountGrows(c, s, s');
  }

  lemma OutputCountGrows(c: Config, s: State, s': State)
    requires s.time.output == Min(c.TotalFrames(), |s.output|) && CallbackWritesOutput(c, s, s')
    ensures s'.time.output == Min(c.TotalFrames(), |s'.output|)
  {
    hide NextPlayback, Samples, Overlap;
  }

  lemma OutputKeepsTimeline(c: Config, s: State, s': State)
    requires TimelineOk(c, s) && CallbackWritesOutput(c, s, s')
    ensures TimelineOk(c, s')
  {
    hide FilledBuffer, NextPlayback, Samples;
  }

  lemma OutputKeepsRecording(c: Config, s: State, s': State)
    requires RecordingOk(c, s) && CallbackWritesOutput(c, s, s')
    ensures RecordingOk(c, s')
  {
    hide FilledBuffer, NextPlayback, Samples, Overlap;
  }

  lemma OutputKeepsRest(c: Config, s: State, s': State)
    requires WriterOk(c, s) && ControlOk(s) && CallbackWritesOutput(c, s, s')
    ensures WriterOk(c, s') && ControlOk(s')
  {
    hide WriterOk, FilledBuffer, NextPlayback, Samples, Overlap, BlockFrames;
    WriterStays(c, s, s');
  }

  // ---------------------------------------------------------------- the input block

  lemma InputKeepsRecording(c: Config, s: State, s': State)
    requires Invariant(c, s) && CallbackReadsInput(c, s, s')
    ensures RecordingOk(c, s')
  {
    hide AreDue, Samples, Peak, PlaybackOk, OutputOk, WriterOk, ControlOk;
    if !s.time.firstInput {
      var frames := BlockFrames(c, s.time.input);
      var t := s.(time := s.time.(input := s.time.input + frames));
      if block: seq<real> :| |block| == Samples(frames, c.recordChannels) && Records(c, t, s', block, frames) {
        BlockKeepsRecording(c, s, t, s', block, frames);
      }
    }
  }

  lemma BlockEnds(c: Config, cursor: nat)
    requires cursor <= c.TotalFrames()
    ensures cursor + BlockFrames(c, cursor) <= c.TotalFrames()
    ensures BlockFrames(c, cursor) > 0 ==> cursor < c.TotalFrames()
  {
  }

  lemma BlockKeepsRecording(c: Config, s: State, t: State, s': State, block: seq<real>, frames: nat)
    requires c.Valid() && RecordingOk(c, s) && s.callback == Input && frames == BlockFrames(c, s.time.input)
    requires t == s.(time := s.time.(input := s.time.input + frames)) && t.time.input <= c.TotalFrames()
    requires frames > 0 && |block| == Samples(frames, c.recordChannels) && Records(c, t, s', block, frames)
    ensures RecordingOk(c, s')
  {
    hide Samples, BlockFrames, RecordingOk;
    BlockEnds(c, s.time.input);
    if |s.rec.ring| - s.rec.taken + |block| <= c.recordingCapacity {
      TakenBlockKeepsRecording(c, s, s', block, frames);
    } else {
      RefusedBlockKeepsRecording(c, s, s', block, frames);
    }
  }

  lemma TakenBlockKeepsRecording(c: Config, s: State, s': State, block: seq<real>, frames: nat)
    requires RecordingOk(c, s) && s.callback == Input && s.time.input < c.TotalFrames()
    requires |block| == Samples(frames, c.recordChannels)
    requires s' == s.(time := s.time.(input := s.time.input + frames),
                      rec := s.rec.(recorded := s.rec.recorded + block,
                                    recordedFrames := s.rec.recordedFrames + frames,
                                    ring := s.rec.ring + block, ringFrames := s.rec.ringFrames + frames),
                      callback := Completing)
    ensures RecordingOk(c, s')
  {
    hide Samples;
    SamplesAdd(s.rec.recordedFrames, frames, c.recordChannels);
    SamplesAdd(s.rec.ringFrames, frames, c.recordChannels);
  }

  lemma RefusedBlockKeepsRecording(c: Config, s: State, s': State, block: seq<real>, frames: nat)
    requires RecordingOk(c, s) && s.callback == Input && s.time.input < c.TotalFrames()
    requires |block| == Samples(frames, c.recordChannels)
    requires s' == s.(time := s.time.(input := s.time.input + frames),
                      rec := s.rec.(recorded := s.rec.recorded + block,
                                    recordedFrames := s.rec.recordedFrames + frames),
                      callback := Overflow)
    ensures RecordingOk(c, s')
  {
    hide Samples;
    SamplesAdd(s.rec.recordedFrames, frames, c.recordChannels);
  }

  lemma InputKeepsWriter(c: Config, s: State, s': State)
    requires WriterOk(c, s) && CallbackReadsInput(c, s, s')
    ensures WriterOk(c, s')
  {
    hide Samples, Peak, IsWhole;
    assert s.rec.ring <= s'.rec.ring;
    assert s'.rec.ring[..s.rec.taken] == s.rec.ring[..s.rec.taken];
  }

  /** What the input block changes at most. */
  lemma InputMoves(c: Config, s: State, s': State)
    requires CallbackReadsInput(c, s, s')
    ensures s' == s.(time := s'.time, rec := s'.rec, callback := s'.callback) && s'.time.output == s.time.output
    ensures s.callback == Input && (s'.callback.Finishing? || s'.callback == Completing || s'.callback == Overflow)
    ensures s'.rec.finished == s.rec.finished
  {
  }

  lemma InputKeepsRest(c: Config, s: State, s': State)
    requires PlaybackOk(c, s) && OutputOk(c, s) && ControlOk(s) && CallbackReadsInput(c, s, s')
    ensures PlaybackOk(c, s') && OutputOk(c, s') && ControlOk(s')
  {
    hide AreDue, Samples, ConsumedBy, CallbackReadsInput;
    InputMoves(c, s, s');
  }

  lemma InputKeepsTimeline(c: Config, s: State, s': State)
    requires TimelineOk(c, s) && CallbackReadsInput(c, s, s')
    ensures TimelineOk(c, s')
  {
    hide Samples;
  }

  // ---------------------------------------------------------------- the other moves of a callback

  lemma ArrivingKeepsInvariant(c: Config, s: State, s': State)
    requires Invariant(c, s) && CallbackArrives(c, s, s')
    ensures Invariant(c, s')
  {
    hide PlaybackOk, OutputOk, RecordingOk, WriterOk;
    DataStays(c, s, s');
  }

  lemma TakingProcessingKeepsTimeline(c: Config, s: State, s': State)
    requires TimelineOk(c, s) && CallbackTakes(c, s, s')
    ensures TimelineOk(c, s')
  {
  }

  lemma TakingProcessingKeepsInvariant(c: Config, s: State, s': State)
    requires Invariant(c, s) && CallbackTakes(c, s, s')
    ensures Invariant(c, s')
  {
    hide AreDue, Samples, WriterOk, TimelineOk, ConsumedBy;
    WriterStays(c, s, s');
    TakingProcessingKeepsTimeline(c, s, s');
  }

  lemma FlaggingKeepsInvariant(c: Config, s: State, s': State)
    requires Invariant(c, s) && CallbackFlags(c, s, s')
    ensures Invariant(c, s')
  {
    hide PlaybackOk, OutputOk, RecordingOk, WriterOk;
    DataStays(c, s, s');
  }

  lemma PublishingKeepsInvariant(c: Config, s: State, s': State)
    requires Invariant(c, s) && CallbackPublishes(c, s, s')
    ensures Invariant(c, s')
  {
    hide AreDue, Samples, Peak, ConsumedBy, WriterOk, TimelineOk;
    PublishingKeepsWriter(c, s, s');
    PublishingKeepsTimeline(c, s, s');
  }

  lemma PublishingKeepsWriter(c: Config, s: State, s': State)
    requires WriterOk(c, s) && CallbackPublishes(c, s, s')
    ensures WriterOk(c, s')
  {
    hide Samples, Peak, IsWhole;
  }

  lemma PublishingKeepsTimeline(c: Config, s: State, s': State)
    requires TimelineOk(c, s) && CallbackPublishes(c, s, s')
    ensures TimelineOk(c, s')
  {
  }

  lemma ConvertingKeepsTimeline(c: Config, s: State, s': State)
    requires TimelineOk(c, s) && CallbackConverts(c, s, s')
    ensures TimelineOk(c, s')
  {
  }

  lemma ConvertingKeepsInvariant(c: Config, s: State, s': State)
    requires Invariant(c, s) && CallbackConverts(c, s, s')
    ensures Invariant(c, s')
  {
    hide AreDue, Samples, WriterOk, TimelineOk, ConsumedBy;
    WriterStays(c, s, s');
    ConvertingKeepsTimeline(c, s, s');
  }

  /** The late underflow of process() never happens: without a failure playback is consumed. */
  lemma LookingKeepsInvariant(c: Config, s: State, s': State)
    requires Invariant(c, s) && CallbackLooks(c, s, s')
    ensures Invariant(c, s') && s'.callback != LateUnderflow
  {
    hide AreDue, Samples, WriterOk, ConsumedBy;
    WriterStays(c, s, s');
    AllIsConsumed(c);
  }

  lemma AllIsConsumed(c: Config)
    ensures ConsumedBy(c, c.TotalFrames()) == c.playbackFrames
  {
  }

  lemma ClearingKeepsInvariant(c: Config, s: State, s': State)
    requires Invariant(c, s) && CallbackClears(c, s, s')
    ensures Invariant(c, s')
  {
    hide AreDue, Samples, WriterOk, ConsumedBy;
    WriterStays(c, s, s');
  }

  lemma CallbackKeepsInvariant(c: Config, s: State, s': State)
    requires Invariant(c, s) && CallbackStep(c, s, s')
    ensures Invariant(c, s')
  {
    hide PlaybackOk, OutputOk, RecordingOk, WriterOk, ControlOk, TimelineOk, CallbackWritesOutput, CallbackReadsInput,
         CallbackPublishes, CallbackConverts, CallbackLooks, CallbackClears, CallbackTakes, CallbackArrives,
         CallbackFlags;
    if CallbackWritesOutput(c, s, s') {
      OutputCursorIsInside(c, s);
      OutputKeepsPlayback(c, s, s');
      OutputKeepsOutput(c, s, s');
      OutputKeepsTimeline(c, s, s');
      OutputKeepsRecording(c, s, s');
      OutputKeepsRest(c, s, s');
    } else if CallbackReadsInput(c, s, s') {
      InputKeepsRecording(c, s, s');
      InputKeepsWriter(c, s, s');
      InputKeepsRest(c, s, s');
      InputKeepsTimeline(c, s, s');
    } else if CallbackPublishes(c, s, s') {
      PublishingKeepsInvariant(c, s, s');
    } else if CallbackConverts(c, s, s') {
      ConvertingKeepsInvariant(c, s, s');
    } else if CallbackLooks(c, s, s') {
      LookingKeepsInvariant(c, s, s');
    } else if CallbackClears(c, s, s') {
      ClearingKeepsInvariant(c, s, s');
    } else if CallbackTakes(c, s, s') {
      TakingProcessingKeepsInvariant(c, s, s');
    } else if CallbackArrives(c, s, s') {
      ArrivingKeepsInvariant(c, s, s');
    } else {
      FlaggingKeepsInvariant(c, s, s');
    }
  }

  lemma OutputCursorIsInside(c: Config, s: State)
    requires TimelineOk(c, s)
    ensures s.time.output <= c.TotalFrames()
  {
  }

  // ---------------------------------------------------------------- the writer

  /** Whole frames wait in the ring, so the writer takes whole frames, up to its chunk. */
  lemma AlignedIsWhole(c: Config, frames: nat)
    requires c.Valid()
    ensures
      var taken := Min(frames, c.writerChunkFrames);
      && AlignedSamples(c, Samples(frames, c.recordChannels)) == Samples(taken, c.recordChannels)
      && Samples(taken, c.recordChannels) / c.recordChannels == taken
  {
    hide Samples;
    var taken := Min(frames, c.writerChunkFrames);
    SamplesMonotone(taken, frames, c.recordChannels);
    SamplesMonotone(taken, c.writerChunkFrames, c.recordChannels);
    SamplesIsProduct(taken, c.recordChannels);
    DivModUnique(Samples(taken, c.recordChannels), taken, 0, c.recordChannels);
  }

  /** The frames that wait in the recording ring. */
  lemma WaitingIsWhole(c: Config, s: State)
    requires RecordingOk(c, s)
    ensures s.rec.taken <= |s.rec.ring| && s.rec.takenFrames <= s.rec.ringFrames
    ensures |s.rec.ring| - s.rec.taken == Samples(s.rec.ringFrames - s.rec.takenFrames, c.recordChannels)
  {
    hide Samples;
    SamplesAdd(s.rec.takenFrames, s.rec.ringFrames - s.rec.takenFrames, c.recordChannels);
  }

  /** The partial-frame error of write_recording never happens: a non-empty ring gives whole frames. */
  lemma MeasuredIsWhole(c: Config, s: State, s': State)
    requires c.Valid() && RecordingOk(c, s) && WriterMeasures(c, s, s')
    ensures s.writer == WriterTop
    ensures
      if s.rec.taken == |s.rec.ring| then s' == s.(writer := WriterEmpty)
      else
        && s' == s.(writer := s'.writer) && s'.writer.WriterMeasured?
        && 0 < s'.writer.aligned <= |s.rec.ring| - s.rec.taken && IsWhole(c, s'.writer.aligned)
  {
    hide Samples, AlignedSamples, RecordingOk;
    WaitingIsWhole(c, s);
    var waiting: nat := s.rec.ringFrames - s.rec.takenFrames;
    AlignedIsWhole(c, waiting);
    NothingIsEmpty(waiting, c.recordChannels);
    NothingIsEmpty(Min(waiting, c.writerChunkFrames), c.recordChannels);
    SamplesMonotone(Min(waiting, c.writerChunkFrames), waiting, c.recordChannels);
  }

  lemma NothingIsEmpty(frames: nat, unit: pos)
    ensures Samples(frames, unit) == 0 <==> frames == 0
  {
    SamplesMonotone(0, frames, unit);
  }

  lemma MeasuringKeepsInvariant(c: Config, s: State, s': State)
    requires Invariant(c, s) && WriterMeasures(c, s, s')
    ensures Invariant(c, s')
  {
    hide AreDue, Samples, Peak, IsWhole, AlignedSamples;
    MeasuredIsWhole(c, s, s');
  }

  lemma WholeIsDivisible(c: Config, samples: nat)
    requires IsWhole(c, samples)
    ensures samples % c.recordChannels == 0
  {
    SamplesIsProduct(samples / c.recordChannels, c.recordChannels);
    DivModUnique(samples, samples / c.recordChannels, 0, c.recordChannels);
  }

  /** What was measured is still there, so the invalid-block error never happens either. */
  lemma ReadIsWhole(c: Config, s: State, s': State)
    requires WriterOk(c, s) && WriterReads(c, s, s')
    ensures s.writer.WriterMeasured? && 0 < s.writer.aligned && IsWhole(c, s.writer.aligned)
    ensures Takes(c, s, s', s.writer.aligned, s.writer.aligned / c.recordChannels)
  {
    hide Samples, Peak, Takes, IsWhole;
    WholeIsDivisible(c, s.writer.aligned);
  }

  lemma TakingKeepsWriter(c: Config, s: State, s': State, samples: nat, frames: nat)
    requires WriterOk(c, s) && s.writer.WriterMeasured? && samples == Samples(frames, c.recordChannels)
    requires Takes(c, s, s', samples, frames)
    ensures WriterOk(c, s')
  {
    hide Samples, Peak, IsWhole;
    var ring, end := s.rec.ring, s'.rec.taken;
    assert ring[..s.rec.taken] + ring[s.rec.taken..end] == ring[..end];
  }

  lemma TakingKeepsRecording(c: Config, s: State, s': State, samples: nat, frames: nat)
    requires RecordingOk(c, s) && samples == Samples(frames, c.recordChannels)
    requires Takes(c, s, s', samples, frames)
    ensures RecordingOk(c, s')
  {
    hide Samples;
    SamplesAdd(s.rec.takenFrames, frames, c.recordChannels);
    if s.rec.takenFrames + frames > s.rec.ringFrames {
      SamplesMonotone(s.rec.ringFrames, s.rec.takenFrames + frames, c.recordChannels);
    }
  }

  lemma TakingKeepsRest(c: Config, s: State, s': State, samples: nat, frames: nat)
    requires Invariant(c, s) && s.writer.WriterMeasured? && Takes(c, s, s', samples, frames)
    ensures PlaybackOk(c, s') && OutputOk(c, s') && TimelineOk(c, s') && ControlOk(s')
  {
    hide AreDue, Samples, Peak, RecordingOk, WriterOk;
  }

  lemma ReadingKeepsInvariant(c: Config, s: State, s': State)
    requires Invariant(c, s) && WriterReads(c, s, s')
    ensures Invariant(c, s')
  {
    hide PlaybackOk, OutputOk, RecordingOk, WriterOk, ControlOk, TimelineOk, Takes;
    ReadIsWhole(c, s, s');
    var samples := s.writer.aligned;
    TakingKeepsWriter(c, s, s', samples, samples / c.recordChannels);
    TakingKeepsRecording(c, s, s', samples, samples / c.recordChannels);
    TakingKeepsRest(c, s, s', samples, samples / c.recordChannels);
  }

  lemma StoringKeepsInvariant(c: Config, s: State, s': State)
    requires Invariant(c, s) && WriterStores(c, s, s')
    ensures Invariant(c, s')
  {
    hide AreDue, Samples, Peak, IsWhole;
    PeakOfConcatenation(s.file.samples, s.writer.block);
  }

  lemma ClosingKeepsInvariant(c: Config, s: State, s': State)
    requires Invariant(c, s) && (WriterCloses(c, s, s') || WriterFails(c, s, s'))
    ensures Invariant(c, s')
  {
    hide AreDue, Samples, Peak, IsWhole;
  }

  lemma WriterLooksKeepInvariant(c: Config, s: State, s': State)
    requires Invariant(c, s) && WriterLooks(c, s, s')
    ensures Invariant(c, s')
  {
    hide AreDue, Samples, Peak, IsWhole;
  }

  lemma WriterKeepsInvariant(c: Config, s: State, s': State)
    requires Invariant(c, s) && WriterStep(c, s, s')
    ensures Invariant(c, s')
  {
    hide Invariant;
    if WriterMeasures(c, s, s') {
      MeasuringKeepsInvariant(c, s, s');
    } else if WriterReads(c, s, s') {
      ReadingKeepsInvariant(c, s, s');
    } else if WriterStores(c, s, s') {
      StoringKeepsInvariant(c, s, s');
    } else if WriterLooks(c, s, s') {
      WriterLooksKeepInvariant(c, s, s');
    } else {
      ClosingKeepsInvariant(c, s, s');
    }
  }

  // ---------------------------------------------------------------- the control thread

  lemma GivingUpKeepsInvariant(c: Config, s: State, s': State)
    requires Invariant(c, s) && ControlGivesUp(c, s, s')
    ensures Invariant(c, s')
  {
    hide AreDue, Samples, WriterOk, ConsumedBy;
    WriterStays(c, s, s');
  }

  lemma BreakingKeepsInvariant(c: Config, s: State, s': State)
    requires Invariant(c, s)
    requires ControlBreaks(c, s, s') || ControlChooses(c, s, s') || ControlClosesGate(c, s, s')
    ensures Invariant(c, s')
  {
    hide PlaybackOk, OutputOk, RecordingOk, WriterOk;
    DataStays(c, s, s');
  }

  lemma JoiningKeepsInvariant(c: Config, s: State, s': State)
    requires Invariant(c, s)
    requires ControlSeesNoCallback(c, s, s') || ControlRequestsStop(c, s, s') || ControlJoins(c, s, s')
    ensures Invariant(c, s')
  {
    hide PlaybackOk, OutputOk, RecordingOk, WriterOk;
    DataStays(c, s, s');
  }

  lemma DecidingKeepsInvariant(c: Config, s: State, s': State)
    requires Invariant(c, s) && ControlDecides(c, s, s')
    ensures Invariant(c, s')
  {
    hide PlaybackOk, OutputOk, RecordingOk, WriterOk;
    DataStays(c, s, s');
  }

  lemma ControlKeepsInvariant(c: Config, s: State, s': State)
    requires Invariant(c, s) && ControlStep(c, s, s')
    ensures Invariant(c, s')
  {
    hide Invariant, ControlGivesUp, ControlBreaks, ControlChooses, ControlClosesGate, ControlSeesNoCallback,
         ControlRequestsStop, ControlJoins, ControlDecides;
    if ControlGivesUp(c, s, s') {
      GivingUpKeepsInvariant(c, s, s');
    } else if ControlBreaks(c, s, s') || ControlChooses(c, s, s') || ControlClosesGate(c, s, s') {
      BreakingKeepsInvariant(c, s, s');
    } else if ControlDecides(c, s, s') {
      DecidingKeepsInvariant(c, s, s');
    } else {
      JoiningKeepsInvariant(c, s, s');
    }
  }

  // ---------------------------------------------------------------- every step, every run

  lemma StepKeepsInvariant(c: Config, s: State, s': State)
    requires Invariant(c, s) && Step(c, s, s')
    ensures Invariant(c, s')
  {
    hide Invariant, ProducerStep, CallbackStep, WriterStep, ControlStep;
    if ProducerStep(c, s, s') {
      ProducerKeepsInvariant(c, s, s');
    } else if CallbackStep(c, s, s') {
      CallbackKeepsInvariant(c, s, s');
    } else if WriterStep(c, s, s') {
      WriterKeepsInvariant(c, s, s');
    } else {
      ControlKeepsInvariant(c, s, s');
    }
  }

  lemma {:induction false} RunKeepsInvariant(c: Config, run: seq<State>, i: nat)
    requires IsRun(c, run) && i < |run|
    ensures Invariant(c, run[i])
  {
    hide Invariant, Step, Init;
    if i == 0 {
      InitIsInvariant(c, run[0]);
    } else {
      RunKeepsInvariant(c, run, i - 1);
      assert IsStep(c, run, i);
      StepKeepsInvariant(c, run[i - 1], run[i]);
    }
  }
}
