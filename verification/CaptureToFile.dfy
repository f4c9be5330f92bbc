/** The end of the path: the aligned payload as a WAV file, and what a reader of that file finds. */
module CaptureToFile {
  import opened AlignedReader
  import opened Arithmetic
  import opened EndToEnd
  import FakeLoopback
  import opened FrameSources
  import opened FrameStreams
  import opened MarkerDetection
  import opened MarkerEvaluation
  import opened MarkerSelection
  import opened PcmCodec
  import PlaybackPlan
  import opened WavFormat
  import opened WavSamples
  import opened Wrappers

  /** Channel c of frame i is in the file as its quantised value. */
  ghost predicate IsWrittenAt(s: Session, samples: seq<real>, bits: pos, i: nat, c: nat) {
    && Samples(i, s.setup.recordChannels) + c < |samples|
    && samples[Samples(i, s.setup.recordChannels) + c] == Dequantized(Quantized(SourceSample(s, i, c), bits), bits)
  }

  /** Reading the file gives the frames of the gained source, quantised, and nothing else. */
  ghost predicate HoldsSource(s: Session, file: seq<byte>, bits: pos, ieee: nat -> real) {
    && DescriptorOf(file).Ok?
    && var d := DescriptorOf(file).value;
       && d.totalFrames == s.source.totalFrames && d.format.channels == s.setup.recordChannels
       && d.format.sampleRate == LlRound(s.rate)
       && forall i: nat, c: nat {:trigger SourceSample(s, i, c)} ::
            i < s.source.totalFrames && c < s.setup.recordChannels ==>
              IsWrittenAt(s, AllSamples(file, d, ieee), bits, i, c)
  }

  lemma SourceIsAt(s: Session, payload: seq<real>, i: nat, c: nat)
    requires IsGainedSource(s, payload) && i < s.source.totalFrames && c < s.setup.recordChannels
    ensures Samples(i, s.setup.recordChannels) + c < |payload|
    ensures payload[Samples(i, s.setup.recordChannels) + c] == SourceSample(s, i, c)
  {
    hide SourceSample, Samples;
    var x := SourceSample(s, i, c);
    assert HasSource(s, payload, i, c);
  }

  lemma WrittenPayloadHoldsSource(s: Session, payload: seq<real>, bits: pos, ieee: nat -> real)
    requires IsGainedSource(s, payload) && MINIMUM_RATE <= s.rate
    requires LlRound(s.rate) >= 0
    requires Output(s.source.totalFrames, LlRound(s.rate), s.setup.recordChannels, bits).Fits()
    ensures
      var o := Output(s.source.totalFrames, LlRound(s.rate), s.setup.recordChannels, bits);
      HoldsSource(s, FileBytes(o, Encoded(payload, bits)), bits, ieee)
  {
    hide Quantized, Dequantized, Encoded, FileBytes, DescriptorOf, SourceSample, LlRound, Samples, AllSamples,
         HasSource;
    var o := Output(s.source.totalFrames, LlRound(s.rate), s.setup.recordChannels, bits);
    var file := FileBytes(o, Encoded(payload, bits));
    LlRoundIsNear(s.rate);
    SamplesNest(o.frames, o.channels, bits / 8);
    ContainerRoundTrip(o, Encoded(payload, bits));
    forall i: nat, c: nat | i < s.source.totalFrames && c < s.setup.recordChannels
      ensures IsWrittenAt(s, AllSamples(file, DescriptorOf(file).value, ieee), bits, i, c)
    {
      SourceIsAt(s, payload, i, c);
      WavRoundTrip(o, payload, ieee, Samples(i, s.setup.recordChannels) + c);
    }
  }

  /** Channel c of frame i of the returned source is in the file as its quantised value. */
  ghost predicate IsStoredAt(source: Asset, routeChannels: nat, recordChannels: pos, gain: real, loopbackGain: real,
                             recordingGain: real, samples: seq<real>, bits: pos, i: nat, c: nat)
  {
    var x := ReturnedSource(source, routeChannels, gain, loopbackGain, recordingGain, i, c);
    FakeLoopback.HoldsAt(samples, Samples(i, recordChannels) + c, Dequantized(Quantized(x, bits), bits))
  }

  /** Reading the file gives the frames of the returned source, quantised, and nothing else. */
  ghost predicate HoldsReturnedSource(source: Asset, rate: real, routeChannels: nat, recordChannels: pos, gain: real,
                                      loopbackGain: real, recordingGain: real, file: seq<byte>, bits: pos,
                                      ieee: nat -> real)
  {
    && DescriptorOf(file).Ok?
    && var d := DescriptorOf(file).value;
       && d.totalFrames == source.totalFrames && d.format.channels == recordChannels
       && IsRounded(rate, 0, d.format.sampleRate)
       && var samples := AllSamples(file, d, ieee);
       && forall i: nat, c: nat :: i < source.totalFrames && c < recordChannels ==>
            IsStoredAt(source, routeChannels, recordChannels, gain, loopbackGain, recordingGain, samples, bits, i, c)
  }

  lemma HeldSourceIsReturned(source: Asset, rate: real, gain: real, markerLevel: real, plan: PlaybackPlan.Plan,
                             routeChannels: nat, recordChannels: pos, latency: nat, loopbackGain: real,
                             recordingGain: real, file: seq<byte>, bits: pos, ieee: nat -> real)
    requires rate >= 0.0 && AlignmentPlan(source, rate, gain, markerLevel) == Ok(plan)
    requires
      var s := SessionFor(source, rate, gain, markerLevel, plan, routeChannels, recordChannels, latency, loopbackGain,
                          recordingGain);
      HoldsSource(s, file, bits, ieee)
    ensures HoldsReturnedSource(source, rate, routeChannels, recordChannels, gain, loopbackGain, recordingGain, file,
                                bits, ieee)
  {
    hide LlRound, SourceSample, ReturnedSource, Quantized, Dequantized, DescriptorOf, AllSamples, Samples;
    var s := SessionFor(source, rate, gain, markerLevel, plan, routeChannels, recordChannels, latency, loopbackGain,
                        recordingGain);
    var samples := AllSamples(file, DescriptorOf(file).value, ieee);
    LlRoundIsRounded(rate, 0);
    LlRoundIsNear(rate);
    forall i: nat, c: nat | i < source.totalFrames && c < recordChannels
      ensures IsStoredAt(source, routeChannels, recordChannels, gain, loopbackGain, recordingGain, samples, bits, i, c)
    {
      SourceSampleIsReturned(source, rate, gain, markerLevel, plan, routeChannels, recordChannels, latency,
                             loopbackGain, recordingGain, i, c);
      var x := SourceSample(s, i, c);
      assert IsWrittenAt(s, samples, bits, i, c);
    }
    var d := DescriptorOf(file).value;
    assert d.totalFrames == source.totalFrames;
    assert d.format.channels == recordChannels;
    assert IsRounded(rate, 0, d.format.sampleRate);
  }

  /**
   The whole of a capture over the loopback device, down to the bytes of its output, for which the
   aligned payload is streamed into the WAV writer: for every latency below one marker interval and
   every output that fits, the file reads back as the source at the product of the gains, quantised
   to the bit depth.
   */
  method CaptureToWav(
      source: Asset, rate: real, gain: real, markerLevel: real, routeChannels: nat, recordChannels: pos,
      latency: nat, loopbackGain: real, recordingGain: real, sqrt: real -> real, bits: pos,
      blockFrames: pos, chunkFrames: pos, played: seq<Grant>, searched: seq<Grant>, written: seq<Grant>,
      ghost ieee: nat -> real)
    returns (r: Result<seq<byte>>)
    requires source.Valid() && MINIMUM_RATE <= rate <= MAXIMUM_RATE && IsSquareRoot(sqrt)
    requires AllLegal(played) && AllLegal(searched) && AllLegal(written)
    ensures
      && IsCleanCapture(source, rate, gain, markerLevel, routeChannels, latency, loopbackGain, recordingGain)
      && IsWritable(source.totalFrames, rate, recordChannels, bits) ==>
        r.Ok? && HoldsReturnedSource(source, rate, routeChannels, recordChannels, gain, loopbackGain, recordingGain,
                                     r.value, bits, ieee)
    ensures
      var plan := AlignmentPlan(source, rate, gain, markerLevel);
      plan.Ok? ==>
        var s := SessionFor(source, rate, gain, markerLevel, plan.value, routeChannels, recordChannels, latency,
                            loopbackGain, recordingGain);
        && (s.IsClean() && CapacityError(source.totalFrames, rate, recordChannels, bits) == None ==>
              r.Ok? && HoldsSource(s, r.value, bits, ieee))
        && (!s.Valid() ==> r == Err(ValidationFailed))
        && (s.Valid() && Heard(s) <= 2 ==> r == Err(AlignmentFailed))
  {
    hide HoldsSource, IsGainedSource, CapacityError, LlRound, Encoded, FileBytes, DescriptorOf, FrameRange, Payload,
         FakeLoopback.DelayedFrames, FakeLoopback.Played, ArrivalsBefore, PlaybackPlan.IsPlan, SearchRange, Samples,
         IsCleanCapture, HoldsReturnedSource, IsWritable, DecidesSession, Session.Valid;
    AcceptedIsWritable(source.totalFrames, rate, recordChannels, bits);
    CleanCaptureIsClean(source, rate, gain, markerLevel, routeChannels, recordChannels, latency, loopbackGain,
                        recordingGain);
    var aligned := CaptureAndAlign(source, rate, gain, markerLevel, routeChannels, recordChannels, latency,
                                   loopbackGain, recordingGain, sqrt, blockFrames, chunkFrames, played, searched);
    ghost var plan := AlignmentPlan(source, rate, gain, markerLevel);
    if plan.Ok? {
      ghost var s := SessionFor(source, rate, gain, markerLevel, plan.value, routeChannels, recordChannels, latency,
                                loopbackGain, recordingGain);
      RefusedIsDecided(s, aligned);
      if s.IsClean() {
        CleanIsDecided(s, aligned);
      }
    }
    if aligned.Err? {
      return Err(aligned.error);
    }
    var (recorded, alignment) := aligned.value;
    var reader := new FrameReader(recorded.samples, recordChannels, recorded.totalFrames, alignment.start, written);
    var payload := new PayloadReader(reader, alignment.frames, alignment.gain);
    var stream := Aligned(payload);
    stream.StreamLength();
    r := WriteWav(stream, source.totalFrames, rate, recordChannels, bits, chunkFrames);
    if plan.Ok? {
      ghost var s := SessionFor(source, rate, gain, markerLevel, plan.value, routeChannels, recordChannels, latency,
                                loopbackGain, recordingGain);
      if s.IsClean() && r.Ok? {
        PayloadIsSource(s, stream.Stream());
        WholeRange(stream.Stream(), recordChannels, source.totalFrames);
        AcceptedFits(source.totalFrames, rate, recordChannels, bits);
        WrittenPayloadHoldsSource(s, stream.Stream(), bits, ieee);
        HeldSourceIsReturned(source, rate, gain, markerLevel, plan.value, routeChannels, recordChannels, latency,
                             loopbackGain, recordingGain, r.value, bits, ieee);
      }
    }
  }

  lemma WholeRange(samples: seq<real>, channels: nat, frames: nat)
    requires |samples| == Samples(frames, channels)
    ensures FrameRange(samples, channels, 0, frames) == samples
  {
  }
}
