/**
 The fake loopback device.  It walks over the recording frame by frame and keeps a sliding window
 of the source; what it records is the planned playback, delayed by the padding and the latency.
 */
module FakeLoopback {
  import opened AlignedReader
  import opened Arithmetic
  import opened FrameStreams
  import opened PlaybackPlan
  import opened Wrappers

  // ---------------------------------------------------------------- the source window

  datatype Loaded = Ready | OutOfSequence | SourceEnded

  /** source_chunk with source_chunk_start and source_chunk_count. */
  class SourceWindow {
    const reader: FrameReader
    const chunk: array<real>
    const chunkFrames: pos
    const totalFrames: nat
    var start: nat
    var count: nat

    ghost predicate Valid()
      reads this, reader, chunk
    {
      && reader.Valid() && chunk.Length == Samples(chunkFrames, reader.channels)
      && start + count == reader.position <= totalFrames
      && Samples(start, reader.channels) + Samples(count, reader.channels) == Samples(reader.position, reader.channels)
      && Holds(chunk[..], 0, reader.samples, Samples(start, reader.channels), Samples(count, reader.channels))
    }

    constructor (reader: FrameReader, chunkFrames: pos, totalFrames: nat)
      requires reader.Valid() && reader.position == 0
      ensures Valid() && start == 0 && count == 0 && fresh(chunk)
      ensures this.reader == reader && this.chunkFrames == chunkFrames && this.totalFrames == totalFrames
    {
      this.reader := reader;
      this.chunk := new real[Samples(chunkFrames, reader.channels)];
      this.chunkFrames := chunkFrames;
      this.totalFrames := totalFrames;
      this.start := 0;
      this.count := 0;
    }

    /** load_source_chunk: frames may be asked for again or next, never skipped. */
    method Load(frame: nat) returns (r: Loaded)
      requires Valid() && frame < totalFrames
      modifies this, reader, chunk
      ensures r == OutOfSequence <==> !(old(start) <= frame <= old(start + count))
      ensures r == Ready ==> Valid() && start <= frame < start + count
      ensures r == SourceEnded ==> !reader.legal || reader.totalFrames < totalFrames
    {
      if start <= frame < start + count {
        return Ready;
      }
      if frame != start + count {
        return OutOfSequence;
      }
      start := frame;
      count := 0;
      var requested := Min(totalFrames - frame, chunkFrames);
      SamplesMonotone(requested, chunkFrames, reader.channels);
      while count < requested
        invariant start == frame && count <= requested && Valid()
        modifies `count, reader, chunk
      {
        var read := FillOnce(reader, chunk, 0, count, requested, Samples(start, reader.channels));
        if read <= 0 || read > requested - count {
          return SourceEnded;
        }
        count := count + read;
      }
      return Ready;
    }

    /** The sample of a loaded frame is the sample of the source. */
    lemma LoadedSample(frame: nat, c: nat)
      requires Valid() && start <= frame < start + count && c < reader.channels
      ensures Samples(frame - start, reader.channels) + c < chunk.Length
      ensures Samples(frame, reader.channels) + c < |reader.samples|
      ensures chunk[Samples(frame - start, reader.channels) + c] == reader.samples[Samples(frame, reader.channels) + c]
    {
      SamplesAdd(start, frame - start, reader.channels);
      SamplesAdd(frame - start, 1, reader.channels);
      OneFrame(reader.channels);
      SamplesMonotone(frame - start + 1, count, reader.channels);
      assert chunk[..][Samples(frame - start, reader.channels) + c]
          == chunk[Samples(frame - start, reader.channels) + c];
    }
  }

  // ---------------------------------------------------------------- what is to be recorded

  /** The capture as asked for; `mapped` channels of the playback return on the recording. */
  datatype Setup = Setup(plan: Plan, recordChannels: pos, mapped: nat, padding: nat, latency: nat, gain: real)
  {
    ghost predicate Valid() {
      IsPlan(plan) && mapped <= plan.channels && mapped <= recordChannels
    }

    function TotalFrames(): int {
      padding + plan.playbackFrames + padding
    }

    /** The playback frame that arrives at recording frame f. */
    function PlaybackFrame(f: int): int {
      f - padding - latency
    }
  }

  /** What the device plays: the planned playback at the loopback gain. */
  ghost function Played(s: Setup, source: seq<real>): seq<real>
    requires s.Valid()
  {
    Scaled(Playback(s.plan, source), s.gain)
  }

  /** Channel c of the recording at frame f: what was played then, or silence. */
  function Delayed(s: Setup, played: seq<real>, f: int, c: int): real {
    var frame := s.PlaybackFrame(f);
    if 0 <= frame < s.plan.playbackFrames && 0 <= c < s.mapped then
      SampleOrZero(played, Samples(frame, s.plan.channels) + c)
    else 0.0
  }

  function DelayedFrame(s: Setup, played: seq<real>, f: int): (r: seq<real>)
    ensures |r| == s.recordChannels
  {
    seq(s.recordChannels, c => Delayed(s, played, f, c))
  }

  /** The recording of the `frames` frames from `first` on. */
  function DelayedFrames(s: Setup, played: seq<real>, first: nat, frames: nat): (r: seq<real>)
    ensures |r| == Samples(frames, s.recordChannels)
  {
    if frames == 0 then []
    else DelayedFrames(s, played, first, frames - 1) + DelayedFrame(s, played, first + frames - 1)
  }

  lemma {:induction false} DelayedFramesConcat(s: Setup, played: seq<real>, first: nat, a: nat, b: nat)
    ensures DelayedFrames(s, played, first, a + b)
         == DelayedFrames(s, played, first, a) + DelayedFrames(s, played, first + a, b)
    decreases b
  {
    if b > 0 {
      DelayedFramesConcat(s, played, first, a, b - 1);
      ConcatAssociates(DelayedFrames(s, played, first, a), DelayedFrames(s, played, first + a, b - 1),
                       DelayedFrame(s, played, first + a + b - 1));
    }
  }

  /** Frame f, channel c of the recording is the delayed sample of that frame and channel. */
  lemma {:induction false} DelayedFramesAt(s: Setup, played: seq<real>, frames: nat, f: nat, c: nat)
    requires f < frames && c < s.recordChannels
    ensures Samples(f, s.recordChannels) + c < Samples(frames, s.recordChannels)
    ensures DelayedFrames(s, played, 0, frames)[Samples(f, s.recordChannels) + c] == Delayed(s, played, f, c)
  {
    if f < frames - 1 {
      DelayedFramesAt(s, played, frames - 1, f, c);
    }
  }

  // ---------------------------------------------------------------- one playback frame

  /** A sample of a frame is on a marker exactly if the frame is one. */
  lemma MarkerFrame(p: Plan, frame: nat, c: nat)
    requires c < p.channels
    ensures OnMarker(p, |p.markers|, Samples(frame, p.channels) + c) <==> frame in p.markers
  {
    hide Samples;
    var i := Samples(frame, p.channels) + c;
    SamplesAdd(frame, 1, p.channels);
    OneFrame(p.channels);
    if frame in p.markers {
      var q :| 0 <= q < |p.markers| && p.markers[q] == frame;
      assert Covers(p.markers[q], p.channels, i);
    } else if OnMarker(p, |p.markers|, i) {
      var q :| 0 <= q < |p.markers| && Covers(p.markers[q], p.channels, i);
      CoversByFrame(p.markers[q], p.channels, frame, frame + 1, i);
    }
  }

  /** Before the source a frame is at the amplitude exactly if it is a marker. */
  lemma PreambleFrame(p: Plan, source: seq<real>, frame: nat, c: nat)
    requires IsPlan(p) && frame < p.sourceStart && c < p.channels
    ensures SampleOrZero(Playback(p, source), Samples(frame, p.channels) + c)
         == if frame in p.markers then p.Amplitude() else 0.0
  {
    SamplesAdd(frame, 1, p.channels);
    OneFrame(p.channels);
    SamplesMonotone(frame + 1, p.sourceStart, p.channels);
    PreambleAt(p, Samples(p.sourceStart, p.channels), Samples(frame, p.channels) + c);
    MarkerFrame(p, frame, c);
  }

  /** From the source start on a frame is the gained source frame. */
  lemma SourceFrame(p: Plan, source: seq<real>, frame: nat, c: nat)
    requires IsPlan(p) && p.sourceStart <= frame < p.playbackFrames && c < p.channels
    requires Samples(frame - p.sourceStart, p.channels) + c < |source|
    ensures SampleOrZero(Playback(p, source), Samples(frame, p.channels) + c)
         == Gained(source[Samples(frame - p.sourceStart, p.channels) + c], p.gain)
  {
    hide Preamble, Plan.HasMarkersInRange, Plan.HasIncreasingMarkers, Samples, Gained;
    var i := Samples(frame - p.sourceStart, p.channels) + c;
    var count := Min(|source|, Samples(p.totalFrames, p.channels));
    SamplesAdd(p.sourceStart, frame - p.sourceStart, p.channels);
    SamplesAdd(frame - p.sourceStart, 1, p.channels);
    OneFrame(p.channels);
    SamplesMonotone(frame - p.sourceStart + 1, p.totalFrames, p.channels);
    ScaledAt(source[..count], p.gain, i);
  }

  /** The combined gain of the source is the gain of the playback followed by that of the loopback. */
  lemma GainsCombine(x: real, g: real, h: real)
    ensures x * (g * h) == Gained(x * g, h)
  {
  }

  lemma PlayedAt(s: Setup, source: seq<real>, i: nat)
    requires s.Valid()
    ensures SampleOrZero(Played(s, source), i) == Gained(SampleOrZero(Playback(s.plan, source), i), s.gain)
  {
    if i < |Playback(s.plan, source)| {
      ScaledAt(Playback(s.plan, source), s.gain, i);
    }
  }

  // ---------------------------------------------------------------- the capture

  /** The source frame that is needed next once all recording frames before f are done. */
  function NextSource(s: Setup, f: int): int {
    Max(0, Min(s.plan.totalFrames, s.PlaybackFrame(f) - s.plan.sourceStart))
  }

  ghost predicate InStep(s: Setup, window: SourceWindow, f: int)
    reads window, window.reader, window.chunk
  {
    && window.Valid() && window.totalFrames == s.plan.totalFrames && window.reader.channels == s.plan.channels
    && window.start <= NextSource(s, f) <= window.start + window.count
  }

  lemma DelayedSample(s: Setup, source: seq<real>, frame: nat, c: nat)
    requires s.Valid() && frame < s.plan.playbackFrames && c < s.mapped
    ensures Delayed(s, Played(s, source), frame + s.padding + s.latency, c)
         == Gained(SampleOrZero(Playback(s.plan, source), Samples(frame, s.plan.channels) + c), s.gain)
  {
    hide Playback, Played, Samples, SampleOrZero, IsPlan;
    PlayedAt(s, source, Samples(frame, s.plan.channels) + c);
  }

  /** A marker arrives at the marker level. */
  lemma MarkerIsDelayed(s: Setup, source: seq<real>, frame: nat, c: nat)
    requires s.Valid() && frame < s.plan.playbackFrames && c < s.mapped && frame in s.plan.markers
    ensures s.plan.markerLevel * (s.plan.gain * s.gain)
         == Delayed(s, Played(s, source), frame + s.padding + s.latency, c)
  {
    hide Playback, Played, Samples, SampleOrZero, Delayed;
    DelayedSample(s, source, frame, c);
    PreambleFrame(s.plan, source, frame, c);
    GainsCombine(s.plan.markerLevel, s.plan.gain, s.gain);
  }

  /** The source arrives at the combined gain. */
  lemma SourceIsDelayed(s: Setup, source: seq<real>, frame: nat, c: nat)
    requires s.Valid() && s.plan.sourceStart <= frame < s.plan.playbackFrames && c < s.mapped
    requires Samples(frame - s.plan.sourceStart, s.plan.channels) + c < |source|
    ensures source[Samples(frame - s.plan.sourceStart, s.plan.channels) + c] * (s.plan.gain * s.gain)
         == Delayed(s, Played(s, source), frame + s.padding + s.latency, c)
  {
    hide Playback, Played, Samples, SampleOrZero, Delayed;
    DelayedSample(s, source, frame, c);
    SourceFrame(s.plan, source, frame, c);
    var sample := source[Samples(frame - s.plan.sourceStart, s.plan.channels) + c];
    assert Gained(sample, s.plan.gain) == sample * s.plan.gain;
    GainsCombine(sample, s.plan.gain, s.gain);
  }

  /** All else before the source is silent. */
  lemma SilenceIsDelayed(s: Setup, source: seq<real>, frame: nat, c: nat)
    requires s.Valid() && frame < s.plan.playbackFrames && c < s.mapped
    requires frame < s.plan.sourceStart && frame !in s.plan.markers
    ensures Delayed(s, Played(s, source), frame + s.padding + s.latency, c) == 0.0
  {
    hide Playback, Played, Samples, SampleOrZero, Delayed;
    DelayedSample(s, source, frame, c);
    PreambleFrame(s.plan, source, frame, c);
  }

  /** The sample of one mapped channel. */
  function CaptureSample(s: Setup, window: SourceWindow, ghost played: seq<real>, isMarker: bool, frame: nat, c: nat)
    : (r: real)
    requires s.Valid() && window.Valid() && window.reader.channels == s.plan.channels
    requires frame < s.plan.playbackFrames && c < s.mapped && (isMarker <==> frame in s.plan.markers)
    requires frame >= s.plan.sourceStart ==>
               window.start <= frame - s.plan.sourceStart < window.start + window.count
    requires played == Played(s, window.reader.samples)
    reads window, window.reader, window.chunk
    ensures r == Delayed(s, played, frame + s.padding + s.latency, c)
  {
    hide Playback, Played, Holds, Delayed, Samples, IsPlan;
    var sourceGain := s.plan.gain * s.gain;
    if isMarker then
      MarkerIsDelayed(s, window.reader.samples, frame, c);
      s.plan.markerLevel * sourceGain
    else if frame >= s.plan.sourceStart then
      window.LoadedSample(frame - s.plan.sourceStart, c);
      SourceIsDelayed(s, window.reader.samples, frame, c);
      window.chunk[Samples(frame - s.plan.sourceStart - window.start, s.plan.channels) + c] * sourceGain
    else
      SilenceIsDelayed(s, window.reader.samples, frame, c);
      0.0
  }

  method CaptureChannels(s: Setup, window: SourceWindow, ghost played: seq<real>, block: array<real>, at: nat,
                         frame: nat, isMarker: bool)
    requires s.Valid() && played == Played(s, window.reader.samples)
    requires window.Valid() && window.reader.channels == s.plan.channels && block != window.chunk
    requires frame < s.plan.playbackFrames && (isMarker <==> frame in s.plan.markers)
    requires frame >= s.plan.sourceStart ==>
               window.start <= frame - s.plan.sourceStart < window.start + window.count
    requires at + s.recordChannels <= block.Length
    requires forall i :: at <= i < at + s.recordChannels ==> block[i] == 0.0
    modifies block
    ensures block[at..at + s.recordChannels] == DelayedFrame(s, played, frame + s.padding + s.latency)
    ensures forall i :: 0 <= i < block.Length && !(at <= i < at + s.recordChannels) ==> block[i] == old(block[i])
  {
    for c := 0 to s.mapped
      invariant forall i :: at <= i < at + c ==>
                  block[i] == Delayed(s, played, frame + s.padding + s.latency, i - at)
      invariant forall i :: at + c <= i < at + s.recordChannels ==> block[i] == 0.0
      invariant forall i :: 0 <= i < block.Length && !(at <= i < at + s.recordChannels) ==> block[i] == old(block[i])
    {
      block[at + c] := CaptureSample(s, window, played, isMarker, frame, c);
    }
  }

  /** The body of the frame loop: all mapped channels of recording frame f, in a silent block. */
  method CaptureFrame(s: Setup, window: SourceWindow, ghost played: seq<real>, block: array<real>, at: nat, f: nat)
    returns (r: Loaded)
    requires s.Valid() && played == Played(s, window.reader.samples) && InStep(s, window, f) && block != window.chunk
    requires at + s.recordChannels <= block.Length
    requires forall i :: at <= i < at + s.recordChannels ==> block[i] == 0.0
    modifies window, window.reader, window.chunk, block
    ensures r != OutOfSequence
    ensures r == SourceEnded ==> !window.reader.legal || window.reader.totalFrames < s.plan.totalFrames
    ensures r == Ready ==> InStep(s, window, f + 1)
    ensures r == Ready ==> block[at..at + s.recordChannels] == DelayedFrame(s, played, f)
    ensures forall i :: 0 <= i < block.Length && !(at <= i < at + s.recordChannels) ==> block[i] == old(block[i])
  {
    hide Played, Holds;
    r := Ready;
    if f < s.padding || f - s.padding < s.latency {
      return;
    }
    var frame := f - s.padding - s.latency;
    if frame >= s.plan.playbackFrames {
      return;
    }
    var isMarker := frame in s.plan.markers;
    var sourceFrame := frame - s.plan.sourceStart;
    if sourceFrame >= 0 {
      r := window.Load(sourceFrame);
      if r != Ready {
        return;
      }
    }
    CaptureChannels(s, window, played, block, at, frame, isMarker);
  }

  /** One record_block: silence, then the frames from `first` on. */
  method CaptureBlock(s: Setup, window: SourceWindow, ghost played: seq<real>, block: array<real>, first: nat,
                      frames: nat)
    returns (r: Loaded)
    requires s.Valid() && played == Played(s, window.reader.samples) && InStep(s, window, first)
    requires block != window.chunk
    requires Samples(frames, s.recordChannels) <= block.Length
    modifies window, window.reader, window.chunk, block
    ensures r != OutOfSequence
    ensures r == SourceEnded ==> !window.reader.legal || window.reader.totalFrames < s.plan.totalFrames
    ensures r == Ready ==>
      && InStep(s, window, first + frames)
      && block[..Samples(frames, s.recordChannels)] == DelayedFrames(s, played, first, frames)
  {
    hide InStep, Played, DelayedFrame, Holds, IsPlan, Samples;
    var count := Samples(frames, s.recordChannels);
    NoSamples(s.recordChannels);
    forall i | 0 <= i < count {
      block[i] := 0.0;
    }
    for k := 0 to frames
      invariant InStep(s, window, first + k)
      invariant Samples(k, s.recordChannels) <= count
      invariant block[..Samples(k, s.recordChannels)] == DelayedFrames(s, played, first, k)
      invariant forall i :: Samples(k, s.recordChannels) <= i < count ==> block[i] == 0.0
    {
      var at := Samples(k, s.recordChannels);
      SamplesAdd(k, 1, s.recordChannels);
      OneFrame(s.recordChannels);
      SamplesMonotone(k + 1, frames, s.recordChannels);
      ghost var was := block[..at];
      r := CaptureFrame(s, window, played, block, at, first + k);
      if r != Ready {
        return;
      }
      assert block[..at] == was;
      assert block[..at + s.recordChannels] == was + block[at..at + s.recordChannels];
    }
    return Ready;
  }

  function SetupFor(plan: Plan, routeChannels: nat, recordChannels: pos, padding: nat, latency: nat,
                    gain: real): Setup
  {
    Setup(plan, recordChannels, Min(plan.channels, Min(routeChannels, recordChannels)), padding, latency, gain)
  }

  /** The channels that return are those of the playback that are routed and recorded. */
  lemma MappedChannels(plan: Plan, routeChannels: nat, recordChannels: pos, padding: nat, latency: nat, gain: real,
                       c: nat)
    ensures c < SetupFor(plan, routeChannels, recordChannels, padding, latency, gain).mapped
      <==> c < plan.channels && c < routeChannels && c < recordChannels
  {
  }

  /**
   Channel c of recorded frame f: the playback of the plan at the gain, `padding` and `latency` frames late, on the
   channels that are played, routed and recorded; everything else is silence.
   */
  ghost function Returned(plan: Plan, source: seq<real>, routeChannels: nat, padding: nat, latency: nat, gain: real,
                          f: nat, c: nat): real
    requires IsPlan(plan)
  {
    var frame := f - padding - latency;
    if c < plan.channels && c < routeChannels && 0 <= frame < plan.playbackFrames then
      Gained(SampleOrZero(Playback(plan, source), Samples(frame, plan.channels) + c), gain)
    else 0.0
  }

  /** Recorded are the padding, the playback and the padding again, with what returns in each frame. */
  ghost predicate IsRecording(plan: Plan, source: seq<real>, routeChannels: nat, recordChannels: pos, padding: nat,
                              latency: nat, gain: real, recording: seq<real>)
    requires IsPlan(plan)
  {
    && |recording| == Samples(padding + plan.playbackFrames + padding, recordChannels)
    && forall f: nat, c: nat {:trigger Returned(plan, source, routeChannels, padding, latency, gain, f, c)} ::
         f < padding + plan.playbackFrames + padding && c < recordChannels ==>
           HoldsAt(recording, Samples(f, recordChannels) + c,
                   Returned(plan, source, routeChannels, padding, latency, gain, f, c))
  }

  ghost predicate HoldsAt(samples: seq<real>, i: nat, x: real) {
    i < |samples| && samples[i] == x
  }

  lemma DelayedIsReturned(plan: Plan, source: seq<real>, routeChannels: nat, recordChannels: pos, padding: nat,
                          latency: nat, gain: real, f: nat, c: nat)
    requires IsPlan(plan) && c < recordChannels
    ensures
      var s := SetupFor(plan, routeChannels, recordChannels, padding, latency, gain);
      s.Valid() && Delayed(s, Played(s, source), f, c)
                     == Returned(plan, source, routeChannels, padding, latency, gain, f, c)
  {
    hide Played, Playback, IsPlan, Samples, SampleOrZero;
    var s := SetupFor(plan, routeChannels, recordChannels, padding, latency, gain);
    MappedChannels(plan, routeChannels, recordChannels, padding, latency, gain, c);
    var frame := s.PlaybackFrame(f);
    if 0 <= frame {
      PlayedAt(s, source, Samples(frame, plan.channels) + c);
    }
  }

  lemma DelayedIsRecording(plan: Plan, source: seq<real>, routeChannels: nat, recordChannels: pos, padding: nat,
                           latency: nat, gain: real)
    requires IsPlan(plan)
    ensures
      var s := SetupFor(plan, routeChannels, recordChannels, padding, latency, gain);
      s.Valid() && IsRecording(plan, source, routeChannels, recordChannels, padding, latency, gain,
                               DelayedFrames(s, Played(s, source), 0, s.TotalFrames()))
  {
    hide Played, Delayed, Returned, DelayedFrames, IsPlan, Samples;
    var s := SetupFor(plan, routeChannels, recordChannels, padding, latency, gain);
    DelayedIsReturned(plan, source, routeChannels, recordChannels, padding, latency, gain, 0, 0);
    PlanHasFrames(plan);
    var frames := padding + plan.playbackFrames + padding;
    var recording := DelayedFrames(s, Played(s, source), 0, frames);
    forall f: nat, c: nat {:trigger Returned(plan, source, routeChannels, padding, latency, gain, f, c)}
      | f < frames && c < recordChannels
      ensures HoldsAt(recording, Samples(f, recordChannels) + c,
                      Returned(plan, source, routeChannels, padding, latency, gain, f, c))
    {
      DelayedFramesAt(s, Played(s, source), frames, f, c);
      DelayedIsReturned(plan, source, routeChannels, recordChannels, padding, latency, gain, f, c);
    }
  }

  lemma PlanHasFrames(plan: Plan)
    requires IsPlan(plan)
    ensures plan.playbackFrames > 0 && plan.sourceStart >= 0 && plan.totalFrames >= 0
  {
  }

  /** The tail that the latency moved out of the recording is still read to its end. */
  method LoadRest(s: Setup, window: SourceWindow, f: int) returns (complete: bool)
    requires InStep(s, window, f)
    modifies window, window.reader, window.chunk
    ensures complete ==> window.reader.position == s.plan.totalFrames && window.reader.Valid()
    ensures !complete ==> !window.reader.legal || window.reader.totalFrames < s.plan.totalFrames
  {
    while window.start + window.count < window.totalFrames
      invariant window.Valid()
      decreases window.totalFrames - window.start - window.count
    {
      var loaded := window.Load(window.start + window.count);
      if loaded != Ready {
        return false;
      }
    }
    return true;
  }

  /** The block loop and the tail. */
  method CaptureAll(s: Setup, window: SourceWindow, ghost played: seq<real>, blockFrames: pos)
    returns (r: Result<seq<real>>)
    requires s.Valid() && played == Played(s, window.reader.samples) && InStep(s, window, 0)
    modifies window, window.reader, window.chunk
    ensures r.Ok? ==> r.value == DelayedFrames(s, played, 0, s.TotalFrames())
    ensures r.Ok? ==> window.reader.position == s.plan.totalFrames
    ensures r.Err? ==> r.error == SourceStreamFailure
    ensures r.Err? ==> !window.reader.legal || window.reader.totalFrames < s.plan.totalFrames
    ensures r.Ok? ==> s.plan.totalFrames <= window.reader.totalFrames
  {
    hide InStep, Played, DelayedFrame, Holds;
    var block := new real[Samples(blockFrames, s.recordChannels)];
    var file: seq<real> := [];
    var done := 0;
    while done < s.TotalFrames()
      invariant 0 <= done <= s.TotalFrames() && InStep(s, window, done)
      invariant file == DelayedFrames(s, played, 0, done)
    {
      var frames := Min(blockFrames, s.TotalFrames() - done);
      SamplesMonotone(frames, blockFrames, s.recordChannels);
      var loaded := CaptureBlock(s, window, played, block, done, frames);
      if loaded != Ready {
        return Err(SourceStreamFailure);
      }
      DelayedFramesConcat(s, played, 0, done, frames);
      file := file + block[..Samples(frames, s.recordChannels)];
      done := done + frames;
    }
    var complete := LoadRest(s, window, done);
    r := if complete then Ok(file) else Err(SourceStreamFailure);
  }

  /** The recording would not fit into 64-bit frame numbers. */
  predicate IsTooLong(plan: Plan, padding: nat) {
    padding > (MAX_FRAME - plan.playbackFrames) / 2
  }

  /** FakeAudioBackend::capture: any block size, any source chunk, any partial reads. */
  method Capture(plan: Plan, reader: FrameReader, routeChannels: nat, recordChannels: pos, padding: nat,
                 latency: nat, gain: real, blockFrames: pos, chunkFrames: pos)
    returns (r: Result<seq<real>>)
    requires reader.Valid() && reader.position == 0 && reader.channels == plan.channels
    modifies reader
    ensures r == Err(ValidationFailed) <==> !IsPlan(plan) || IsTooLong(plan, padding)
    ensures r == Err(ValidationFailed) <==>
      !IsPlayable(plan) || padding + plan.playbackFrames + padding > 0x7fff_ffff_ffff_ffff
    ensures r.Err? ==> r.error == ValidationFailed || r.error == SourceStreamFailure
    ensures r.Ok? ==>
      var s := SetupFor(plan, routeChannels, recordChannels, padding, latency, gain);
      && s.Valid() && r.value == DelayedFrames(s, Played(s, reader.samples), 0, s.TotalFrames())
      && IsRecording(plan, reader.samples, routeChannels, recordChannels, padding, latency, gain, r.value)
      && reader.position == plan.totalFrames
    ensures IsPlan(plan) && !IsTooLong(plan, padding) && reader.legal ==>
      (r.Ok? <==> plan.totalFrames <= reader.totalFrames)
  {
    hide IsPlan;
    PlanIsPlayable(plan);
    if !IsPlan(plan) || IsTooLong(plan, padding) {
      return Err(ValidationFailed);
    }
    var s := SetupFor(plan, routeChannels, recordChannels, padding, latency, gain);
    DelayedIsRecording(plan, reader.samples, routeChannels, recordChannels, padding, latency, gain);
    var window := new SourceWindow(reader, chunkFrames, plan.totalFrames);
    r := CaptureAll(s, window, Played(s, reader.samples), blockFrames);
  }
}
