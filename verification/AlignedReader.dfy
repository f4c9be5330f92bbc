/**
 The aligned payload: a stretch of a recording, zero-filled past its end, times a gain.
 extract_frames is the simple form; AlignedPayloadReader streams the same samples through any
 chunks and any partial reads of the recording.
 */
module AlignedReader {
  import opened Arithmetic
  import opened FrameStreams
  import opened Wrappers

  const MAX_FRAME: int := 0x7fff_ffff_ffff_ffff

  // ---------------------------------------------------------------- the simple form

  /** The sample offset of a frame that may lie before the recording. */
  function SampleOffset(frame: int, channels: nat): int {
    if frame >= 0 then Samples(frame, channels) else -(Samples(-frame, channels) as int)
  }

  lemma SampleOffsetAdd(frame: int, count: nat, channels: nat)
    ensures SampleOffset(frame + count, channels) == SampleOffset(frame, channels) + Samples(count, channels)
  {
    if frame >= 0 {
      SamplesAdd(frame, count, channels);
    } else if frame + count >= 0 {
      SamplesAdd(frame + count, -frame, channels);
    } else {
      SamplesAdd(-frame - count, count, channels);
    }
  }

  /** A sample of the recording, or silence outside it. */
  function SampleOrZero(samples: seq<real>, i: int): real {
    if 0 <= i < |samples| then samples[i] else 0.0
  }

  /** Sample i of the frames from `start` on. */
  function StretchSample(samples: seq<real>, start: int, channels: nat, i: nat): real {
    SampleOrZero(samples, SampleOffset(start, channels) + i)
  }

  /** Sample i of the extract: `count` frames from `start` on, then silence. */
  function ExtractedSample(samples: seq<real>, start: int, count: nat, channels: nat, i: nat): real {
    if i < Samples(count, channels) then StretchSample(samples, start, channels, i) else 0.0
  }

  function Extracted(samples: seq<real>, start: int, count: nat, channels: nat, target: nat): (r: seq<real>)
    ensures |r| == Samples(target, channels)
  {
    seq(Samples(target, channels), i requires 0 <= i => ExtractedSample(samples, start, count, channels, i))
  }

  /** A trailing partial frame does not count. */
  function WholeFrames(samples: seq<real>, channels: pos): (r: seq<real>)
    ensures |r| == Samples(|samples| / channels, channels)
  {
    SamplesIsProduct(|samples| / channels, channels);
    samples[..Samples(|samples| / channels, channels)]
  }

  /** The copy of one frame, if it lies in the recording. */
  method ExtractFrame(samples: seq<real>, totalFrames: nat, start: int, channels: pos, result: array<real>, d: nat)
    requires |samples| == Samples(totalFrames, channels)
    requires Samples(d + 1, channels) <= result.Length
    requires forall i :: Samples(d, channels) <= i < Samples(d + 1, channels) ==> result[i] == 0.0
    modifies result
    ensures forall i :: Samples(d, channels) <= i < Samples(d + 1, channels) ==>
              result[i] == StretchSample(samples, start, channels, i)
    ensures forall i :: 0 <= i < result.Length && !(Samples(d, channels) <= i < Samples(d + 1, channels)) ==>
              result[i] == old(result[i])
  {
    var sourceFrame := start + d;
    SampleOffsetAdd(start, d, channels);
    SamplesAdd(d, 1, channels);
    OneFrame(channels);
    if sourceFrame < 0 {
      SampleOffsetAdd(sourceFrame, 1, channels);
      SamplesMonotone(0, -(sourceFrame + 1), channels);
    } else if sourceFrame >= totalFrames {
      SamplesMonotone(totalFrames, sourceFrame, channels);
    } else {
      var from, to := Samples(sourceFrame, channels), Samples(d, channels);
      SamplesAdd(sourceFrame, 1, channels);
      SamplesMonotone(sourceFrame + 1, totalFrames, channels);
      forall c | 0 <= c < channels {
        result[to + c] := samples[from + c];
      }
      assert forall i :: to <= i < to + channels ==> result[i] == samples[from + (i - to)];
    }
  }

  /** From a frame past the recording on everything is silence. */
  lemma BeyondTheEnd(samples: seq<real>, totalFrames: nat, start: int, d: nat, channels: pos)
    requires |samples| == Samples(totalFrames, channels) && totalFrames <= start + d
    ensures forall i {:trigger StretchSample(samples, start, channels, i)} ::
              Samples(d, channels) <= i ==> StretchSample(samples, start, channels, i) == 0.0
  {
    SampleOffsetAdd(start, d, channels);
    SamplesMonotone(totalFrames, start + d, channels);
  }

  /** The copy loop of extract_frames; frame numbers are 64 bits wide, so it may stop early. */
  method CopyStretch(samples: seq<real>, totalFrames: nat, start: int, channels: pos, result: array<real>, copied: nat)
    requires |samples| == Samples(totalFrames, channels) && totalFrames <= MAX_FRAME && start <= MAX_FRAME
    requires Samples(copied, channels) <= result.Length
    requires forall i :: 0 <= i < result.Length ==> result[i] == 0.0
    modifies result
    ensures forall i :: 0 <= i < Samples(copied, channels) ==>
              result[i] == StretchSample(samples, start, channels, i)
    ensures forall i :: Samples(copied, channels) <= i < result.Length ==> result[i] == 0.0
  {
    var d := 0;
    while d < copied
      invariant 0 <= d <= copied
      invariant forall i :: 0 <= i < Samples(d, channels) && i < result.Length ==>
                  result[i] == StretchSample(samples, start, channels, i)
      invariant forall i :: Samples(d, channels) <= i < result.Length ==> result[i] == 0.0
    {
      if start > MAX_FRAME - d {
        BeyondTheEnd(samples, totalFrames, start, d, channels);
        SamplesMonotone(d, copied, channels);
        break;
      }
      SamplesMonotone(d + 1, copied, channels);
      ExtractFrame(samples, totalFrames, start, channels, result, d);
      d := d + 1;
    }
  }

  /** extract_frames. */
  method ExtractFrames(samples: seq<real>, start: int, frameCount: int, channels: nat, target: int)
    returns (r: Result<seq<real>>)
    requires |samples| <= MAX_FRAME && start <= MAX_FRAME
    ensures r.Err? <==> channels == 0 || frameCount < 0 || target < 0
    ensures r.Err? ==> r.error == ValidationFailed
    ensures r.Ok? ==>
      r.value == Extracted(WholeFrames(samples, channels), start, Min(frameCount, target), channels, target)
  {
    if channels == 0 || frameCount < 0 || target < 0 {
      return Err(ValidationFailed);
    }
    var result := new real[Samples(target, channels)](_ => 0.0);
    var copied := Min(frameCount, target);
    SamplesMonotone(copied, target, channels);
    CopyStretch(WholeFrames(samples, channels), |samples| / channels, start, channels, result, copied);
    r := Ok(result[..]);
  }

  // ---------------------------------------------------------------- the stream

  /** What the payload makes of sample i of the recording, or of what lies behind it. */
  function PayloadSample(samples: seq<real>, gain: real, i: int): real {
    Gained(SampleOrZero(samples, i), gain)
  }

  /** At `offset` of the buffer lies the payload for samples `base`, `base` + 1, ... of the recording. */
  ghost predicate IsPayload(buffer: seq<real>, offset: nat, samples: seq<real>, base: nat, gain: real, count: nat) {
    && offset + count <= |buffer|
    && forall i :: offset <= i < offset + count ==> buffer[i] == PayloadSample(samples, gain, i - offset + base)
  }

  /** At `offset` of the buffer lie `count` samples of the recording, from sample `base` on. */
  ghost predicate Holds(buffer: seq<real>, offset: nat, samples: seq<real>, base: nat, count: nat) {
    && offset + count <= |buffer| && base + count <= |samples|
    && forall i :: offset <= i < offset + count ==> buffer[i] == samples[i - offset + base]
  }

  lemma SliceHolds(buffer: seq<real>, offset: nat, samples: seq<real>, base: nat, count: nat)
    requires offset + count <= |buffer| && base + count <= |samples|
    requires buffer[offset..offset + count] == samples[base..base + count]
    ensures Holds(buffer, offset, samples, base, count)
  {
    forall i | offset <= i < offset + count
      ensures buffer[i] == samples[i - offset + base]
    {
      assert buffer[i] == buffer[offset..offset + count][i - offset];
    }
  }

  lemma HoldsMore(was: seq<real>, buffer: seq<real>, offset: nat, samples: seq<real>, base: nat, a: nat, b: nat)
    requires Holds(was, offset, samples, base, a) && Holds(buffer, offset + a, samples, base + a, b)
    requires was[..offset + a] == buffer[..offset + a]
    ensures Holds(buffer, offset, samples, base, a + b)
  {
    forall i | offset <= i < offset + a + b
      ensures buffer[i] == samples[i - offset + base]
    {
      if i < offset + a {
        assert buffer[i] == buffer[..offset + a][i] == was[i];
      }
    }
  }

  lemma ReadHolds(was: seq<real>, buffer: seq<real>, offset: nat, samples: seq<real>, base: nat, a: nat, b: nat)
    requires offset + a + b <= |buffer| && base + a + b <= |samples|
    requires Holds(was, offset, samples, base, a) && was[..offset + a] == buffer[..offset + a]
    requires buffer[offset + a..offset + a + b] == samples[base + a..base + a + b]
    ensures Holds(buffer, offset, samples, base, a + b) && buffer[..offset] == was[..offset]
  {
    SliceHolds(buffer, offset + a, samples, base + a, b);
    HoldsMore(was, buffer, offset, samples, base, a, b);
    assert was[..offset] == was[..offset + a][..offset];
  }

  /** One read behind the `framesRead` frames that are already there. */
  method FillOnce(recording: FrameReader, destination: array<real>, offset: nat, framesRead: nat, frames: nat,
                  ghost base: nat)
    returns (read: int)
    requires recording.Valid() && framesRead < frames
    requires offset + Samples(frames, recording.channels) <= destination.Length
    requires Samples(recording.position, recording.channels) == base + Samples(framesRead, recording.channels)
    requires Holds(destination[..], offset, recording.samples, base, Samples(framesRead, recording.channels))
    modifies recording, destination
    ensures recording.Valid()
    ensures
      var more := if 1 <= read <= frames - framesRead then read else 0;
      && recording.position == old(recording.position) + more
      && Samples(recording.position, recording.channels) == base + Samples(framesRead + more, recording.channels)
      && Holds(destination[..], offset, recording.samples, base, Samples(framesRead + more, recording.channels))
    ensures destination[..offset] == old(destination[..offset])
    ensures recording.legal ==>
      0 <= read <= frames - framesRead && (read == 0 <==> old(recording.position) == recording.totalFrames)
  {
    hide Samples;
    var filled := Samples(framesRead, recording.channels);
    SamplesAdd(framesRead, frames - framesRead, recording.channels);
    ghost var was := destination[..];
    read := recording.ReadFrames(destination, offset + filled, frames - framesRead);
    ghost var more := if 1 <= read <= frames - framesRead then read else 0;
    SamplesAdd(framesRead, more, recording.channels);
    ReadHolds(was, destination[..], offset, recording.samples, base, filled, Samples(more, recording.channels));
  }

  /** The gain goes over the samples that were read, the rest of the request becomes silence. */
  method GainAndPad(destination: array<real>, offset: nat, filled: nat, count: nat, gain: real,
                    ghost samples: seq<real>, ghost base: nat, ghost legal: bool)
    requires filled <= count && offset + count <= destination.Length
    requires legal && filled > 0 ==> Holds(destination[..], offset, samples, base, filled)
    requires legal && filled < count ==> |samples| <= base + filled
    modifies destination
    ensures legal ==> IsPayload(destination[..], offset, samples, base, gain, count)
    ensures destination[..offset] == old(destination[..offset])
  {
    hide IsPayload, Scaled;
    ghost var was := destination[offset..offset + filled];
    ScaleInPlace(destination, offset, offset + filled, gain);
    ghost var scaled := destination[offset..offset + filled];
    forall i | offset + filled <= i < offset + count {
      destination[i] := 0.0;
    }
    assert destination[offset..offset + filled] == scaled;
    if legal {
      GainedIsPayload(was, destination[..], offset, count, gain, samples, base);
    }
  }

  /** Gained samples of the recording, and silence behind its end, are payload. */
  lemma GainedIsPayload(was: seq<real>, now: seq<real>, offset: nat, count: nat, gain: real, samples: seq<real>,
                        base: nat)
    requires |was| <= count && offset + count <= |now| && now[offset..offset + |was|] == Scaled(was, gain)
    requires forall i :: offset + |was| <= i < offset + count ==> now[i] == 0.0
    requires |was| > 0 ==> base + |was| <= |samples| && was == samples[base..base + |was|]
    requires |was| < count ==> |samples| <= base + |was|
    ensures IsPayload(now, offset, samples, base, gain, count)
  {
    forall i | offset <= i < offset + count
      ensures now[i] == PayloadSample(samples, gain, i - offset + base)
    {
      if i < offset + |was| {
        ScaledAt(was, gain, i - offset);
        assert now[i] == now[offset..offset + |was|][i - offset];
        assert was[i - offset] == samples[base..base + |was|][i - offset];
      }
    }
  }

  /** AlignedPayloadReader over a recording that starts at frame `start`. */
  class PayloadReader {
    const recording: FrameReader
    const channels: pos
    const start: nat
    const frameCount: nat
    const gain: real
    var remaining: nat
    var ended: bool

    ghost predicate Valid()
      reads this, recording
    {
      && recording.Valid() && recording.channels == channels
      && start <= recording.totalFrames && remaining <= frameCount
      && (recording.legal ==>
            && recording.position == Min(start + Done(), recording.totalFrames)
            && (ended ==> recording.position == recording.totalFrames))
    }

    /** The payload frames handed out so far. */
    ghost function Done(): nat
      requires remaining <= frameCount
      reads this
    {
      frameCount - remaining
    }

    constructor (recording: FrameReader, frameCount: nat, gain: real)
      requires recording.Valid()
      ensures Valid() && Done() == 0 && this.recording == recording && this.channels == recording.channels
      ensures this.start == recording.position && this.frameCount == frameCount && this.gain == gain
    {
      this.recording := recording;
      this.channels := recording.channels;
      this.start := recording.position;
      this.frameCount := frameCount;
      this.gain := gain;
      this.remaining := frameCount;
      this.ended := false;
    }

    /** What was read of the recording is part of it. */
    lemma PositionFits()
      requires recording.Valid()
      ensures Samples(recording.position, recording.channels) <= |recording.samples|
    {
    }

    /** The inner loop: partial reads follow each other until the request is met or the recording ends. */
    method Fill(destination: array<real>, offset: nat, frames: nat) returns (r: Result<nat>)
      requires recording.Valid() && recording.channels == channels && !ended
      requires offset + Samples(frames, channels) <= destination.Length
      modifies this`ended, recording, destination
      ensures recording.Valid()
      ensures r.Err? ==> r.error == BackendFailure && !recording.legal
      ensures r.Ok? ==>
        && r.value <= frames && ended == (r.value < frames)
        && recording.position == old(recording.position) + r.value
        && (ended && recording.legal ==> recording.position == recording.totalFrames)
        && Holds(destination[..], offset, recording.samples, Samples(old(recording.position), channels),
                 Samples(r.value, channels))
      ensures destination[..offset] == old(destination[..offset])
    {
      hide Samples;
      NoSamples(channels);
      var framesRead := 0;
      ghost var base := Samples(recording.position, channels);
      SamplesMonotone(0, frames, channels);
      PositionFits();
      while framesRead < frames
        invariant recording.Valid() && framesRead <= frames && !ended
        invariant recording.position == old(recording.position) + framesRead
        invariant Samples(recording.position, channels) == base + Samples(framesRead, channels)
        invariant destination[..offset] == old(destination[..offset])
        invariant Holds(destination[..], offset, recording.samples, base, Samples(framesRead, channels))
      {
        var read := FillOnce(recording, destination, offset, framesRead, frames, base);
        if read < 0 || read > frames - framesRead {
          return Err(BackendFailure);
        }
        if read == 0 {
          ended := true;
          break;
        }
        framesRead := framesRead + read;
      }
      r := Ok(framesRead);
    }

    /** Where the recording ended inside a request, what lies behind it is past its last sample. */
    lemma PastTheEnd(first: nat, from: nat, framesRead: nat)
      requires recording.Valid() && from + framesRead == recording.totalFrames && recording.channels == channels
      requires from == first || (framesRead == 0 && recording.totalFrames <= first)
      ensures |recording.samples| <= Samples(first, channels) + Samples(framesRead, channels)
    {
      SamplesAdd(first, framesRead, channels);
      SamplesMonotone(recording.totalFrames, first + framesRead, channels);
    }

    /** read_frames: the next frames of the payload, however the recording is handed out. */
    method ReadFrames(destination: array<real>, offset: nat, frames: nat) returns (r: Result<nat>)
      requires Valid() && offset + Samples(frames, channels) <= destination.Length
      modifies this, recording, destination
      ensures r.Err? ==> r.error == BackendFailure && !recording.legal
      ensures r.Ok? ==>
        && Valid() && r.value == Min(old(remaining), frames) && remaining == old(remaining) - r.value
        && (recording.legal ==>
              IsPayload(destination[..], offset, recording.samples, Samples(start + old(Done()), channels), gain,
                        Samples(r.value, channels)))
      ensures destination[..offset] == old(destination[..offset])
    {
      var requested := Min(remaining, frames);
      if requested == 0 {
        return Ok(0);
      }
      SamplesMonotone(requested, frames, channels);
      ghost var base := Samples(start + Done(), channels);
      var framesRead := 0;
      if !ended {
        r := Fill(destination, offset, requested);
        if r.Err? {
          return;
        }
        framesRead := r.value;
      }
      SamplesMonotone(framesRead, requested, channels);
      if recording.legal && framesRead < requested {
        PastTheEnd(start + old(Done()), old(recording.position), framesRead);
      }
      GainAndPad(destination, offset, Samples(framesRead, channels), Samples(requested, channels), gain,
                 recording.samples, base, recording.legal);
      remaining := remaining - requested;
      r := Ok(requested);
    }
  }

  // ---------------------------------------------------------------- the two forms agree

  /** The whole payload: the stretch of the recording from `start` on, silence behind it, gained. */
  function Payload(samples: seq<real>, start: nat, count: nat, channels: nat, gain: real): seq<real> {
    Scaled(Extracted(samples, start, count, channels, count), gain)
  }

  /** A buffer that holds the payload of `count` frames from its first sample on is the payload. */
  lemma IsPayloadIsExtract(buffer: seq<real>, samples: seq<real>, start: nat, count: nat, channels: nat, gain: real)
    requires |buffer| == Samples(count, channels)
    requires IsPayload(buffer, 0, samples, Samples(start, channels), gain, |buffer|)
    ensures buffer == Payload(samples, start, count, channels, gain)
  {
    var extract := Extracted(samples, start, count, channels, count);
    forall i: nat | i < |buffer|
      ensures buffer[i] == Scaled(extract, gain)[i]
    {
      ScaledAt(extract, gain, i);
      assert buffer[i] == PayloadSample(samples, gain, i - 0 + Samples(start, channels));
    }
  }

  lemma IsPayloadMore(was: seq<real>, buffer: seq<real>, samples: seq<real>, base: nat, gain: real, a: nat, b: nat)
    requires a + b <= |buffer| && IsPayload(was, 0, samples, base, gain, a) && was[..a] == buffer[..a]
    requires IsPayload(buffer, a, samples, base + a, gain, b)
    ensures IsPayload(buffer, 0, samples, base, gain, a + b)
  {
    forall i | 0 <= i < a + b
      ensures buffer[i] == PayloadSample(samples, gain, i - 0 + base)
    {
      if i < a {
        assert buffer[i] == buffer[..a][i] == was[i];
      }
    }
  }

  lemma ChunkFits(start: nat, done: nat, frames: nat, frameCount: nat, channels: nat)
    requires done + frames <= frameCount
    ensures Samples(done + frames, channels) == Samples(done, channels) + Samples(frames, channels)
    ensures Samples(done + frames, channels) <= Samples(frameCount, channels)
    ensures Samples(start + done, channels) == Samples(start, channels) + Samples(done, channels)
  {
    SamplesAdd(done, frames, channels);
    SamplesAdd(start, done, channels);
    SamplesMonotone(done + frames, frameCount, channels);
  }

  /** AlignedCapturePayload::materialize: any chunk size gives the same samples. */
  method Materialize(recording: FrameReader, frameCount: nat, gain: real, chunkFrames: nat)
    returns (r: Result<seq<real>>)
    requires recording.Valid()
    modifies recording
    ensures chunkFrames == 0 <==> r == Err(ValidationFailed)
    ensures r.Ok? && recording.legal ==>
      r.value == Payload(recording.samples, old(recording.position), frameCount, recording.channels, gain)
    ensures chunkFrames > 0 && recording.legal ==> r.Ok?
  {
    hide Payload, Holds, Samples, Gained, SampleOrZero;
    NoSamples(recording.channels);
    if chunkFrames == 0 {
      return Err(ValidationFailed);
    }
    var channels := recording.channels;
    var reader := new PayloadReader(recording, frameCount, gain);
    var result := new real[Samples(frameCount, channels)];
    ghost var base := Samples(reader.start, channels);
    while reader.remaining > 0
      invariant reader.Valid() && Samples(reader.Done(), channels) <= result.Length
      invariant recording.legal ==>
        IsPayload(result[..], 0, recording.samples, base, gain, Samples(reader.Done(), channels))
    {
      var done := frameCount - reader.remaining;
      var frames := Min(reader.remaining, chunkFrames);
      var offset := Samples(done, channels);
      ChunkFits(reader.start, done, frames, frameCount, channels);
      ghost var was := result[..];
      var read := reader.ReadFrames(result, offset, frames);
      if read.Err? {
        return Err(read.error);
      }
      if recording.legal {
        IsPayloadMore(was, result[..], recording.samples, base, gain, offset, Samples(frames, channels));
      }
    }
    if recording.legal {
      IsPayloadIsExtract(result[..], recording.samples, reader.start, frameCount, channels, gain);
    }
    r := Ok(result[..]);
  }
}
