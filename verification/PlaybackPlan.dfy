/**
 What one capture plays: a train of one-frame markers in silence, then the gained source.
 Playback is the one-line meaning; Materialize builds it in memory, PlaybackProducer streams it.
 */
module PlaybackPlan {
  import opened Arithmetic
  import opened FrameStreams
  import opened Wrappers

  /** CapturePassPlaybackPlan; markerLevel is the linear level of a marker before the gain. */
  datatype Plan = Plan(
    channels: pos, totalFrames: int, playbackFrames: int, markers: seq<int>, sourceStart: int,
    gain: real, markerLevel: real)
  {
    predicate HasValidDescriptor() {
      && playbackFrames > 0 && 0 <= sourceStart <= playbackFrames
      && totalFrames == playbackFrames - sourceStart
    }

    predicate HasMarkersInRange() {
      forall q :: 0 <= q < |markers| ==> 0 <= markers[q] < sourceStart
    }

    predicate HasIncreasingMarkers() {
      forall q, r :: 0 <= q < r < |markers| ==> markers[q] < markers[r]
    }

    function Amplitude(): real {
      markerLevel * gain
    }
  }

  /** The plan every backend accepts. */
  predicate IsPlan(p: Plan) {
    p.HasValidDescriptor() && p.HasMarkersInRange() && p.HasIncreasingMarkers()
  }

  /** Markers in increasing order before the source, and the source up to the end of the playback. */
  ghost predicate IsPlayable(p: Plan) {
    && p.playbackFrames > 0 && p.sourceStart >= 0 && p.totalFrames >= 0
    && p.sourceStart + p.totalFrames == p.playbackFrames
    && (forall m | m in p.markers :: 0 <= m < p.sourceStart)
    && (forall q, r | 0 <= q < r < |p.markers| :: p.markers[q] < p.markers[r])
  }

  lemma PlanIsPlayable(p: Plan)
    ensures IsPlan(p) <==> IsPlayable(p)
  {
    if IsPlayable(p) {
      forall q | 0 <= q < |p.markers| ensures 0 <= p.markers[q] < p.sourceStart {
        assert p.markers[q] in p.markers;
      }
    }
  }

  /** Sample i belongs to the marker frame. */
  predicate Covers(marker: int, channels: nat, i: int) {
    marker >= 0 && Samples(marker, channels) <= i < Samples(marker + 1, channels)
  }

  ghost predicate OnMarker(p: Plan, count: nat, i: int) {
    exists q {:trigger Covers(p.markers[q], p.channels, i)} ::
      0 <= q < count && q < |p.markers| && Covers(p.markers[q], p.channels, i)
  }

  ghost function PreambleSample(p: Plan, count: nat, i: int): real {
    if OnMarker(p, count, i) then p.Amplitude() else 0.0
  }

  ghost function PreambleUpTo(p: Plan, samples: nat): (r: seq<real>)
    ensures |r| == samples
  {
    if samples == 0 then []
    else PreambleUpTo(p, samples - 1) + [PreambleSample(p, |p.markers|, samples - 1)]
  }

  /** Silence up to the source, with every channel of every marker frame at the amplitude. */
  ghost function Preamble(p: Plan): (r: seq<real>)
    requires p.sourceStart >= 0
    ensures |r| == Samples(p.sourceStart, p.channels)
  {
    PreambleUpTo(p, Samples(p.sourceStart, p.channels))
  }

  lemma {:induction false} PreambleAt(p: Plan, samples: nat, i: nat)
    requires i < samples
    ensures PreambleUpTo(p, samples)[i] == PreambleSample(p, |p.markers|, i)
  {
    if i < samples - 1 {
      PreambleAt(p, samples - 1, i);
    }
  }

  /** The source as played: as much of the declared frames as there is, gained. */
  ghost function GainedSource(p: Plan, source: seq<real>): seq<real>
    requires p.totalFrames >= 0
  {
    Scaled(source[..Min(|source|, Samples(p.totalFrames, p.channels))], p.gain)
  }

  ghost function Playback(p: Plan, source: seq<real>): seq<real>
    requires p.sourceStart >= 0 && p.totalFrames >= 0
  {
    Preamble(p) + GainedSource(p, source)
  }

  /** What has been played after `frames` frames of the source. */
  ghost function PlayedUpTo(p: Plan, source: seq<real>, frames: nat): seq<real>
    requires p.sourceStart >= 0 && Samples(frames, p.channels) <= |source|
  {
    Preamble(p) + Scaled(source[..Samples(frames, p.channels)], p.gain)
  }

  /** The next `read` frames of the source follow, gained, on what has been played. */
  lemma PlayedGrows(p: Plan, source: seq<real>, frames: nat, read: nat)
    requires p.sourceStart >= 0 && Samples(frames + read, p.channels) <= |source|
    ensures Samples(frames, p.channels) <= Samples(frames + read, p.channels)
    ensures PlayedUpTo(p, source, frames + read)
         == PlayedUpTo(p, source, frames)
            + Scaled(source[Samples(frames, p.channels)..Samples(frames + read, p.channels)], p.gain)
  {
    SamplesMonotone(frames, frames + read, p.channels);
    var a, b := Samples(frames, p.channels), Samples(frames + read, p.channels);
    ScaledSlices(source, a, b, p.gain);
    ConcatAssociates(Preamble(p), Scaled(source[..a], p.gain), Scaled(source[a..b], p.gain));
  }

  /** A source that keeps its declared length is played completely, nothing more and nothing less. */
  lemma PlaybackLength(p: Plan, source: seq<real>)
    requires p.HasValidDescriptor() && |source| >= Samples(p.totalFrames, p.channels)
    ensures |Playback(p, source)| == Samples(p.playbackFrames, p.channels)
  {
    SamplesAdd(p.sourceStart, p.totalFrames, p.channels);
  }

  lemma PlayedAll(p: Plan, source: seq<real>)
    requires p.HasValidDescriptor() && Samples(p.totalFrames, p.channels) <= |source|
    ensures PlayedUpTo(p, source, p.totalFrames) == Playback(p, source)
    ensures |Playback(p, source)| == Samples(p.playbackFrames, p.channels)
  {
    PlaybackLength(p, source);
  }

  lemma PlayedIsPrefix(p: Plan, source: seq<real>, frames: nat)
    requires p.HasValidDescriptor() && frames <= p.totalFrames && Samples(frames, p.channels) <= |source|
    ensures PlayedUpTo(p, source, frames) <= Playback(p, source)
  {
    var a, b := Samples(frames, p.channels), Min(|source|, Samples(p.totalFrames, p.channels));
    SamplesMonotone(frames, p.totalFrames, p.channels);
    ScaledSlices(source, a, b, p.gain);
    ConcatAssociates(Preamble(p), Scaled(source[..a], p.gain), Scaled(source[a..b], p.gain));
  }

  /** The samples of frame f of a block of frames, and only those, are in its marker. */
  lemma CoversByFrame(marker: int, channels: pos, from: nat, to: nat, i: int)
    requires Samples(from, channels) <= i < Samples(to, channels) && Covers(marker, channels, i)
    ensures from <= marker < to
  {
    if marker < from {
      SamplesMonotone(marker + 1, from, channels);
    } else if to <= marker {
      SamplesMonotone(to, marker, channels);
    }
  }

  // ---------------------------------------------------------------- in memory

  ghost predicate Marked(p: Plan, samples: seq<real>, count: nat)
    requires p.sourceStart >= 0
  {
    && Samples(p.sourceStart, p.channels) <= |samples|
    && forall i :: 0 <= i < Samples(p.sourceStart, p.channels) ==> samples[i] == PreambleSample(p, count, i)
  }

  /** std::fill_n over the channels of one marker frame. */
  method MarkFrame(p: Plan, result: array<real>, k: nat)
    requires k < |p.markers| && 0 <= p.markers[k] < p.sourceStart && Marked(p, result[..], k)
    modifies result
    ensures Marked(p, result[..], k + 1)
    ensures result[Samples(p.sourceStart, p.channels)..] == old(result[Samples(p.sourceStart, p.channels)..])
  {
    var marker := p.markers[k];
    var offset := Samples(marker, p.channels);
    SamplesAdd(marker, 1, p.channels);
    OneFrame(p.channels);
    SamplesMonotone(marker + 1, p.sourceStart, p.channels);
    ghost var was := result[..];
    forall c | 0 <= c < p.channels {
      result[offset + c] := p.Amplitude();
    }
    forall i | 0 <= i < Samples(p.sourceStart, p.channels)
      ensures result[i] == PreambleSample(p, k + 1, i)
    {
      if Covers(marker, p.channels, i) {
        assert result[offset + (i - offset)] == p.Amplitude();
        assert Covers(p.markers[k], p.channels, i);
      } else {
        assert result[i] == was[i];
        assert OnMarker(p, k + 1, i) == OnMarker(p, k, i);
      }
    }
  }

  /** One read of the source into a buffer, gained. */
  method ReadGained(p: Plan, reader: FrameReader, buffer: array<real>, offset: nat, frames: nat)
    returns (read: int)
    requires reader.Valid() && reader.channels == p.channels && p.sourceStart >= 0
    requires offset + Samples(frames, p.channels) <= buffer.Length
    modifies reader, buffer
    ensures reader.Valid()
    ensures
      if 1 <= read <= frames then
        && reader.position == old(reader.position) + read
        && offset + Samples(read, p.channels) <= buffer.Length
        && Samples(old(reader.position), p.channels) <= Samples(reader.position, p.channels)
        && buffer[offset..offset + Samples(read, p.channels)]
             == Scaled(reader.samples[Samples(old(reader.position), p.channels)
                                      ..Samples(reader.position, p.channels)], p.gain)
      else reader.position == old(reader.position)
    ensures buffer[..offset] == old(buffer[..offset])
    ensures reader.legal ==>
      && 0 <= read <= frames
      && (read == 0 <==> frames == 0 || old(reader.position) == reader.totalFrames)
  {
    read := reader.ReadFrames(buffer, offset, frames);
    if 1 <= read <= frames {
      ScaleInPlace(buffer, offset, offset + Samples(read, p.channels), p.gain);
    }
  }

  /** The frames still to come fit behind those that are there. */
  lemma PayloadFits(p: Plan, frames: nat)
    requires p.HasValidDescriptor() && frames <= p.totalFrames
    ensures Samples(p.sourceStart, p.channels) + Samples(frames, p.channels)
              + Samples(p.totalFrames - frames, p.channels) == Samples(p.playbackFrames, p.channels)
  {
    SamplesAdd(p.sourceStart, p.totalFrames, p.channels);
    SamplesAdd(frames, p.totalFrames - frames, p.channels);
  }

  lemma PlayedLength(p: Plan, source: seq<real>, frames: nat)
    requires p.sourceStart >= 0 && Samples(frames, p.channels) <= |source|
    ensures |PlayedUpTo(p, source, frames)| == Samples(p.sourceStart, p.channels) + Samples(frames, p.channels)
  {
  }

  /** One turn of the loop below: what the reader delivers goes behind what is there. */
  method MaterializeChunk(p: Plan, reader: FrameReader, result: array<real>) returns (ok: bool)
    requires p.HasValidDescriptor() && reader.Valid() && reader.channels == p.channels
    requires reader.position < p.totalFrames && result.Length == Samples(p.playbackFrames, p.channels)
    requires PlayedUpTo(p, reader.samples, reader.position) <= result[..]
    modifies reader, result
    ensures ok ==>
      && reader.Valid() && old(reader.position) < reader.position <= p.totalFrames
      && PlayedUpTo(p, reader.samples, reader.position) <= result[..]
    ensures reader.legal ==> (ok <==> old(reader.position) < reader.totalFrames)
  {
    hide Samples, PlayedUpTo, Scaled;
    var framesRead := reader.position;
    var offset := Samples(p.sourceStart, p.channels) + Samples(framesRead, p.channels);
    PayloadFits(p, framesRead);
    PlayedLength(p, reader.samples, framesRead);
    ghost var played := PlayedUpTo(p, reader.samples, framesRead);
    assert result[..offset] == played;
    var read := ReadGained(p, reader, result, offset, p.totalFrames - framesRead);
    ok := 1 <= read <= p.totalFrames - framesRead;
    if ok {
      PlayedGrows(p, reader.samples, framesRead, read);
      var end := offset + Samples(read, p.channels);
      assert result[..end] == result[..offset] + result[offset..end];
    }
  }

  /** The source loop of materialize_playback_plan: each read goes behind the last one. */
  method MaterializePayload(p: Plan, reader: FrameReader, result: array<real>) returns (r: Result<seq<real>>)
    requires reader.Valid() && reader.position == 0 && reader.channels == p.channels && p.HasValidDescriptor()
    requires result.Length == Samples(p.playbackFrames, p.channels)
    requires Preamble(p) <= result[..]
    modifies reader, result
    ensures r.Ok? ==>
      && r.value == Playback(p, reader.samples)
      && |r.value| == Samples(p.playbackFrames, p.channels)
    ensures r.Err? ==> r.error == SourceStreamFailure
    ensures reader.legal ==> (r.Ok? <==> p.totalFrames <= reader.totalFrames)
  {
    while reader.position < p.totalFrames
      invariant reader.Valid() && reader.position <= p.totalFrames
      invariant PlayedUpTo(p, reader.samples, reader.position) <= result[..]
      decreases p.totalFrames - reader.position
    {
      var ok := MaterializeChunk(p, reader, result);
      if !ok {
        return Err(SourceStreamFailure);
      }
    }
    PlayedAll(p, reader.samples);
    r := Ok(result[..]);
  }

  /** materialize_playback_plan. */
  method Materialize(p: Plan, reader: FrameReader) returns (r: Result<seq<real>>)
    requires reader.Valid() && reader.position == 0 && reader.channels == p.channels
    modifies reader
    ensures r.Ok? ==>
      && p.HasValidDescriptor() && p.HasMarkersInRange()
      && r.value == Playback(p, reader.samples)
      && |r.value| == Samples(p.playbackFrames, p.channels)
    ensures r.Err? ==> r.error == ValidationFailed || r.error == SourceStreamFailure
    ensures r == Err(ValidationFailed) <==> !p.HasValidDescriptor() || !p.HasMarkersInRange()
    ensures reader.legal && p.HasValidDescriptor() && p.HasMarkersInRange() ==>
      (r.Ok? <==> p.totalFrames <= reader.totalFrames)
  {
    if !p.HasValidDescriptor() {
      return Err(ValidationFailed);
    }
    SamplesAdd(p.sourceStart, p.totalFrames, p.channels);
    var start := Samples(p.sourceStart, p.channels);
    var result := new real[Samples(p.playbackFrames, p.channels)](_ => 0.0);
    for k := 0 to |p.markers|
      invariant forall q :: 0 <= q < k ==> 0 <= p.markers[q] < p.sourceStart
      invariant Marked(p, result[..], k)
      modifies result
    {
      if p.markers[k] < 0 || p.markers[k] >= p.sourceStart {
        return Err(ValidationFailed);
      }
      MarkFrame(p, result, k);
    }
    forall i: nat | i < start
      ensures result[i] == Preamble(p)[i]
    {
      PreambleAt(p, start, i);
    }
    r := MaterializePayload(p, reader, result);
  }
}
