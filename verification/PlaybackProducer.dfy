/**
 The producer thread of one capture.  The ring takes as much of a write as it likes, and a stop
 may be seen at any poll; what has been pushed is always a prefix of the playback.
 */
module PlaybackProducer {
  import opened Arithmetic
  import opened FrameStreams
  import opened PlaybackPlan
  import opened Wrappers

  ghost predicate IsPreambleBlock(p: Plan, buffer: seq<real>, from: nat, frames: nat)
    requires p.sourceStart >= 0
  {
    && from + frames <= p.sourceStart && Samples(frames, p.channels) <= |buffer|
    && Samples(from + frames, p.channels) == Samples(from, p.channels) + Samples(frames, p.channels)
    && Samples(from + frames, p.channels) <= |Preamble(p)|
    && buffer[..Samples(frames, p.channels)]
         == Preamble(p)[Samples(from, p.channels)..Samples(from + frames, p.channels)]
  }

  lemma BeforeFirstMarker(p: Plan, from: nat, frames: nat, k: nat)
    requires k <= |p.markers| && (forall q :: 0 <= q < k ==> p.markers[q] < from)
    ensures forall i: nat {:trigger PreambleSample(p, k, i)} ::
              Samples(from, p.channels) <= i < Samples(from + frames, p.channels) ==> PreambleSample(p, k, i) == 0.0
  {
    forall i, q | Samples(from, p.channels) <= i < Samples(from + frames, p.channels)
                  && 0 <= q < k && Covers(p.markers[q], p.channels, i)
      ensures false
    {
      CoversByFrame(p.markers[q], p.channels, from, from + frames, i);
    }
  }

  lemma AfterLastMarker(p: Plan, from: nat, frames: nat, k: nat)
    requires k <= |p.markers| && (forall q :: k <= q < |p.markers| ==> from + frames <= p.markers[q])
    ensures forall i: nat {:trigger PreambleSample(p, k, i)} ::
              Samples(from, p.channels) <= i < Samples(from + frames, p.channels) ==>
                PreambleSample(p, k, i) == PreambleSample(p, |p.markers|, i)
  {
    forall i, q | Samples(from, p.channels) <= i < Samples(from + frames, p.channels)
                  && 0 <= q < |p.markers| && Covers(p.markers[q], p.channels, i)
      ensures q < k
    {
      CoversByFrame(p.markers[q], p.channels, from, from + frames, i);
    }
  }

  class Producer {
    const plan: Plan
    const chunkFrames: pos
    /** Everything written to the playback ring so far. */
    var pushed: seq<real>
    /** How many samples each of the next ring writes accepts; afterwards all of them. */
    var accepts: seq<nat>
    /** The number of polls of should_stop that still answer no, if a stop ever comes. */
    var patience: Option<nat>
    var finished: bool
    var sourceFailed: bool

    constructor (plan: Plan, chunkFrames: pos, accepts: seq<nat>, patience: Option<nat>)
      ensures this.plan == plan && this.chunkFrames == chunkFrames && this.patience == patience
      ensures pushed == [] && !finished && !sourceFailed
    {
      this.plan := plan;
      this.chunkFrames := chunkFrames;
      this.accepts := accepts;
      this.patience := patience;
      this.pushed := [];
      this.finished := false;
      this.sourceFailed := false;
    }

    method ShouldStop() returns (stop: bool)
      modifies this`patience
      ensures stop ==> old(patience).Some?
      ensures old(patience).None? ==> patience.None?
    {
      stop := patience == Some(0);
      if patience.Some? && patience.value > 0 {
        patience := Some(patience.value - 1);
      }
    }

    /** One ring write. */
    method WriteRing(samples: seq<real>) returns (written: nat)
      modifies this`pushed, this`accepts
      ensures written <= |samples| && pushed == old(pushed) + samples[..written]
      ensures |samples| > 0 ==> |accepts| < |old(accepts)| || written > 0
      ensures |accepts| <= |old(accepts)|
    {
      written := |samples|;
      if |accepts| > 0 {
        written := Min(accepts[0], |samples|);
        accepts := accepts[1..];
      }
      pushed := pushed + samples[..written];
    }

    /** write_playback: all samples in order, or a prefix of them when it is told to stop. */
    method WritePlayback(samples: seq<real>) returns (ok: bool)
      modifies this`pushed, this`accepts, this`patience
      ensures old(pushed) <= pushed <= old(pushed) + samples
      ensures ok ==> pushed == old(pushed) + samples
      ensures !ok ==> old(patience).Some?
      ensures old(patience).None? ==> patience.None?
    {
      var offset := 0;
      while offset < |samples|
        invariant offset <= |samples| && pushed == old(pushed) + samples[..offset]
        invariant old(patience).None? ==> patience.None?
        decreases |accepts|, |samples| - offset
      {
        var stop := ShouldStop();
        if stop {
          return false;
        }
        var written := WriteRing(samples[offset..]);
        assert samples[..offset] + samples[offset..][..written] == samples[..offset + written];
        offset := offset + written;
      }
      assert samples[..offset] == samples;
      return true;
    }

    /** The block of the preamble that starts at frame `from`; the next marker is number `k`. */
    method FillPreamble(buffer: array<real>, from: nat, frames: nat, k: nat) returns (next: nat)
      requires IsPlan(plan) && from + frames <= plan.sourceStart
      requires k <= |plan.markers| && (forall q :: 0 <= q < k ==> plan.markers[q] < from)
      requires forall q :: k <= q < |plan.markers| ==> from <= plan.markers[q]
      requires Samples(frames, plan.channels) <= buffer.Length
      modifies buffer
      ensures k <= next <= |plan.markers| && (forall q :: 0 <= q < next ==> plan.markers[q] < from + frames)
      ensures forall q :: next <= q < |plan.markers| ==> from + frames <= plan.markers[q]
      ensures IsPreambleBlock(plan, buffer[..], from, frames)
    {
      hide Samples, PreambleSample, IsPreambleBlock, Preamble;
      var start, count := Samples(from, plan.channels), Samples(frames, plan.channels);
      forall i | 0 <= i < count {
        buffer[i] := 0.0;
      }
      next := k;
      SamplesAdd(from, frames, plan.channels);
      BeforeFirstMarker(plan, from, frames, k);
      while next < |plan.markers| && plan.markers[next] < from + frames
        invariant k <= next <= |plan.markers| && (forall q :: 0 <= q < next ==> plan.markers[q] < from + frames)
        invariant forall i :: 0 <= i < count ==> buffer[i] == PreambleSample(plan, next, start + i)
      {
        MarkBlock(buffer, from, frames, next);
        next := next + 1;
      }
      AfterLastMarker(plan, from, frames, next);
      MarkedBlock(buffer[..], from, frames, next);
    }

    /** A block in which all markers have been set is that block of the preamble. */
    lemma MarkedBlock(buffer: seq<real>, from: nat, frames: nat, next: nat)
      requires IsPlan(plan) && from + frames <= plan.sourceStart && Samples(frames, plan.channels) <= |buffer|
      requires next <= |plan.markers|
      requires forall i :: 0 <= i < Samples(frames, plan.channels) ==>
                 buffer[i] == PreambleSample(plan, next, Samples(from, plan.channels) + i)
      requires forall i: nat {:trigger PreambleSample(plan, next, i)} ::
                 Samples(from, plan.channels) <= i < Samples(from + frames, plan.channels) ==>
                   PreambleSample(plan, next, i) == PreambleSample(plan, |plan.markers|, i)
      ensures IsPreambleBlock(plan, buffer, from, frames)
    {
      hide Samples, PreambleSample;
      SamplesAdd(from, frames, plan.channels);
      SamplesMonotone(from + frames, plan.sourceStart, plan.channels);
      var start := Samples(from, plan.channels);
      forall i: nat | i < Samples(frames, plan.channels)
        ensures buffer[i] == Preamble(plan)[start + i]
      {
        PreambleAt(plan, |Preamble(plan)|, start + i);
      }
    }

    /** All channels of one marker frame get the amplitude. */
    method MarkBlock(buffer: array<real>, from: nat, frames: nat, k: nat)
      requires IsPlan(plan) && from + frames <= plan.sourceStart
      requires k < |plan.markers| && from <= plan.markers[k] < from + frames
      requires Samples(frames, plan.channels) <= buffer.Length
      requires forall i :: 0 <= i < Samples(frames, plan.channels) ==>
                 buffer[i] == PreambleSample(plan, k, Samples(from, plan.channels) + i)
      modifies buffer
      ensures forall i :: 0 <= i < Samples(frames, plan.channels) ==>
                buffer[i] == PreambleSample(plan, k + 1, Samples(from, plan.channels) + i)
    {
      var marker := plan.markers[k];
      var local := Samples(marker - from, plan.channels);
      SamplesAdd(from, marker - from, plan.channels);
      SamplesAdd(marker, 1, plan.channels);
      OneFrame(plan.channels);
      SamplesAdd(marker - from, 1, plan.channels);
      SamplesMonotone(marker - from + 1, frames, plan.channels);
      ghost var was := buffer[..];
      forall c | 0 <= c < plan.channels {
        buffer[local + c] := plan.Amplitude();
      }
      forall i | 0 <= i < Samples(frames, plan.channels)
        ensures buffer[i] == PreambleSample(plan, k + 1, Samples(from, plan.channels) + i)
      {
        var sample := Samples(from, plan.channels) + i;
        if Covers(marker, plan.channels, sample) {
          assert buffer[local + (i - local)] == plan.Amplitude();
          assert Covers(plan.markers[k], plan.channels, sample);
        } else {
          assert buffer[i] == was[i];
          assert OnMarker(plan, k + 1, sample) == OnMarker(plan, k, sample);
        }
      }
    }

    /** Markers and silence, chunk by chunk, with one pass over the markers. */
    method ProducePreamble(buffer: array<real>) returns (ok: bool)
      requires IsPlan(plan) && pushed == [] && buffer.Length == Samples(chunkFrames, plan.channels)
      modifies this`pushed, this`accepts, this`patience, buffer
      ensures pushed <= Preamble(plan)
      ensures ok ==> pushed == Preamble(plan)
      ensures !ok ==> old(patience).Some?
      ensures old(patience).None? ==> patience.None?
    {
      var frame, marker := 0, 0;
      while frame < plan.sourceStart
        invariant 0 <= frame <= plan.sourceStart && 0 <= marker <= |plan.markers|
        invariant forall q :: 0 <= q < marker ==> plan.markers[q] < frame
        invariant forall q :: marker <= q < |plan.markers| ==> frame <= plan.markers[q]
        invariant Samples(frame, plan.channels) <= |Preamble(plan)|
        invariant pushed == Preamble(plan)[..Samples(frame, plan.channels)]
        invariant old(patience).None? ==> patience.None?
      {
        var stop := ShouldStop();
        if stop {
          return false;
        }
        var frames := Min(plan.sourceStart - frame, chunkFrames);
        SamplesMonotone(frames, chunkFrames, plan.channels);
        marker := FillPreamble(buffer, frame, frames, marker);
        var from, to := Samples(frame, plan.channels), Samples(frame + frames, plan.channels);
        SplitPrefix(Preamble(plan), from, to);
        ok := WritePlayback(buffer[..Samples(frames, plan.channels)]);
        if !ok {
          return;
        }
        frame := frame + frames;
      }
      ok := true;
    }

    /** One chunk of the source: poll, read, gain, push.  A broken answer of the reader throws. */
    method ProduceChunk(buffer: array<real>, reader: FrameReader, requested: nat) returns (ok: bool)
      requires IsPlan(plan) && !sourceFailed && reader.Valid() && reader.channels == plan.channels
      requires 0 < requested <= chunkFrames && buffer.Length == Samples(chunkFrames, plan.channels)
      requires pushed == PlayedUpTo(plan, reader.samples, reader.position)
      modifies this`pushed, this`accepts, this`patience, this`sourceFailed, reader, buffer
      ensures reader.Valid()
      ensures old(reader.position) <= reader.position <= old(reader.position) + requested
      ensures pushed <= PlayedUpTo(plan, reader.samples, reader.position)
      ensures ok ==>
        && !sourceFailed && old(reader.position) < reader.position
        && pushed == PlayedUpTo(plan, reader.samples, reader.position)
      ensures !ok && !sourceFailed ==> old(patience).Some?
      ensures reader.legal && sourceFailed ==> reader.position == reader.totalFrames
      ensures sourceFailed ==> reader.position == old(reader.position)
      ensures old(patience).None? ==> patience.None?
    {
      hide Samples, PlayedUpTo;
      var stop := ShouldStop();
      if stop {
        return false;
      }
      SamplesMonotone(requested, chunkFrames, plan.channels);
      var read := ReadGained(plan, reader, buffer, 0, requested);
      if read <= 0 || read > requested {
        sourceFailed := true;
        return false;
      }
      PlayedGrows(plan, reader.samples, reader.position - read, read);
      ok := WritePlayback(buffer[0..0 + Samples(read, plan.channels)]);
    }

    /** The gained source, in whatever pieces the reader hands out. */
    method ProduceSource(buffer: array<real>, reader: FrameReader) returns (ok: bool)
      requires IsPlan(plan) && pushed == Preamble(plan) && !sourceFailed
      requires buffer.Length == Samples(chunkFrames, plan.channels)
      requires reader.Valid() && reader.position == 0 && reader.channels == plan.channels
      modifies this`pushed, this`accepts, this`patience, this`sourceFailed, reader, buffer
      ensures pushed <= Playback(plan, reader.samples)
      ensures ok ==>
        && !sourceFailed && pushed == Playback(plan, reader.samples)
        && |pushed| == Samples(plan.playbackFrames, plan.channels)
        && plan.totalFrames <= reader.totalFrames
      ensures !ok && !sourceFailed ==> old(patience).Some?
      ensures sourceFailed && reader.legal ==> reader.totalFrames < plan.totalFrames
    {
      var remaining := plan.totalFrames;
      PlayedIsPrefix(plan, reader.samples, 0);
      while remaining > 0
        invariant 0 <= remaining <= plan.totalFrames && !sourceFailed
        invariant reader.Valid() && reader.position == plan.totalFrames - remaining
        invariant pushed == PlayedUpTo(plan, reader.samples, reader.position)
        invariant old(patience).None? ==> patience.None?
      {
        ok := ProduceChunk(buffer, reader, Min(remaining, chunkFrames));
        PlayedIsPrefix(plan, reader.samples, reader.position);
        if !ok {
          return;
        }
        remaining := plan.totalFrames - reader.position;
      }
      PlayedAll(plan, reader.samples);
      ok := true;
    }

    /** produce_playback, with the catch clause that publishes a source failure. */
    method ProducePlayback(reader: FrameReader)
      requires IsPlan(plan) && pushed == [] && !finished && !sourceFailed
      requires reader.Valid() && reader.position == 0 && reader.channels == plan.channels
      modifies this, reader
      ensures pushed <= Playback(plan, reader.samples)
      ensures finished && !sourceFailed ==>
        && pushed == Playback(plan, reader.samples)
        && |pushed| == Samples(plan.playbackFrames, plan.channels)
      ensures !finished ==> old(patience).Some?
      ensures old(patience).None? && reader.legal ==>
        finished && (sourceFailed <==> reader.totalFrames < plan.totalFrames)
    {
      var buffer := new real[Samples(chunkFrames, plan.channels)];
      var ok := ProducePreamble(buffer);
      if !ok {
        return;
      }
      ok := ProduceSource(buffer, reader);
      finished := ok || sourceFailed;
    }
  }
}
