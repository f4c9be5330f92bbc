/**
 The frame-reader contract: a reader hands out interleaved frames in order, each call between one
 and the requested number of frames, and 0 only at the end.  Which number it is, and whether the
 reader keeps the contract at all, is up to a schedule that the proofs quantify over.
 */
module FrameStreams {
  import opened Arithmetic

  /** What one call of read_frames will do. */
  datatype Grant =
    | UpTo(most: pos)      // a legal answer: at most this many frames
    | Claims(answer: int)  // a broken reader: answers this, whatever was requested

  function Delivered(grant: Grant, requested: nat, remaining: nat): int {
    match grant
    case UpTo(k) => Min(k, Min(requested, remaining))
    case Claims(k) => if k <= 0 || k > requested then k else Min(k, remaining)
  }

  ghost predicate AllLegal(grants: seq<Grant>) {
    forall i :: 0 <= i < |grants| ==> grants[i].UpTo?
  }

  /** std::copy_n into a part of the destination. */
  method CopyInto(source: seq<real>, destination: array<real>, offset: nat)
    requires offset + |source| <= destination.Length
    modifies destination
    ensures destination[offset..offset + |source|] == source
    ensures destination[..offset] == old(destination[..offset])
    ensures destination[offset + |source|..] == old(destination[offset + |source|..])
  {
    forall j | 0 <= j < |source| {
      destination[offset + j] := source[j];
    }
  }

  /** With an empty schedule this is MemoryFrameReader: it delivers all that was requested. */
  class FrameReader {
    const samples: seq<real>
    const channels: pos
    const totalFrames: nat
    /** The reader keeps the contract. */
    ghost const legal: bool
    var position: nat
    var grants: seq<Grant>

    ghost predicate Valid()
      reads this
    {
      && |samples| == Samples(totalFrames, channels) && position <= totalFrames
      && Samples(position, channels) <= |samples|
      && (legal ==> AllLegal(grants))
    }

    constructor (samples: seq<real>, channels: pos, totalFrames: nat, start: nat, grants: seq<Grant>)
      requires |samples| == Samples(totalFrames, channels) && start <= totalFrames
      ensures Valid() && position == start && legal == AllLegal(grants)
      ensures this.samples == samples && this.channels == channels && this.totalFrames == totalFrames
    {
      this.samples := samples;
      this.channels := channels;
      this.totalFrames := totalFrames;
      this.position := start;
      this.grants := grants;
      this.legal := AllLegal(grants);
      SamplesMonotone(start, totalFrames, channels);
    }

    lemma LegalGrants()
      ensures AllLegal(grants) && |grants| > 0 ==> grants[0].UpTo? && AllLegal(grants[1..])
    {
    }

    /** The frames that were delivered are the next ones of the stream; what lies before them is not touched. */
    method ReadFrames(destination: array<real>, offset: nat, frames: nat) returns (read: int)
      requires Valid() && offset + Samples(frames, channels) <= destination.Length
      modifies this`position, this`grants, destination
      ensures Valid()
      ensures
        if 1 <= read <= frames then
          && position == old(position) + read
          && offset + Samples(read, channels) <= destination.Length
          && Samples(position, channels) == Samples(old(position), channels) + Samples(read, channels)
          && destination[offset..offset + Samples(read, channels)]
               == samples[Samples(old(position), channels)..Samples(position, channels)]
        else position == old(position)
      ensures destination[..offset] == old(destination[..offset])
      ensures legal ==>
        && 0 <= read <= frames
        && (read == 0 <==> frames == 0 || old(position) == totalFrames)
    {
      hide Samples, AllLegal;
      var remaining := totalFrames - position;
      LegalGrants();
      if |grants| > 0 {
        read := Delivered(grants[0], frames, remaining);
        grants := grants[1..];
      } else {
        read := Min(frames, remaining);
      }
      if 1 <= read <= frames {
        var from, count := Samples(position, channels), Samples(read, channels);
        SamplesAdd(position, read, channels);
        SamplesMonotone(position + read, totalFrames, channels);
        SamplesMonotone(read, frames, channels);
        CopyInto(samples[from..from + count], destination, offset);
        position := position + read;
      }
    }
  }

  /** Every sample times the gain. */
  function Scaled(samples: seq<real>, gain: real): (r: seq<real>)
    ensures |r| == |samples|
  {
    if samples == [] then []
    else Scaled(samples[..|samples| - 1], gain) + [Gained(samples[|samples| - 1], gain)]
  }

  lemma {:induction false} ScaledAt(samples: seq<real>, gain: real, i: nat)
    requires i < |samples|
    ensures Scaled(samples, gain)[i] == Gained(samples[i], gain)
  {
    if i < |samples| - 1 {
      ScaledAt(samples[..|samples| - 1], gain, i);
    }
  }

  lemma {:induction false} ScaledConcat(a: seq<real>, b: seq<real>, gain: real)
    ensures Scaled(a + b, gain) == Scaled(a, gain) + Scaled(b, gain)
  {
    if b == [] {
      assert a + b == a;
    } else {
      assert (a + b)[..|a + b| - 1] == a + b[..|b| - 1];
      assert (a + b)[|a + b| - 1] == b[|b| - 1];
      ScaledConcat(a, b[..|b| - 1], gain);
    }
  }

  lemma ScaledSlices(source: seq<real>, a: nat, b: nat, gain: real)
    requires a <= b <= |source|
    ensures Scaled(source[..b], gain) == Scaled(source[..a], gain) + Scaled(source[a..b], gain)
  {
    assert source[..a] + source[a..b] == source[..b];
    ScaledConcat(source[..a], source[a..b], gain);
  }

  lemma ConcatAssociates(a: seq<real>, b: seq<real>, c: seq<real>)
    ensures a + (b + c) == (a + b) + c
  {
  }

  /** The in-place gain loop of the streams: a gain of one is left out. */
  method ScaleInPlace(buffer: array<real>, from: nat, to: nat, gain: real)
    requires from <= to <= buffer.Length
    modifies buffer
    ensures buffer[from..to] == Scaled(old(buffer[from..to]), gain)
    ensures buffer[..from] == old(buffer[..from]) && buffer[to..] == old(buffer[to..])
  {
    if gain != 1.0 {
      for j := from to to
        invariant buffer[..from] == old(buffer[..from]) && buffer[to..] == old(buffer[to..])
        invariant forall k :: from <= k < j ==> buffer[k] == Gained(old(buffer[k]), gain)
        invariant forall k :: j <= k < to ==> buffer[k] == old(buffer[k])
      {
        buffer[j] := Gained(buffer[j], gain);
      }
    }
    ghost var was, now := old(buffer[from..to]), buffer[from..to];
    forall k: nat | k < to - from
      ensures now[k] == Scaled(was, gain)[k]
    {
      ScaledAt(was, gain, k);
      assert now[k] == buffer[from + k] && was[k] == old(buffer[from + k]);
    }
  }
}
