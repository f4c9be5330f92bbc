/**
 The readers that write_wav accepts: a plain frame reader, or the aligned payload of a recording.
 Both hand out a fixed stream of samples in order, in whatever portions.
 */
module FrameSources {
  import opened AlignedReader
  import opened Arithmetic
  import opened FrameStreams
  import opened Wrappers

  /** The payload samples that one read put into a buffer are the next ones of the whole payload. */
  lemma PayloadHolds(buffer: seq<real>, offset: nat, samples: seq<real>, start: nat, done: nat, read: nat, count: nat,
                     channels: nat, gain: real)
    requires done + read <= count
    requires IsPayload(buffer, offset, samples, Samples(start + done, channels), gain, Samples(read, channels))
    ensures Holds(buffer, offset, Payload(samples, start, count, channels, gain), Samples(done, channels),
                  Samples(read, channels))
  {
    hide Samples, Gained, SampleOrZero;
    ChunkFits(start, done, read, count, channels);
    var extract := Extracted(samples, start, count, channels, count);
    var payload, base := Payload(samples, start, count, channels, gain), Samples(done, channels);
    forall i | offset <= i < offset + Samples(read, channels)
      ensures buffer[i] == payload[i - offset + base]
    {
      ScaledAt(extract, gain, i - offset + base);
      assert extract[i - offset + base] == StretchSample(samples, start, channels, i - offset + base);
    }
  }

  /** IFloat32FrameReader. */
  datatype FrameSource = Plain(plain: FrameReader) | Aligned(aligned: PayloadReader) {
    ghost function Repr(): set<object> {
      match this
      case Plain(reader) => {reader}
      case Aligned(reader) => {reader, reader.recording}
    }

    ghost predicate Valid()
      reads Repr()
    {
      match this
      case Plain(reader) => reader.Valid()
      case Aligned(reader) => reader.Valid()
    }

    function Channels(): pos {
      match this
      case Plain(reader) => reader.channels
      case Aligned(reader) => reader.channels
    }

    /** The reader keeps the contract of read_frames, as far as it depends on its own input. */
    ghost predicate IsLegal() {
      match this
      case Plain(reader) => reader.legal
      case Aligned(reader) => reader.recording.legal
    }

    /** What it hands out is its stream: an aligned payload passes on what a broken recording delivers. */
    ghost predicate IsFaithful() {
      match this
      case Plain(reader) => true
      case Aligned(reader) => reader.recording.legal
    }

    ghost function Stream(): seq<real> {
      match this
      case Plain(reader) => reader.samples
      case Aligned(reader) =>
        Payload(reader.recording.samples, reader.start, reader.frameCount, reader.channels, reader.gain)
    }

    ghost function Frames(): nat {
      match this
      case Plain(reader) => reader.totalFrames
      case Aligned(reader) => reader.frameCount
    }

    ghost function Position(): nat
      requires Valid()
      reads Repr()
    {
      match this
      case Plain(reader) => reader.position
      case Aligned(reader) => reader.Done()
    }

    lemma StreamLength()
      requires Valid()
      ensures |Stream()| == Samples(Frames(), Channels()) && Position() <= Frames()
    {
    }

    /** read_frames. */
    method ReadFrames(destination: array<real>, offset: nat, frames: nat) returns (r: Result<int>)
      requires Valid() && offset + Samples(frames, Channels()) <= destination.Length
      modifies Repr(), destination
      ensures r.Ok? ==> Valid()
      ensures r.Err? ==> r.error == BackendFailure && !IsLegal()
      ensures r.Ok? ==>
        var read := if 1 <= r.value <= frames then r.value else 0;
        && Position() == old(Position()) + read <= Frames()
        && (IsFaithful() ==>
              Holds(destination[..], offset, Stream(), Samples(old(Position()), Channels()), Samples(read, Channels())))
      ensures destination[..offset] == old(destination[..offset])
      ensures r.Ok? && IsLegal() ==>
        0 <= r.value <= frames && (r.value == 0 <==> frames == 0 || old(Position()) == Frames())
    {
      match this
      case Plain(reader) =>
        ghost var first := reader.position;
        var read := reader.ReadFrames(destination, offset, frames);
        PlainHolds(reader, destination, offset, first, if 1 <= read <= frames then read else 0);
        r := Ok(read);
      case Aligned(reader) =>
        ghost var done := reader.Done();
        var read := reader.ReadFrames(destination, offset, frames);
        if read.Err? {
          return Err(read.error);
        }
        if reader.recording.legal {
          PayloadHolds(destination[..], offset, reader.recording.samples, reader.start, done, read.value,
                       reader.frameCount, reader.channels, reader.gain);
        }
        r := Ok(read.value);
    }

    lemma PlainHolds(reader: FrameReader, destination: array<real>, offset: nat, first: nat, read: nat)
      requires reader.Valid() && reader.position == first + read && Samples(first, reader.channels) <= |reader.samples|
      requires read == 0 ==> offset <= destination.Length
      requires read > 0 ==>
        && offset + Samples(read, reader.channels) <= destination.Length
        && Samples(reader.position, reader.channels) == Samples(first, reader.channels) + Samples(read, reader.channels)
        && destination[offset..offset + Samples(read, reader.channels)]
             == reader.samples[Samples(first, reader.channels)..Samples(reader.position, reader.channels)]
      ensures Holds(destination[..], offset, reader.samples, Samples(first, reader.channels),
                    Samples(read, reader.channels))
    {
      if read > 0 {
        SliceHolds(destination[..], offset, reader.samples, Samples(first, reader.channels),
                   Samples(read, reader.channels));
      }
    }
  }

  /** The inner read loop of write_wav: a chunk is filled completely, or the reader is at fault. */
  method FillFrom(source: FrameSource, chunk: array<real>, requested: nat) returns (r: Result<nat>)
    requires source.Valid() && Samples(requested, source.Channels()) <= chunk.Length
    modifies source.Repr(), chunk
    ensures r.Err? ==> r.error == WavWrite || (r.error == BackendFailure && !source.IsLegal())
    ensures r.Ok? ==>
      && source.Valid() && r.value == requested
      && source.Position() == old(source.Position()) + requested <= source.Frames()
      && (source.IsFaithful() ==>
            Holds(chunk[..], 0, source.Stream(), Samples(old(source.Position()), source.Channels()),
                  Samples(requested, source.Channels())))
    ensures source.IsLegal() ==> (r.Ok? <==> old(source.Position()) + requested <= source.Frames())
  {
    hide Samples, Holds;
    var filled := 0;
    ghost var first, unit := source.Position(), source.Channels();
    if source.IsFaithful() {
      NothingHeld(source, chunk, first);
    }
    while filled < requested
      invariant source.Valid() && filled <= requested && source.Position() == first + filled <= source.Frames()
      invariant source.IsFaithful() ==>
        Holds(chunk[..], 0, source.Stream(), Samples(first, unit), Samples(filled, unit))
    {
      var offset := Samples(filled, source.Channels());
      SamplesAdd(filled, requested - filled, unit);
      ghost var was := chunk[..];
      var read := source.ReadFrames(chunk, offset, requested - filled);
      if read.Err? {
        return Err(read.error);
      }
      if read.value <= 0 || read.value > requested - filled {
        return Err(WavWrite);
      }
      SamplesAdd(filled, read.value, unit);
      SamplesAdd(first, filled, unit);
      if source.IsFaithful() {
        HeldSoFar(was, chunk[..], offset);
        HoldsMore(was, chunk[..], 0, source.Stream(), Samples(first, unit), offset, Samples(read.value, unit));
      }
      filled := filled + read.value;
    }
    r := Ok(filled);
  }

  lemma HeldSoFar(was: seq<real>, buffer: seq<real>, n: nat)
    requires n <= |was| && n <= |buffer| && was[..n] == buffer[..n]
    ensures was[..0 + n] == buffer[..0 + n]
  {
  }

  lemma NothingHeld(source: FrameSource, chunk: array<real>, first: nat)
    requires source.Valid() && first <= source.Frames()
    ensures
      Holds(chunk[..], 0, source.Stream(), Samples(first, source.Channels()), Samples(0, source.Channels()))
  {
    source.StreamLength();
    SamplesMonotone(first, source.Frames(), source.Channels());
  }
}
