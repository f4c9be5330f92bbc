/**
 The samples of a WAV file: written chunk by chunk, read back at once or through a stream that
 starts anywhere, and the round trip between them.
 */
module WavSamples {
  import opened AlignedReader
  import opened Arithmetic
  import opened FrameSources
  import opened FrameStreams
  import opened MarkerDetection
  import opened PcmCodec
  import opened WavChunks
  import opened WavFormat
  import opened Wrappers

  // ---------------------------------------------------------------- writing

  /** The little-endian bytes of one quantised sample. */
  function EncodedSample(x: real, bits: pos): (r: seq<byte>)
    ensures |r| == bits / 8
  {
    Bytes(Wrapped(Quantized(x, bits), 64), bits / 8)
  }

  function Encoded(samples: seq<real>, bits: pos): (r: seq<byte>)
    ensures |r| == Samples(|samples|, bits / 8)
  {
    if samples == [] then []
    else Encoded(samples[..|samples| - 1], bits) + EncodedSample(samples[|samples| - 1], bits)
  }

  lemma {:induction false} EncodedConcat(a: seq<real>, b: seq<real>, bits: pos)
    ensures Encoded(a + b, bits) == Encoded(a, bits) + Encoded(b, bits)
  {
    hide EncodedSample, Samples;
    if b == [] {
      assert a + b == a;
    } else {
      assert (a + b)[..|a + b| - 1] == a + b[..|b| - 1];
      assert (a + b)[|a + b| - 1] == b[|b| - 1];
      EncodedConcat(a, b[..|b| - 1], bits);
    }
  }

  /** Sample k lies at its place among the bytes. */
  lemma {:induction false} EncodedAt(samples: seq<real>, bits: pos, k: nat)
    requires k < |samples|
    ensures Samples(k, bits / 8) + bits / 8 <= Samples(|samples|, bits / 8)
    ensures Encoded(samples, bits)[Samples(k, bits / 8)..Samples(k, bits / 8) + bits / 8]
         == EncodedSample(samples[k], bits)
  {
    hide EncodedSample, Samples;
    SamplesAdd(k, 1, bits / 8);
    OneFrame(bits / 8);
    SamplesMonotone(k + 1, |samples|, bits / 8);
    var n, at := |samples| - 1, Samples(k, bits / 8);
    if k < n {
      EncodedAt(samples[..n], bits, k);
      SliceOfSlice(Encoded(samples, bits), 0, Samples(n, bits / 8), at, at + bits / 8);
    }
  }

  /** The inner loops of write_wav over one chunk of decoded samples. */
  method EncodeChunk(decoded: array<real>, count: nat, bits: pos) returns (encoded: seq<byte>)
    requires count <= decoded.Length
    ensures encoded == Encoded(decoded[..count], bits)
  {
    encoded := [];
    for k := 0 to count
      invariant encoded == Encoded(decoded[..k], bits)
    {
      encoded := encoded + EncodedSample(decoded[k], bits);
      assert decoded[..k + 1][..k] == decoded[..k];
    }
  }

  /** The samples of the frames [from, to). */
  function FrameRange(samples: seq<real>, channels: nat, from: nat, to: nat): seq<real> {
    if Samples(from, channels) <= Samples(to, channels) <= |samples| then
      samples[Samples(from, channels)..Samples(to, channels)]
    else []
  }

  lemma FrameRangeConcat(samples: seq<real>, channels: nat, a: nat, b: nat, c: nat)
    requires a <= b <= c && Samples(c, channels) <= |samples|
    ensures FrameRange(samples, channels, a, c)
         == FrameRange(samples, channels, a, b) + FrameRange(samples, channels, b, c)
    ensures |FrameRange(samples, channels, a, c)| == Samples(c - a, channels)
  {
    SamplesAdd(a, c - a, channels);
    SamplesMonotone(a, b, channels);
    SamplesMonotone(b, c, channels);
  }

  /** One chunk: filled by partial reads, then encoded. */
  method WriteChunk(source: FrameSource, decoded: array<real>, requested: nat, bits: pos)
    returns (r: Result<seq<byte>>)
    requires source.Valid() && Samples(requested, source.Channels()) <= decoded.Length
    modifies source.Repr(), decoded
    ensures r.Err? ==> r.error == WavWrite || (r.error == BackendFailure && !source.IsLegal())
    ensures r.Ok? ==>
      && source.Valid() && source.Position() == old(source.Position()) + requested <= source.Frames()
      && (source.IsFaithful() ==>
            r.value == Encoded(FrameRange(source.Stream(), source.Channels(), old(source.Position()),
                                          source.Position()), bits))
    ensures source.IsLegal() ==> (r.Ok? <==> old(source.Position()) + requested <= source.Frames())
  {
    hide Encoded, Samples, Holds, FrameRange;
    ghost var first, channels := source.Position(), source.Channels();
    var filled := FillFrom(source, decoded, requested);
    if filled.Err? {
      return Err(filled.error);
    }
    var encoded := EncodeChunk(decoded, Samples(requested, source.Channels()), bits);
    if source.IsFaithful() {
      HeldIsRange(decoded[..], source.Stream(), channels, first, requested);
    }
    r := Ok(encoded);
  }

  lemma HeldIsRange(buffer: seq<real>, samples: seq<real>, channels: nat, first: nat, count: nat)
    requires Holds(buffer, 0, samples, Samples(first, channels), Samples(count, channels))
    ensures buffer[..Samples(count, channels)] == FrameRange(samples, channels, first, first + count)
  {
    hide Samples;
    SamplesAdd(first, count, channels);
    HeldIsSlice(buffer, samples, Samples(first, channels), Samples(count, channels));
  }

  lemma HeldIsSlice(buffer: seq<real>, samples: seq<real>, base: nat, count: nat)
    requires Holds(buffer, 0, samples, base, count)
    ensures buffer[..count] == samples[base..base + count]
  {
  }

  lemma EncodedMore(samples: seq<real>, channels: nat, a: nat, b: nat, c: nat, bits: pos)
    requires a <= b <= c && Samples(c, channels) <= |samples|
    ensures Encoded(FrameRange(samples, channels, a, c), bits)
         == Encoded(FrameRange(samples, channels, a, b), bits) + Encoded(FrameRange(samples, channels, b, c), bits)
  {
    hide FrameRange;
    FrameRangeConcat(samples, channels, a, b, c);
    EncodedConcat(FrameRange(samples, channels, a, b), FrameRange(samples, channels, b, c), bits);
  }

  lemma EmptyEncodes(samples: seq<real>, channels: nat, a: nat, bits: pos)
    requires Samples(a, channels) <= |samples|
    ensures Encoded(FrameRange(samples, channels, a, a), bits) == []
  {
  }

  /** write_wav: header, the samples of the reader in any chunks and partial reads, pad byte. */
  method WriteWav(source: FrameSource, frames: int, rate: real, channels: nat, bits: nat, chunkFrames: pos)
    returns (r: Result<seq<byte>>)
    requires source.Valid()
    modifies source.Repr()
    ensures CapacityError(frames, rate, channels, bits) == None <==> IsWritable(frames, rate, channels, bits)
    ensures
      var refused := CapacityError(frames, rate, channels, bits);
      && (refused.Some? ==> r == Err(refused.value))
      && (refused.None? && r.Err? ==>
            && (r.error == WavWrite || (r.error == BackendFailure && !source.IsLegal()))
            && (channels != source.Channels() || !source.IsLegal()
                || source.Frames() < old(source.Position()) + frames))
    ensures r.Ok? ==>
      && CapacityError(frames, rate, channels, bits) == None && channels == source.Channels()
      && 0 <= frames && LlRound(rate) >= 0 && bits > 0 && old(source.Position()) + frames <= source.Frames()
      && (source.IsFaithful() ==>
            var range := FrameRange(source.Stream(), channels, old(source.Position()),
                                    old(source.Position()) + frames);
            r.value == FileBytes(Output(frames, LlRound(rate), channels, bits), Encoded(range, bits)))
  {
    hide CapacityError, FileBytes, Encoded, LlRound, FrameRange, Samples, IsWritable;
    AcceptedIsWritable(frames, rate, channels, bits);
    var refused := CapacityError(frames, rate, channels, bits);
    if refused.Some? {
      return Err(refused.value);
    }
    AcceptedFits(frames, rate, channels, bits);
    if source.Channels() != channels {
      return Err(WavWrite);
    }
    var decoded := new real[Samples(chunkFrames, channels)];
    var data: seq<byte> := [];
    var written := 0;
    ghost var first := source.Position();
    PositionFits(source);
    EmptyEncodes(source.Stream(), channels, first, bits);
    while written < frames
      invariant 0 <= written <= frames && source.Valid() && source.Position() == first + written <= source.Frames()
      invariant source.IsFaithful() ==>
        data == Encoded(FrameRange(source.Stream(), channels, first, first + written), bits)
    {
      var requested := Min(frames - written, chunkFrames);
      SamplesMonotone(requested, chunkFrames, channels);
      var encoded := WriteChunk(source, decoded, requested, bits);
      if encoded.Err? {
        return Err(encoded.error);
      }
      PositionFits(source);
      EncodedMore(source.Stream(), channels, first, first + written, source.Position(), bits);
      data := data + encoded.value;
      written := written + requested;
    }
    r := Ok(FileBytes(Output(frames, LlRound(rate), channels, bits), data));
  }

  /** The frames up to the position of a reader are frames of its stream. */
  lemma PositionFits(source: FrameSource)
    requires source.Valid()
    ensures source.Position() <= source.Frames()
    ensures Samples(source.Position(), source.Channels()) <= |source.Stream()|
  {
    source.StreamLength();
    SamplesMonotone(source.Position(), source.Frames(), source.Channels());
  }

  // ---------------------------------------------------------------- reading

  /** The integer division of C++, towards zero. */
  function TruncatedQuotient(x: int, n: int): int
    requires n > 0
  {
    if x >= 0 then x / n else -((-x) / n)
  }

  predicate IsReadable(f: Format) {
    0 < f.validBits <= f.containerBits && f.containerBits / 8 > 0
  }

  /** The integer of one sample: its container, less the padding bits below the valid ones. */
  function DecodedInteger(bytes: seq<byte>, f: Format): int
    requires IsReadable(f)
  {
    TruncatedQuotient(SignExtended(Value(bytes), f.containerBits), Pow2(f.containerBits - f.validBits))
  }

  /** One sample; the value of an IEEE bit pattern is a parameter. */
  function DecodedSample(bytes: seq<byte>, f: Format, ieee: nat -> real): real
    requires IsReadable(f)
  {
    if f.encoding == FORMAT_IEEE_FLOAT then ieee(Value(bytes))
    else Dequantized(DecodedInteger(bytes, f), f.validBits)
  }

  /** The `count` samples that start at byte `at`. */
  function DecodedFrom(file: seq<byte>, at: nat, count: nat, f: Format, ieee: nat -> real): (r: seq<real>)
    requires IsReadable(f) && at + Samples(count, f.containerBits / 8) <= |file|
    ensures |r| == count
  {
    if count == 0 then []
    else
      var unit, last := f.containerBits / 8, at + Samples(count - 1, f.containerBits / 8);
      DecodedFrom(file, at, count - 1, f, ieee) + [DecodedSample(file[last..last + unit], f, ieee)]
  }

  lemma {:induction false} DecodedConcat(file: seq<byte>, at: nat, a: nat, b: nat, f: Format, ieee: nat -> real)
    requires IsReadable(f) && at + Samples(a + b, f.containerBits / 8) <= |file|
    ensures Samples(a + b, f.containerBits / 8) == Samples(a, f.containerBits / 8) + Samples(b, f.containerBits / 8)
    ensures DecodedFrom(file, at, a + b, f, ieee)
         == DecodedFrom(file, at, a, f, ieee) + DecodedFrom(file, at + Samples(a, f.containerBits / 8), b, f, ieee)
    decreases b
  {
    hide DecodedSample;
    if b > 0 {
      DecodedConcat(file, at, a, b - 1, f, ieee);
    }
  }

  /** Reading from a part of the file is reading at its place in the file. */
  lemma {:induction false} DecodedPart(file: seq<byte>, from: nat, to: nat, count: nat, f: Format, ieee: nat -> real)
    requires IsReadable(f) && from <= to <= |file| && Samples(count, f.containerBits / 8) <= to - from
    ensures DecodedFrom(file[from..to], 0, count, f, ieee) == DecodedFrom(file, from, count, f, ieee)
  {
    hide DecodedSample;
    if count > 0 {
      DecodedPart(file, from, to, count - 1, f, ieee);
      var unit, last := f.containerBits / 8, Samples(count - 1, f.containerBits / 8);
      SliceOfSlice(file, from, to, last, last + unit);
    }
  }

  lemma {:induction false} DecodedAt(file: seq<byte>, at: nat, count: nat, f: Format, ieee: nat -> real, k: nat)
    requires IsReadable(f) && at + Samples(count, f.containerBits / 8) <= |file| && k < count
    ensures
      var unit, place := f.containerBits / 8, at + Samples(k, f.containerBits / 8);
      && place + unit <= |file|
      && DecodedFrom(file, at, count, f, ieee)[k] == DecodedSample(file[place..place + unit], f, ieee)
  {
    hide DecodedSample;
    if k < count - 1 {
      DecodedAt(file, at, count - 1, f, ieee, k);
    }
  }

  /** The sample loop over one block of bytes. */
  method DecodeBlock(block: seq<byte>, f: Format, ieee: nat -> real, ghost count: nat) returns (samples: seq<real>)
    requires IsReadable(f) && |block| == Samples(count, f.containerBits / 8)
    ensures samples == DecodedFrom(block, 0, count, f, ieee)
  {
    hide DecodedSample;
    samples := [];
    var offset, unit := 0, f.containerBits / 8;
    while offset < |block|
      invariant |samples| <= count && offset == Samples(|samples|, unit) <= |block|
      invariant samples == DecodedFrom(block, 0, |samples|, f, ieee)
    {
      NextFits(|samples|, count, unit);
      samples := samples + [DecodedSample(block[offset..offset + unit], f, ieee)];
      offset := offset + unit;
    }
    SamplesMonotone(|samples|, count, unit);
  }

  /** Before the end there is room for one more unit. */
  lemma NextFits(k: nat, count: nat, unit: nat)
    requires k <= count && Samples(k, unit) < Samples(count, unit)
    ensures k < count && Samples(k + 1, unit) == Samples(k, unit) + unit <= Samples(count, unit)
  {
    SamplesAdd(k, 1, unit);
    OneFrame(unit);
    if k < count {
      SamplesMonotone(k + 1, count, unit);
    }
  }

  /** All samples of a parsed file. */
  ghost function AllSamples(file: seq<byte>, d: Descriptor, ieee: nat -> real): (r: seq<real>)
    requires DescriptorOf(file) == Ok(d)
    ensures |r| == Samples(d.totalFrames, d.format.channels)
  {
    ReadableDescriptor(file, d);
    DecodedFrom(file, d.data.offset, Samples(d.totalFrames, d.format.channels), d.format, ieee)
  }

  /** Frames of samples of bytes are frames of block alignments. */
  lemma {:induction false} SamplesNest(frames: nat, channels: nat, unit: nat)
    ensures Samples(Samples(frames, channels), unit) == Samples(frames, Samples(channels, unit))
  {
    if frames > 0 {
      SamplesNest(frames - 1, channels, unit);
      SamplesAdd(channels, Samples(frames - 1, channels), unit);
    }
  }

  lemma ReadableDescriptor(file: seq<byte>, d: Descriptor)
    requires DescriptorOf(file) == Ok(d)
    ensures IsReadable(d.format) && d.format.channels > 0
    ensures d.format.blockAlign == Samples(d.format.channels, d.format.containerBits / 8)
    ensures d.data.size == Samples(Samples(d.totalFrames, d.format.channels), d.format.containerBits / 8)
    ensures d.data.offset + d.data.size <= |file|
  {
    hide DescriptorOf, Samples;
    DescriptorIsSound(file);
    SamplesNest(d.totalFrames, d.format.channels, d.format.containerBits / 8);
  }

  /** q is x / unit without its fraction, whichever sign it has. */
  ghost predicate IsTowardsZero(x: int, unit: int, q: int) {
    if x >= 0 then 0 <= x - q * unit < unit else 0 <= q * unit - x < unit
  }

  lemma QuotientIsTowardsZero(x: int, unit: int)
    requires unit > 0
    ensures IsTowardsZero(x, unit, TruncatedQuotient(x, unit))
  {
  }

  /**
   What the bytes of a sample mean: for a float the number of the pattern; for PCM the two's complement in the
   container, less the bits below the valid ones, in units of the range.
   */
  ghost predicate IsMeant(bytes: seq<byte>, f: Format, ieee: nat -> real, x: real)
    requires 0 < f.validBits <= f.containerBits
  {
    if f.encoding == 3 then x == ieee(Value(bytes))
    else
      var half, unit, scale := Pow2(f.containerBits - 1), Pow2(f.containerBits - f.validBits), Pow2(f.validBits - 1);
      exists stored: int, value: int ::
        && IsTwosComplement(Value(bytes), stored, half) && IsTowardsZero(stored, unit, value)
        && Gained(x, scale as real) == value as real
  }

  lemma DecodedIsMeant(bytes: seq<byte>, f: Format, ieee: nat -> real)
    requires IsReadable(f)
    ensures IsMeant(bytes, f, ieee, DecodedSample(bytes, f, ieee))
  {
    hide Value, SignExtended, Pow2, Dequantized, Gained, IsTowardsZero, TruncatedQuotient, IsTwosComplement;
    if f.encoding != FORMAT_IEEE_FLOAT {
      var stored := SignExtended(Value(bytes), f.containerBits);
      SignExtendedIsTwosComplement(Value(bytes), f.containerBits);
      QuotientIsTowardsZero(stored, Pow2(f.containerBits - f.validBits));
      DequantizedExact(DecodedInteger(bytes, f), f.validBits);
    }
  }

  /** Sample k is meant by the bytes at its place in the data. */
  ghost predicate IsMeantAt(file: seq<byte>, d: Descriptor, ieee: nat -> real, samples: seq<real>, k: nat) {
    var unit := d.format.containerBits / 8;
    var at := d.data.offset + Samples(k, unit);
    && 0 < d.format.validBits <= d.format.containerBits && at + unit <= |file| && k < |samples|
    && IsMeant(file[at..at + unit], d.format, ieee, samples[k])
  }

  /** There are as many samples as frames on all channels, and each is meant by its bytes. */
  ghost predicate AreMeant(file: seq<byte>, d: Descriptor, ieee: nat -> real, samples: seq<real>) {
    && |samples| == Samples(d.totalFrames, d.format.channels)
    && forall k: nat :: k < |samples| ==> IsMeantAt(file, d, ieee, samples, k)
  }

  lemma AllSamplesAreMeant(file: seq<byte>, d: Descriptor, ieee: nat -> real)
    requires DescriptorOf(file) == Ok(d)
    ensures AreMeant(file, d, ieee, AllSamples(file, d, ieee))
  {
    hide DescriptorOf, Samples, DecodedSample, IsMeant;
    ReadableDescriptor(file, d);
    forall k: nat | k < Samples(d.totalFrames, d.format.channels)
      ensures IsMeantAt(file, d, ieee, AllSamples(file, d, ieee), k)
    {
      DecodedAt(file, d.data.offset, Samples(d.totalFrames, d.format.channels), d.format, ieee, k);
      var unit := d.format.containerBits / 8;
      var at := d.data.offset + Samples(k, unit);
      DecodedIsMeant(file[at..at + unit], d.format, ieee);
    }
  }

  /** The samples of a list of chunks are those of its first data chunk, wherever that lies. */
  lemma ContainerSamples(f: Container, ieee: nat -> real)
    requires f.Valid() && ParsedChunks(f.chunks).Ok?
    ensures
      var d, data := ParsedChunks(f.chunks).value, if Has(f.chunks, DATA) then First(f.chunks, DATA).body else [];
      && DescriptorOf(f.ToBytes()) == Ok(d) && IsReadable(d.format)
      && Samples(Samples(d.totalFrames, d.format.channels), d.format.containerBits / 8) == |data|
      && AllSamples(f.ToBytes(), d, ieee)
           == DecodedFrom(data, 0, Samples(d.totalFrames, d.format.channels), d.format, ieee)
  {
    hide DescriptorOf, Samples, DecodedFrom, ParsedChunks, Container.Valid, Container.ToBytes, Has, First;
    var file, d := f.ToBytes(), ParsedChunks(f.chunks).value;
    ContainerParses(f);
    DataAreThere(f);
    ReadableDescriptor(file, d);
    DecodedPart(file, d.data.offset, d.data.offset + d.data.size, Samples(d.totalFrames, d.format.channels), d.format,
                ieee);
  }

  const PREFERRED_BLOCK_BYTES: nat := 64 * 1024

  /** The byte count of a block of read_wav: whole frames, close to 64 KiB. */
  function BlockBytes(blockAlign: pos): (r: pos)
    ensures r % blockAlign == 0
    ensures if blockAlign <= 65536 then r <= 65536 < r + blockAlign else r == blockAlign
  {
    var size := PREFERRED_BLOCK_BYTES - PREFERRED_BLOCK_BYTES % blockAlign;
    if size == 0 then blockAlign
    else
      BlockIsWhole(blockAlign);
      size
  }

  lemma BlockIsWhole(blockAlign: pos)
    ensures (PREFERRED_BLOCK_BYTES - PREFERRED_BLOCK_BYTES % blockAlign) % blockAlign == 0
  {
    var q := PREFERRED_BLOCK_BYTES / blockAlign;
    DivModUnique(PREFERRED_BLOCK_BYTES - PREFERRED_BLOCK_BYTES % blockAlign, q, 0, blockAlign);
  }

  /** The samples of frames [done, done + frames) are those that start at their place in the data. */
  lemma SamplesOfFrames(file: seq<byte>, d: Descriptor, ieee: nat -> real, done: nat, frames: nat)
    requires DescriptorOf(file) == Ok(d) && done + frames <= d.totalFrames
    ensures IsReadable(d.format)
    ensures
      var from, count := Samples(done, d.format.channels), Samples(frames, d.format.channels);
      var at := d.data.offset + Samples(done, d.format.blockAlign);
      && from + count == Samples(done + frames, d.format.channels) <= |AllSamples(file, d, ieee)|
      && Samples(frames, d.format.blockAlign) == Samples(count, d.format.containerBits / 8)
      && at + Samples(frames, d.format.blockAlign) <= d.data.offset + d.data.size <= |file|
      && AllSamples(file, d, ieee)[from..from + count] == DecodedFrom(file, at, count, d.format, ieee)
  {
    hide DescriptorOf, Samples, DecodedFrom, IsReadable;
    ReadableDescriptor(file, d);
    var f, unit := d.format, d.format.containerBits / 8;
    var rest := d.totalFrames - done - frames;
    SamplesNest(done, f.channels, unit);
    SamplesNest(frames, f.channels, unit);
    SamplesNest(rest, f.channels, unit);
    SamplesNest(d.totalFrames, f.channels, unit);
    SamplesAdd(done, frames, f.channels);
    SamplesAdd(done + frames, rest, f.channels);
    SamplesAdd(done, frames, f.blockAlign);
    SamplesAdd(done + frames, rest, f.blockAlign);
    var from, count, tail := Samples(done, f.channels), Samples(frames, f.channels), Samples(rest, f.channels);
    DecodedConcat(file, d.data.offset, from + count, tail, f, ieee);
    DecodedConcat(file, d.data.offset, from, count, f, ieee);
  }

  /** Reads the bytes of whole frames at their place and decodes them. */
  method ReadBlock(file: seq<byte>, d: Descriptor, ieee: nat -> real, at: nat, bytes: nat, ghost done: nat,
                   ghost frames: nat)
    returns (samples: seq<real>)
    requires DescriptorOf(file) == Ok(d) && done + frames <= d.totalFrames
    requires at == d.data.offset + Samples(done, d.format.blockAlign) && bytes == Samples(frames, d.format.blockAlign)
    ensures
      && Samples(done, d.format.channels) + Samples(frames, d.format.channels)
           == Samples(done + frames, d.format.channels) <= |AllSamples(file, d, ieee)|
      && samples
           == AllSamples(file, d, ieee)[Samples(done, d.format.channels)..Samples(done + frames, d.format.channels)]
  {
    hide DescriptorOf, Samples, DecodedFrom, AllSamples, IsReadable;
    SamplesOfFrames(file, d, ieee, done, frames);
    samples := DecodeBlock(file[at..at + bytes], d.format, ieee, Samples(frames, d.format.channels));
    DecodedPart(file, at, at + bytes, Samples(frames, d.format.channels), d.format, ieee);
  }

  /** The smaller of two multiples is the multiple of the smaller factor. */
  lemma MinOfFrames(a: nat, b: nat, unit: nat)
    ensures Min(Samples(a, unit), Samples(b, unit)) == Samples(Min(a, b), unit)
  {
    if a <= b {
      SamplesMonotone(a, b, unit);
    } else {
      SamplesMonotone(b, a, unit);
    }
  }

  lemma NextBlock(total: nat, done: nat, blockFrames: nat, align: nat)
    requires done <= total
    ensures
      var frames := Min(total - done, blockFrames);
      && Min(Samples(total - done, align), Samples(blockFrames, align)) == Samples(frames, align)
      && Samples(total - done, align) - Samples(frames, align) == Samples(total - done - frames, align)
      && Samples(total, align) - Samples(total - done, align) == Samples(done, align)
  {
    var frames := Min(total - done, blockFrames);
    MinOfFrames(total - done, blockFrames, align);
    SamplesAdd(done, total - done, align);
    SamplesAdd(frames, total - done - frames, align);
  }

  lemma FramesOfBlock(blockAlign: pos) returns (frames: nat)
    ensures Samples(frames, blockAlign) == BlockBytes(blockAlign)
  {
    frames := BlockBytes(blockAlign) / blockAlign;
    SamplesIsProduct(frames, blockAlign);
  }

  /** The block loop of read_wav. */
  method ReadBlocks(file: seq<byte>, d: Descriptor, ieee: nat -> real) returns (samples: seq<real>)
    requires DescriptorOf(file) == Ok(d)
    ensures samples == AllSamples(file, d, ieee)
  {
    hide DescriptorOf, Samples, AllSamples, IsReadable, BlockBytes;
    ReadableDescriptor(file, d);
    var align := d.format.blockAlign;
    AlignIsPositive(file, d);
    samples := [];
    ghost var done := 0;
    ghost var blockFrames := FramesOfBlock(align);
    SamplesNest(d.totalFrames, d.format.channels, d.format.containerBits / 8);
    var remaining := d.data.size;
    NoSamples(d.format.channels);
    while remaining > 0
      invariant 0 <= done <= d.totalFrames && remaining == Samples(d.totalFrames - done, align) <= d.data.size
      invariant Samples(done, d.format.channels) <= |AllSamples(file, d, ieee)|
      invariant samples == AllSamples(file, d, ieee)[..Samples(done, d.format.channels)]
      decreases remaining
    {
      var bytes := Min(remaining, BlockBytes(align));
      ghost var frames := Min(d.totalFrames - done, blockFrames);
      NextBlock(d.totalFrames, done, blockFrames, align);
      var block := ReadBlock(file, d, ieee, d.data.offset + (d.data.size - remaining), bytes, done, frames);
      samples := samples + block;
      done := done + frames;
      remaining := remaining - bytes;
    }
    AllFramesDone(d.totalFrames - done, align);
  }

  /** read_wav: all samples, block by block. */
  method ReadWav(file: seq<byte>, ieee: nat -> real) returns (r: Result<(Descriptor, seq<real>)>)
    ensures DescriptorOf(file).Err? ==> r == Err(DescriptorOf(file).error)
    ensures DescriptorOf(file).Ok? ==>
      var d := DescriptorOf(file).value; r == Ok((d, AllSamples(file, d, ieee)))
    ensures r.Ok? <==> HasAcceptedChunks(file)
    ensures r.Ok? ==> IsParsedAs(file, Ok(r.value.0)) && AreMeant(file, r.value.0, ieee, r.value.1)
  {
    hide DescriptorOf, AllSamples, HasAcceptedChunks, IsParsedAs, AreMeant;
    var described := ParseDescriptor(file);
    if described.Err? {
      return Err(described.error);
    }
    var samples := ReadBlocks(file, described.value, ieee);
    AllSamplesAreMeant(file, described.value, ieee);
    r := Ok((described.value, samples));
  }

  lemma AllFramesDone(frames: nat, unit: pos)
    requires Samples(frames, unit) == 0
    ensures frames == 0
  {
    SamplesMonotone(0, frames, unit);
  }

  lemma AlignIsPositive(file: seq<byte>, d: Descriptor)
    requires DescriptorOf(file) == Ok(d)
    ensures 0 < d.format.blockAlign
  {
    DescriptorIsSound(file);
  }

  // ---------------------------------------------------------------- the stream

  /** WavFloat32FrameReader. */
  class WavReader {
    const file: seq<byte>
    const d: Descriptor
    const ieee: nat -> real
    var position: nat
    var remaining: nat

    ghost predicate Valid()
      reads this
    {
      && DescriptorOf(file) == Ok(d) && remaining <= d.totalFrames
      && position == d.data.offset + Samples(d.totalFrames - remaining, d.format.blockAlign)
    }

    constructor (file: seq<byte>, d: Descriptor, ieee: nat -> real, start: nat)
      requires DescriptorOf(file) == Ok(d) && start <= d.totalFrames
      ensures Valid() && remaining == d.totalFrames - start
      ensures this.file == file && this.d == d && this.ieee == ieee
    {
      this.file := file;
      this.d := d;
      this.ieee := ieee;
      this.position := d.data.offset + Samples(start, d.format.blockAlign);
      this.remaining := d.totalFrames - start;
    }

    /** read_frames: the next frames of the file, wherever the stream started. */
    method ReadFrames(destination: array<real>, offset: nat, frames: nat) returns (read: nat)
      requires Valid() && offset + Samples(frames, d.format.channels) <= destination.Length
      modifies this, destination
      ensures Valid() && read == Min(old(remaining), frames) && remaining == old(remaining) - read
      ensures
        var first, channels := d.totalFrames - old(remaining), d.format.channels;
        && Samples(first, channels) <= Samples(first + read, channels) <= |AllSamples(file, d, ieee)|
        && offset + Samples(read, channels) <= destination.Length
        && destination[offset..offset + Samples(read, channels)]
             == AllSamples(file, d, ieee)[Samples(first, channels)..Samples(first + read, channels)]
      ensures destination[..offset] == old(destination[..offset])
    {
      hide DescriptorOf, Samples, AllSamples;
      ghost var done := d.totalFrames - remaining;
      read := Min(remaining, frames);
      SamplesMonotone(read, frames, d.format.channels);
      SamplesAdd(done, read, d.format.blockAlign);
      var bytes := Samples(read, d.format.blockAlign);
      var block := ReadBlock(file, d, ieee, position, bytes, done, read);
      CopyInto(block, destination, offset);
      position := position + bytes;
      remaining := remaining - read;
    }
  }

  // ---------------------------------------------------------------- the round trip

  lemma DataFollows(o: Output, data: seq<byte>)
    requires o.Fits() && |data| == o.DataSize()
    ensures 44 + |data| <= |FileBytes(o, data)| && FileBytes(o, data)[44..44 + |data|] == data
  {
    hide FileBytes, Bytes, Value, FmtBody, Samples;
    FileParts(o, data);
  }

  lemma EncodedLength(o: Output, samples: seq<real>)
    requires o.Fits() && |samples| == Samples(o.frames, o.channels)
    ensures o.bits > 0 && |Encoded(samples, o.bits)| == o.DataSize()
  {
    hide Encoded;
    SamplesNest(o.frames, o.channels, o.bits / 8);
  }

  /** Where the encoded samples lie in a file, each of them lies at its place. */
  lemma EncodedInFile(file: seq<byte>, samples: seq<real>, bits: pos, k: nat)
    requires k < |samples| && 44 + |Encoded(samples, bits)| <= |file|
    requires file[44..44 + |Encoded(samples, bits)|] == Encoded(samples, bits)
    ensures
      var at, unit := 44 + Samples(k, bits / 8), bits / 8;
      at + unit <= |file| && file[at..at + unit] == EncodedSample(samples[k], bits)
  {
    hide *;
    var data, at := Encoded(samples, bits), Samples(k, bits / 8);
    EncodedAt(samples, bits, k);
    SliceOfSlice(file, 44, 44 + |data|, at, at + bits / 8);
  }

  lemma WrittenSample(o: Output, samples: seq<real>, k: nat)
    requires o.Fits() && |samples| == Samples(o.frames, o.channels) && k < |samples|
    ensures
      var file, at, unit := FileBytes(o, Encoded(samples, o.bits)), 44 + Samples(k, o.bits / 8), o.bits / 8;
      at + unit <= |file| && file[at..at + unit] == EncodedSample(samples[k], o.bits)
  {
    hide *;
    EncodedLength(o, samples);
    DataFollows(o, Encoded(samples, o.bits));
    EncodedInFile(FileBytes(o, Encoded(samples, o.bits)), samples, o.bits, k);
  }

  lemma SampleReadsBack(x: real, f: Format, ieee: nat -> real)
    requires f.encoding == FORMAT_PCM && f.validBits == f.containerBits
    requires f.containerBits == 16 || f.containerBits == 24 || f.containerBits == 32
    ensures DecodedInteger(EncodedSample(x, f.containerBits), f) == Quantized(x, f.containerBits)
    ensures DecodedSample(EncodedSample(x, f.containerBits), f, ieee)
         == Dequantized(Quantized(x, f.containerBits), f.containerBits)
  {
    hide Quantized, Dequantized, Bytes, Value, SignExtended, Wrapped;
    QuantizedInRange(x, f.containerBits);
    SignedRoundTrip(Quantized(x, f.containerBits), 64, f.containerBits / 8, f.containerBits);
    assert Pow2(0) == 1;
  }

  /** Every integer that is read back from a written file is the quantised sample that was written. */
  lemma WavRoundTrip(o: Output, samples: seq<real>, ieee: nat -> real, k: nat)
    requires o.Fits() && o.rate >= 1 && |samples| == Samples(o.frames, o.channels) && k < |samples|
    ensures
      var file := FileBytes(o, Encoded(samples, o.bits));
      && DescriptorOf(file) == Ok(Descriptor(FormatOf(o), Located(44, o.DataSize()), o.frames))
      && |AllSamples(file, DescriptorOf(file).value, ieee)| == |samples|
      && AllSamples(file, DescriptorOf(file).value, ieee)[k] == Dequantized(Quantized(samples[k], o.bits), o.bits)
  {
    hide DescriptorOf, Samples, DecodedSample, EncodedSample, Encoded, FileBytes, Bytes, Value, Quantized, Dequantized;
    var file := FileBytes(o, Encoded(samples, o.bits));
    SamplesNest(o.frames, o.channels, o.bits / 8);
    ContainerRoundTrip(o, Encoded(samples, o.bits));
    WrittenSample(o, samples, k);
    var d := DescriptorOf(file).value;
    ReadableDescriptor(file, d);
    DecodedAt(file, 44, |samples|, d.format, ieee, k);
    SampleReadsBack(samples[k], FormatOf(o), ieee);
  }

  /**
   The same with other chunks around those that were written: the format, the frames and every sample stay, only the
   place of the data moves.
   */
  lemma OtherChunksKeepSamples(o: Output, samples: seq<real>, before: seq<Chunk>, between: seq<Chunk>,
                               behind: seq<Chunk>, tail: seq<byte>, rest: seq<byte>, ieee: nat -> real, k: nat)
    requires o.Fits() && o.rate >= 1 && |samples| == Samples(o.frames, o.channels) && k < |samples|
    requires AreOther(before) && AreOther(between)
    requires Container(WithOthers(o, Encoded(samples, o.bits), before, between, behind), tail, rest).Valid()
    ensures
      var file := Container(WithOthers(o, Encoded(samples, o.bits), before, between, behind), tail, rest).ToBytes();
      && DescriptorOf(file)
           == Ok(Descriptor(FormatOf(o), Located(44 + Length(before) + Length(between), o.DataSize()), o.frames))
      && |AllSamples(file, DescriptorOf(file).value, ieee)| == |samples|
      && AllSamples(file, DescriptorOf(file).value, ieee)[k] == Dequantized(Quantized(samples[k], o.bits), o.bits)
  {
    hide *;
    OtherChunksKeepData(o, samples, before, between, behind, tail, rest, ieee);
    EncodedDecodes(o, samples, ieee, k);
  }

  lemma OtherChunksKeepData(o: Output, samples: seq<real>, before: seq<Chunk>, between: seq<Chunk>,
                            behind: seq<Chunk>, tail: seq<byte>, rest: seq<byte>, ieee: nat -> real)
    requires o.Fits() && o.rate >= 1 && |samples| == Samples(o.frames, o.channels)
    requires AreOther(before) && AreOther(between)
    requires Container(WithOthers(o, Encoded(samples, o.bits), before, between, behind), tail, rest).Valid()
    ensures
      var file := Container(WithOthers(o, Encoded(samples, o.bits), before, between, behind), tail, rest).ToBytes();
      && DescriptorOf(file)
           == Ok(Descriptor(FormatOf(o), Located(44 + Length(before) + Length(between), o.DataSize()), o.frames))
      && IsReadable(FormatOf(o))
      && Samples(|samples|, FormatOf(o).containerBits / 8) == |Encoded(samples, o.bits)|
      && AllSamples(file, DescriptorOf(file).value, ieee)
           == DecodedFrom(Encoded(samples, o.bits), 0, |samples|, FormatOf(o), ieee)
  {
    hide *;
    EncodedLength(o, samples);
    var data := Encoded(samples, o.bits);
    var f := Container(WithOthers(o, data, before, between, behind), tail, rest);
    OtherChunksAreSkipped(o, data, before, between, behind, tail, rest);
    ContainerParses(f);
    OthersStay(o, data, before, between, behind);
    ContainerSamples(f, ieee);
    WrittenDimensions(o, data);
  }

  lemma WrittenDimensions(o: Output, data: seq<byte>)
    ensures FormatOf(o).channels == o.channels && FormatOf(o).containerBits == o.bits && DataChunk(data).body == data
  {
  }

  /** The encoded samples decode as their quantised values. */
  lemma EncodedDecodes(o: Output, samples: seq<real>, ieee: nat -> real, k: nat)
    requires o.Fits() && IsReadable(FormatOf(o)) && k < |samples|
    requires Samples(|samples|, FormatOf(o).containerBits / 8) == |Encoded(samples, o.bits)|
    ensures DecodedFrom(Encoded(samples, o.bits), 0, |samples|, FormatOf(o), ieee)[k]
         == Dequantized(Quantized(samples[k], o.bits), o.bits)
  {
    hide Samples, DecodedFrom, DecodedSample, EncodedSample, Encoded, Quantized, Dequantized;
    DecodedAt(Encoded(samples, o.bits), 0, |samples|, FormatOf(o), ieee, k);
    EncodedAt(samples, o.bits, k);
    SampleReadsBack(samples[k], FormatOf(o), ieee);
  }

  lemma ExactQuotient(value: int, unit: int)
    requires unit > 0
    ensures TruncatedQuotient(value * unit, unit) == value
  {
    DivModUnique(value * unit, value, 0, unit);
    DivModUnique((-value) * unit, -value, 0, unit);
  }

  /** A quotient is below a bound if the dividend is, in units of the divisor. */
  lemma QuotientBelow(value: nat, bound: int, unit: int)
    requires unit > 0
    ensures 0 <= value / unit
    ensures value < bound * unit ==> value / unit < bound
    ensures value <= bound * unit ==> value / unit <= bound
  {
    var q := value / unit;
    assert q * unit <= value < q * unit + unit;
    if q >= bound {
      MulMonotone(bound, q, unit);
    }
    if q >= bound + 1 {
      MulDistributes(bound, 1, unit);
      MulMonotone(bound + 1, q, unit);
    }
  }

  lemma PaddingDropped(value: nat, valid: pos, padding: nat)
    ensures 0 <= value / Pow2(padding)
    ensures value < Pow2(valid + padding - 1) ==> value / Pow2(padding) < Pow2(valid - 1)
    ensures value <= Pow2(valid + padding - 1) ==> value / Pow2(padding) <= Pow2(valid - 1)
  {
    hide Pow2;
    Pow2Add(valid - 1, padding);
    QuotientBelow(value, Pow2(valid - 1), Pow2(padding));
  }

  /** Dropping `padding` low bits of a value in range leaves a value in the smaller range. */
  lemma QuotientInRange(value: int, valid: pos, padding: nat)
    requires InRange(value, valid + padding)
    ensures InRange(TruncatedQuotient(value, Pow2(padding)), valid)
  {
    hide Pow2;
    PaddingDropped(if value >= 0 then value else -value, valid, padding);
  }

  /** Whatever bytes a PCM file holds, a decoded sample lies in [-1, 1). */
  lemma DecodedIsInRange(bytes: seq<byte>, f: Format, ieee: nat -> real)
    requires IsReadable(f) && f.encoding == FORMAT_PCM
    ensures InRange(DecodedInteger(bytes, f), f.validBits)
    ensures -1.0 <= DecodedSample(bytes, f, ieee) < 1.0
  {
    hide Dequantized, Value, SignExtended, InRange, TruncatedQuotient, Pow2;
    SignExtendedInRange(Value(bytes), f.containerBits);
    QuotientInRange(SignExtended(Value(bytes), f.containerBits), f.validBits, f.containerBits - f.validBits);
    DequantizedScales(DecodedInteger(bytes, f), f.validBits);
  }

  lemma ScaledInRange(value: int, valid: pos, padding: nat)
    requires InRange(value, valid)
    ensures InRange(value * Pow2(padding), valid + padding)
  {
    hide Pow2;
    Pow2Add(valid - 1, padding);
    ProductBounds(value, Pow2(valid - 1), Pow2(padding));
  }

  lemma ProductBounds(value: int, half: int, unit: int)
    requires unit > 0 && -half <= value < half
    ensures -(half * unit) <= value * unit < half * unit
  {
    MulMonotone(-half, value, unit);
    MulMonotone(value, half - 1, unit);
    MulDistributes(half, 1, unit);
  }

  /** A value in the upper bits of a wider container is read as itself, without the padding below it. */
  lemma PaddedSampleReadsBack(value: int, f: Format)
    requires 0 < f.validBits <= f.containerBits && InRange(value, f.validBits)
    requires f.containerBits == 16 || f.containerBits == 24 || f.containerBits == 32
    ensures
      var stored := Wrapped(value * Pow2(f.containerBits - f.validBits), f.containerBits);
      DecodedInteger(Bytes(stored, f.containerBits / 8), f) == value
  {
    hide Bytes, Value, SignExtended, Wrapped, Pow2, InRange, TruncatedQuotient;
    var padding := f.containerBits - f.validBits;
    ScaledInRange(value, f.validBits, padding);
    SignedRoundTrip(value * Pow2(padding), f.containerBits, f.containerBits / 8, f.containerBits);
    ExactQuotient(value, Pow2(padding));
  }

  /** A positive rate that rounds to zero is accepted for writing, and then the file cannot be read. */
  lemma RateBelowOneIsLost(data: seq<byte>)
    requires |data| == 2
    ensures CapacityError(1, 0.0005, 1, 16) == None && LlRound(0.0005) == 0
    ensures DescriptorOf(FileBytes(Output(1, 0, 1, 16), data)) == Err(WavRead)
  {
    SamplesIsProduct(1, 2);
    ContainerRoundTrip(Output(1, 0, 1, 16), data);
  }
}
