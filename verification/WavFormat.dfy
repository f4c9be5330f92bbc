/**
 The RIFF/WAVE container: which outputs fit into it, the bytes of a header, the walk over the
 chunks of a file, and that what is written is what is parsed.
 */
module WavFormat {
  import opened Arithmetic
  import opened PcmCodec
  import opened Wrappers

  const FORMAT_PCM := 0x0001
  const FORMAT_IEEE_FLOAT := 0x0003
  const FORMAT_EXTENSIBLE := 0xFFFE
  const MAX_U16: nat := 0xFFFF
  const MAX_U32: nat := 0xFFFF_FFFF
  const MAX_U64: nat := 0xFFFF_FFFF_FFFF_FFFF

  const RIFF: seq<byte> := [0x52, 0x49, 0x46, 0x46]
  const WAVE: seq<byte> := [0x57, 0x41, 0x56, 0x45]
  const FMT: seq<byte> := [0x66, 0x6D, 0x74, 0x20]
  const DATA: seq<byte> := [0x64, 0x61, 0x74, 0x61]
  const GUID_TAIL: seq<byte> :=
    [0x00, 0x00, 0x10, 0x00, 0x80, 0x00, 0x00, 0xAA, 0x00, 0x38, 0x9B, 0x71]

  function U16(bytes: seq<byte>, at: nat): nat
    requires at + 2 <= |bytes|
  {
    Value(bytes[at..at + 2])
  }

  function U32(bytes: seq<byte>, at: nat): nat
    requires at + 4 <= |bytes|
  {
    Value(bytes[at..at + 4])
  }

  // ---------------------------------------------------------------- the format chunk

  datatype Format = Format(
    encoding: nat, channels: nat, sampleRate: nat, blockAlign: nat, containerBits: nat, validBits: nat)

  /** The extensible form: the sub-format with its tag, and the valid bits. */
  function ParseExtension(bytes: seq<byte>, chunkSize: nat, containerBits: nat): Result<(nat, nat)>
    requires |bytes| >= 16
  {
    var extensionSize := if |bytes| >= 18 then U16(bytes, 16) else 0;
    if chunkSize < 40 || |bytes| < 40 || extensionSize < 22 || extensionSize + 18 > chunkSize then Err(WavRead)
    else
      var valid := U16(bytes, 18);
      var validBits := if valid == 0 then containerBits else valid;
      if bytes[28..40] != GUID_TAIL then Err(UnsupportedFormat)
      else
        var subformat := U32(bytes, 24);
        if subformat != FORMAT_PCM && subformat != FORMAT_IEEE_FLOAT then Err(UnsupportedFormat)
        else Ok((subformat, validBits))
  }

  /** The checks of parse_format_chunk on the fields, in their order. */
  function CheckFormat(f: Format): Result<Format> {
    if f.encoding != FORMAT_PCM && f.encoding != FORMAT_IEEE_FLOAT then Err(UnsupportedFormat)
    else if f.channels == 0 || f.sampleRate == 0 || f.blockAlign == 0 then Err(WavRead)
    else if f.containerBits != 16 && f.containerBits != 24 && f.containerBits != 32 then Err(UnsupportedBitDepth)
    else if f.encoding == FORMAT_IEEE_FLOAT && f.containerBits != 32 then Err(UnsupportedFormat)
    else if f.validBits == 0 || f.validBits > f.containerBits then Err(UnsupportedFormat)
    else if f.encoding == FORMAT_IEEE_FLOAT && f.validBits != 32 then Err(UnsupportedFormat)
    else
      var expected := Samples(f.channels, f.containerBits / 8);
      if expected > MAX_U16 || f.blockAlign != expected then Err(WavRead) else Ok(f)
  }

  /** parse_format_chunk on the first 40 bytes of the chunk. */
  function ParseFormat(bytes: seq<byte>, chunkSize: nat): Result<Format> {
    if chunkSize < 16 || |bytes| < 16 then Err(WavRead)
    else
      var tag, bits := U16(bytes, 0), U16(bytes, 14);
      var f := Format(tag, U16(bytes, 2), U32(bytes, 4), U16(bytes, 12), bits, bits);
      if tag == FORMAT_EXTENSIBLE then
        var extension := ParseExtension(bytes, chunkSize, bits);
        if extension.Err? then Err(extension.error)
        else CheckFormat(f.(encoding := extension.value.0, validBits := extension.value.1))
      else CheckFormat(f)
  }

  /**
   The format chunks that are accepted: 16, 24 or 32 bits of PCM, or 32 bits of float, with whole bytes for each
   sample and no others in a frame.
   */
  ghost predicate IsAcceptedFormat(f: Format) {
    && (f.encoding == 1 || f.encoding == 3)
    && f.channels > 0 && f.sampleRate > 0
    && (f.containerBits == 16 || f.containerBits == 24 || f.containerBits == 32)
    && 0 < f.validBits <= f.containerBits
    && (f.encoding == 3 ==> f.validBits == 32)
    && f.blockAlign == f.channels * (f.containerBits / 8) <= 65535
  }

  /** What is wrong with the fields: of several faults the one that is found first. */
  lemma FormatFaults(f: Format)
    ensures CheckFormat(f).Ok? <==> IsAcceptedFormat(f)
    ensures CheckFormat(f).Ok? ==> CheckFormat(f).value == f
    ensures CheckFormat(f) == Err(UnsupportedBitDepth) <==>
      && (f.encoding == 1 || f.encoding == 3) && f.channels > 0 && f.sampleRate > 0 && f.blockAlign > 0
      && f.containerBits != 16 && f.containerBits != 24 && f.containerBits != 32
    ensures CheckFormat(f) == Err(WavRead) <==>
      && (f.encoding == 1 || f.encoding == 3)
      && (|| f.channels == 0 || f.sampleRate == 0 || f.blockAlign == 0
          || (&& (f.containerBits == 16 || f.containerBits == 24 || f.containerBits == 32)
              && 0 < f.validBits <= f.containerBits && (f.encoding == 3 ==> f.validBits == 32)
              && (f.channels * (f.containerBits / 8) > 65535 || f.blockAlign != f.channels * (f.containerBits / 8))))
    ensures CheckFormat(f).Err? ==>
      CheckFormat(f).error == UnsupportedFormat || CheckFormat(f).error == UnsupportedBitDepth
      || CheckFormat(f).error == WavRead
  {
    SamplesIsProduct(f.channels, f.containerBits / 8);
    if f.channels > 0 && f.containerBits >= 16 {
      MulMonotone(1, f.channels, f.containerBits / 8);
    }
  }

  /** The plain form of the chunk: its fields at their places. */
  ghost predicate IsPlainChunk(bytes: seq<byte>, chunkSize: nat, f: Format) {
    && 16 <= chunkSize && 16 <= |bytes| && U16(bytes, 0) != 0xFFFE
    && f.encoding == U16(bytes, 0) && f.channels == U16(bytes, 2) && f.sampleRate == U32(bytes, 4)
    && f.blockAlign == U16(bytes, 12) && f.containerBits == f.validBits == U16(bytes, 14)
  }

  /** The extensible form: an extension of 22 bytes or more with valid bits, a sub-format and the GUID it is of. */
  ghost predicate IsExtensibleChunk(bytes: seq<byte>, chunkSize: nat, f: Format) {
    && 40 <= chunkSize && 40 <= |bytes| && U16(bytes, 0) == 0xFFFE
    && f.channels == U16(bytes, 2) && f.sampleRate == U32(bytes, 4) && f.blockAlign == U16(bytes, 12)
    && f.containerBits == U16(bytes, 14)
    && 22 <= U16(bytes, 16) <= chunkSize - 18
    && f.validBits == (if U16(bytes, 18) == 0 then f.containerBits else U16(bytes, 18))
    && f.encoding == U32(bytes, 24)
    && bytes[28..40] == [0x00, 0x00, 0x10, 0x00, 0x80, 0x00, 0x00, 0xAA, 0x00, 0x38, 0x9B, 0x71]
  }

  lemma AcceptedEncoding(f: Format)
    requires IsAcceptedFormat(f)
    ensures f.encoding == 1 || f.encoding == 3
  {
  }

  /** A format chunk is accepted exactly if it has one of the two forms with accepted fields, and as these. */
  lemma ParsedFormatIsAccepted(bytes: seq<byte>, chunkSize: nat, f: Format)
    ensures ParseFormat(bytes, chunkSize) == Ok(f) <==>
      && IsAcceptedFormat(f)
      && (IsPlainChunk(bytes, chunkSize, f) || IsExtensibleChunk(bytes, chunkSize, f))
  {
    hide U16, U32, CheckFormat, IsAcceptedFormat;
    FormatFaults(f);
    if IsAcceptedFormat(f) {
      AcceptedEncoding(f);
    }
    if chunkSize >= 16 && |bytes| >= 16 {
      var bits := U16(bytes, 14);
      var read := Format(U16(bytes, 0), U16(bytes, 2), U32(bytes, 4), U16(bytes, 12), bits, bits);
      FormatFaults(read);
      var extension := ParseExtension(bytes, chunkSize, bits);
      if extension.Ok? {
        FormatFaults(read.(encoding := extension.value.0, validBits := extension.value.1));
      }
    }
  }

  /** The extension is too short for what it must hold. */
  ghost predicate IsShortExtension(bytes: seq<byte>, chunkSize: nat)
    requires |bytes| >= 16
  {
    chunkSize < 40 || |bytes| < 40 || U16(bytes, 16) < 22 || U16(bytes, 16) + 18 > chunkSize
  }

  /** Of a format chunk that is refused before its fields are checked. */
  lemma FormatChunkFaults(bytes: seq<byte>, chunkSize: nat)
    ensures chunkSize < 16 || |bytes| < 16 ==> ParseFormat(bytes, chunkSize) == Err(WavRead)
    ensures chunkSize >= 16 && |bytes| >= 16 && U16(bytes, 0) == 0xFFFE ==>
      if IsShortExtension(bytes, chunkSize) then ParseFormat(bytes, chunkSize) == Err(WavRead)
      else bytes[28..40] != [0x00, 0x00, 0x10, 0x00, 0x80, 0x00, 0x00, 0xAA, 0x00, 0x38, 0x9B, 0x71]
           || (U32(bytes, 24) != 1 && U32(bytes, 24) != 3) ==>
             ParseFormat(bytes, chunkSize) == Err(UnsupportedFormat)
  {
    hide U16, U32, CheckFormat;
  }

  // ---------------------------------------------------------------- the chunk walk

  datatype Located = Located(offset: nat, size: nat)

  datatype Found = Found(format: Option<Format>, data: Option<Located>)

  /** One chunk header: what is found now and where the next chunk starts. */
  function Visit(file: seq<byte>, riffEnd: nat, position: nat, found: Found): (r: Result<(Found, nat)>)
    requires position + 8 <= riffEnd <= |file|
    ensures r.Ok? ==> position + 8 <= r.value.1 <= riffEnd
  {
    var id, size, payload := file[position..position + 4], U32(file, position + 4), position + 8;
    var padded := size + size % 2;
    if padded > riffEnd - payload then Err(WavRead)
    else if id == FMT && found.format.None? then
      var format := ParseFormat(file[payload..payload + Min(size, 40)], size);
      if format.Err? then Err(format.error) else Ok((found.(format := Some(format.value)), payload + padded))
    else if id == DATA && found.data.None? then
      Ok((found.(data := Some(Located(payload, size))), payload + padded))
    else Ok((found, payload + padded))
  }

  function Walk(file: seq<byte>, riffEnd: nat, position: nat, found: Found): Result<Found>
    requires position <= riffEnd <= |file|
    decreases riffEnd - position
  {
    if position + 8 > riffEnd then Ok(found)
    else
      var next := Visit(file, riffEnd, position, found);
      if next.Err? then Err(next.error) else Walk(file, riffEnd, next.value.1, next.value.0)
  }

  datatype Descriptor = Descriptor(format: Format, data: Located, totalFrames: nat)

  function Described(found: Found): Result<Descriptor>
    requires found.format.Some? ==> found.format.value.blockAlign > 0
  {
    if found.format.None? || found.data.None? then Err(WavRead)
    else
      var format, data := found.format.value, found.data.value;
      if data.size % format.blockAlign != 0 then Err(WavRead)
      else Ok(Descriptor(format, data, data.size / format.blockAlign))
  }

  /** What the walk promises about what it has found. */
  ghost predicate IsFound(file: seq<byte>, found: Found) {
    && (found.format.Some? ==>
          CheckFormat(found.format.value) == Ok(found.format.value) && found.format.value.blockAlign > 0)
    && (found.data.Some? ==> found.data.value.offset + found.data.value.size <= |file|)
  }

  lemma ParseFormatIsChecked(bytes: seq<byte>, chunkSize: nat)
    requires ParseFormat(bytes, chunkSize).Ok?
    ensures var f := ParseFormat(bytes, chunkSize).value; CheckFormat(f) == Ok(f) && f.blockAlign > 0
  {
  }

  lemma VisitFinds(file: seq<byte>, riffEnd: nat, position: nat, found: Found)
    requires position + 8 <= riffEnd <= |file| && IsFound(file, found)
    requires Visit(file, riffEnd, position, found).Ok?
    ensures IsFound(file, Visit(file, riffEnd, position, found).value.0)
  {
    hide ParseFormat, CheckFormat;
    var size, payload := U32(file, position + 4), position + 8;
    if ParseFormat(file[payload..Min(|file|, payload + Min(size, 40))], size).Ok? {
      ParseFormatIsChecked(file[payload..Min(|file|, payload + Min(size, 40))], size);
    }
  }

  lemma {:induction false} WalkFinds(file: seq<byte>, riffEnd: nat, position: nat, found: Found)
    requires position <= riffEnd <= |file| && IsFound(file, found)
    requires Walk(file, riffEnd, position, found).Ok?
    ensures IsFound(file, Walk(file, riffEnd, position, found).value)
    decreases riffEnd - position
  {
    if position + 8 <= riffEnd {
      VisitFinds(file, riffEnd, position, found);
      var next := Visit(file, riffEnd, position, found).value;
      WalkFinds(file, riffEnd, next.1, next.0);
    }
  }

  /** The checks on the RIFF header; the end of the container. */
  function RiffEnd(file: seq<byte>): (r: Result<nat>)
    ensures r.Ok? ==> 12 <= r.value <= |file|
  {
    if |file| < 12 then Err(WavRead)
    else if file[0..4] != RIFF || file[8..12] != WAVE then Err(UnsupportedFormat)
    else
      var end := U32(file, 4) + 8;
      if end < 12 || end > |file| then Err(WavRead) else Ok(end)
  }

  function DescriptorOf(file: seq<byte>): Result<Descriptor> {
    var end := RiffEnd(file);
    if end.Err? then Err(end.error)
    else
      var found := Walk(file, end.value, 12, Found(None, None));
      if found.Err? then Err(found.error)
      else
        WalkFinds(file, end.value, 12, Found(None, None));
        Described(found.value)
  }

  /** A parsed file has whole frames that lie inside it, and a format that passed all checks. */
  lemma DescriptorIsSound(file: seq<byte>)
    requires DescriptorOf(file).Ok?
    ensures
      var d := DescriptorOf(file).value;
      && CheckFormat(d.format) == Ok(d.format)
      && d.data.offset + d.data.size <= |file|
      && d.data.size == Samples(d.totalFrames, d.format.blockAlign)
  {
    hide Walk, CheckFormat;
    WalkFinds(file, RiffEnd(file).value, 12, Found(None, None));
    var d := DescriptorOf(file).value;
    assert d.data.size == d.totalFrames * d.format.blockAlign + d.data.size % d.format.blockAlign;
    SamplesIsProduct(d.totalFrames, d.format.blockAlign);
  }

  // ---------------------------------------------------------------- what fits

  /** validate_wav_output_capacity: the error it throws, if any. */
  function CapacityError(frames: int, rate: real, channels: nat, bits: nat): Option<ErrorCode> {
    if bits != 16 && bits != 24 && bits != 32 then Some(UnsupportedBitDepth)
    else if frames < 0 || channels == 0 then Some(ValidationFailed)
    else if rate <= 0.0 || rate > MAX_U32 as real || AbsReal(rate - LlRound(rate) as real) >= 0.001 then
      Some(UnsupportedSampleRate)
    else
      var blockAlign := Samples(channels, bits / 8);
      if blockAlign > MAX_U16 then Some(ValidationFailed)
      else if LlRound(rate) > MAX_U32 / blockAlign then Some(ValidationFailed)
      else if frames > MAX_U64 / blockAlign then Some(ValidationFailed)
      else
        var size := Samples(frames, blockAlign);
        if size > MAX_U32 || size > MAX_U32 - 36 - size % 2 then Some(ValidationFailed) else None
  }

  /** The whole number that a rate is within a thousandth of. */
  ghost predicate IsWholeRate(rate: real, n: nat) {
    -0.001 < rate - n as real < 0.001
  }

  /** The outputs that fit: their frame, their second and their data into 16 and 32 bits. */
  ghost predicate IsWritable(frames: int, rate: real, channels: nat, bits: nat) {
    && (bits == 16 || bits == 24 || bits == 32)
    && frames >= 0 && channels > 0 && channels * (bits / 8) <= 0xFFFF
    && 0.0 < rate <= 0xFFFF_FFFF as real
    && exists n: nat :: IsWholeRate(rate, n)
         && n * (channels * (bits / 8)) <= 0xFFFF_FFFF
         && IsStorable(frames * (channels * (bits / 8)))
  }

  /** Data of this size and its pad byte, with the 36 bytes of the header that count. */
  ghost predicate IsStorable(size: int) {
    36 + size + size % 2 <= 0xFFFF_FFFF
  }

  lemma WholeRateIsRounded(rate: real, n: nat)
    requires rate > 0.0 && IsWholeRate(rate, n)
    ensures n == LlRound(rate)
  {
  }

  lemma QuotientBoundIff(x: nat, limit: nat, n: pos)
    ensures x <= limit / n <==> x * n <= limit
  {
    if x <= limit / n {
      QuotientBound(x, limit, n);
    } else {
      MulMonotone(limit / n + 1, x, n);
      MulDistributes(limit / n, 1, n);
    }
  }

  /** Exactly these are accepted. */
  lemma AcceptedIsWritable(frames: int, rate: real, channels: nat, bits: nat)
    ensures CapacityError(frames, rate, channels, bits) == None <==> IsWritable(frames, rate, channels, bits)
  {
    hide LlRound, IsWholeRate;
    LlRoundIsNear(rate);
    SamplesIsProduct(channels, bits / 8);
    if channels > 0 && bits >= 16 && frames >= 0 && rate > 0.0 {
      MulMonotone(1, channels, bits / 8);
      QuotientBoundIff(LlRound(rate), MAX_U32, Samples(channels, bits / 8));
      QuotientBoundIff(frames, MAX_U64, Samples(channels, bits / 8));
      SamplesIsProduct(frames, Samples(channels, bits / 8));
      NearIsWhole(rate);
      forall n: nat | IsWholeRate(rate, n) ensures n == LlRound(rate) {
        WholeRateIsRounded(rate, n);
      }
    }
  }

  lemma NearIsWhole(rate: real)
    requires rate > 0.0 && LlRound(rate) >= 0
    ensures IsWholeRate(rate, LlRound(rate)) <==> AbsReal(rate - LlRound(rate) as real) < 0.001
  {
  }

  /** Why an output is refused; the bit depth is looked at first, the rate after the counts. */
  lemma RefusedOutputs(frames: int, rate: real, channels: nat, bits: nat)
    ensures
      var refused := CapacityError(frames, rate, channels, bits);
      && (refused == Some(UnsupportedBitDepth) <==> bits != 16 && bits != 24 && bits != 32)
      && (refused == Some(UnsupportedSampleRate) <==>
            && (bits == 16 || bits == 24 || bits == 32) && frames >= 0 && channels > 0
            && (rate <= 0.0 || rate > 0xFFFF_FFFF as real || forall n: nat :: !IsWholeRate(rate, n)))
      && (refused.Some? ==> refused.value == UnsupportedBitDepth || refused.value == UnsupportedSampleRate
                            || refused.value == ValidationFailed)
  {
    hide LlRound, IsWholeRate, Samples;
    LlRoundIsNear(rate);
    if rate > 0.0 {
      NearIsWhole(rate);
      forall n: nat | IsWholeRate(rate, n) ensures n == LlRound(rate) {
        WholeRateIsRounded(rate, n);
      }
    }
  }

  /** The dimensions of one output, as they go into the header. */
  datatype Output = Output(frames: nat, rate: nat, channels: nat, bits: nat) {
    function BlockAlign(): nat {
      Samples(channels, bits / 8)
    }

    function DataSize(): nat {
      Samples(frames, BlockAlign())
    }

    function Padding(): nat {
      DataSize() % 2
    }

    /** Every field is below the width it is written with. */
    predicate Fits() {
      && (bits == 16 || bits == 24 || bits == 32)
      && 0 < channels <= MAX_U16 && rate <= MAX_U32 && rate * BlockAlign() <= MAX_U32
      && 0 < BlockAlign() <= MAX_U16 && 36 + DataSize() + Padding() <= MAX_U32
    }
  }

  /** No field of an accepted output wraps around. */
  lemma AcceptedFits(frames: int, rate: real, channels: nat, bits: nat)
    requires CapacityError(frames, rate, channels, bits) == None
    ensures LlRound(rate) >= 0 && frames >= 0 && Output(frames, LlRound(rate), channels, bits).Fits()
  {
    hide LlRound;
    LlRoundIsNear(rate);
    var o := Output(frames, LlRound(rate), channels, bits);
    SamplesIsProduct(channels, bits / 8);
    MulMonotone(2, bits / 8, channels);
    QuotientBound(o.rate, MAX_U32, o.BlockAlign());
  }

  lemma QuotientBound(x: nat, limit: nat, n: pos)
    requires x <= limit / n
    ensures x * n <= limit
  {
    MulMonotone(x, limit / n, n);
  }

  // ---------------------------------------------------------------- the header

  function FmtBody(o: Output): (r: seq<byte>)
    ensures |r| == 16
  {
    Bytes(FORMAT_PCM, 2) + Bytes(o.channels, 2) + Bytes(o.rate, 4) + Bytes(o.rate * o.BlockAlign(), 4)
    + Bytes(o.BlockAlign(), 2) + Bytes(o.bits, 2)
  }

  function RiffHeader(o: Output): (r: seq<byte>)
    ensures |r| == 12
  {
    RIFF + Bytes(36 + o.DataSize() + o.Padding(), 4) + WAVE
  }

  /** The file that write_wav leaves: a pad byte follows an odd number of data bytes. */
  function FileBytes(o: Output, data: seq<byte>): (r: seq<byte>)
    ensures |r| == 44 + |data| + o.Padding()
  {
    RiffHeader(o) + (FMT + Bytes(16, 4) + FmtBody(o)) + (DATA + Bytes(o.DataSize(), 4))
    + data + (if o.Padding() == 0 then [] else [0])
  }

  /** A field that fits is read back as it was written. */
  lemma FieldReadsBack(value: nat, count: nat)
    requires (count == 2 && value <= MAX_U16) || (count == 4 && value <= MAX_U32)
    ensures Value(Bytes(value, count)) == value
  {
    hide Bytes, Value, Pow2;
    ValueOfBytes(value, count);
    FieldWidths();
  }

  lemma FieldWidths()
    ensures Pow2(16) == 0x1_0000 && Pow2(32) == 0x1_0000_0000
  {
    hide Pow2;
    Pow2Eight();
    Pow2Add(8, 8);
    Pow2Add(16, 16);
  }

  lemma ThreeFields(a: seq<byte>, b: seq<byte>, c: seq<byte>)
    ensures (a + b + c)[0..|a|] == a
    ensures (a + b + c)[|a|..|a| + |b|] == b
    ensures (a + b + c)[|a| + |b|..|a| + |b| + |c|] == c
  {
  }

  lemma FrontSlice(front: seq<byte>, back: seq<byte>, i: nat, j: nat)
    requires i <= j <= |front|
    ensures (front + back)[i..j] == front[i..j]
  {
  }

  lemma BackSlice(front: seq<byte>, back: seq<byte>, i: nat, j: nat)
    requires i <= j <= |back|
    ensures (front + back)[|front| + i..|front| + j] == back[i..j]
  {
  }

  lemma ConcatOfHalves(a: seq<byte>, b: seq<byte>, c: seq<byte>, d: seq<byte>, e: seq<byte>, f: seq<byte>)
    ensures a + b + c + d + e + f == (a + b + c) + (d + e + f)
  {
  }

  /** Where six fields lie behind one another. */
  lemma SixFields(a: seq<byte>, b: seq<byte>, c: seq<byte>, d: seq<byte>, e: seq<byte>, f: seq<byte>)
    requires |a| == |b| == |e| == |f| == 2 && |c| == |d| == 4
    ensures
      var all := a + b + c + d + e + f;
      all[0..2] == a && all[2..4] == b && all[4..8] == c && all[8..12] == d && all[12..14] == e && all[14..16] == f
  {
    ConcatOfHalves(a, b, c, d, e, f);
    ThreeFields(a, b, c);
    ThreeFields(d, e, f);
    FrontSlice(a + b + c, d + e + f, 0, 2);
    FrontSlice(a + b + c, d + e + f, 2, 4);
    FrontSlice(a + b + c, d + e + f, 4, 8);
    BackSlice(a + b + c, d + e + f, 0, 4);
    BackSlice(a + b + c, d + e + f, 4, 6);
    BackSlice(a + b + c, d + e + f, 6, 8);
  }

  /** Where the fields lie in the format chunk. */
  lemma FmtParts(o: Output)
    ensures
      var body := FmtBody(o);
      && body[0..2] == Bytes(FORMAT_PCM, 2) && body[2..4] == Bytes(o.channels, 2) && body[4..8] == Bytes(o.rate, 4)
      && body[8..12] == Bytes(o.rate * o.BlockAlign(), 4)
      && body[12..14] == Bytes(o.BlockAlign(), 2) && body[14..16] == Bytes(o.bits, 2)
  {
    hide Bytes, Samples;
    SixFields(Bytes(FORMAT_PCM, 2), Bytes(o.channels, 2), Bytes(o.rate, 4), Bytes(o.rate * o.BlockAlign(), 4),
              Bytes(o.BlockAlign(), 2), Bytes(o.bits, 2));
  }

  /** The written format: PCM, the dimensions, the bytes of a second and those of a frame. */
  lemma FmtFields(o: Output)
    requires o.Fits()
    ensures
      var body := FmtBody(o);
      && U16(body, 0) == 1 && U16(body, 2) == o.channels && U32(body, 4) == o.rate
      && U32(body, 8) == o.rate * o.BlockAlign() && U16(body, 12) == o.BlockAlign() && U16(body, 14) == o.bits
      && o.BlockAlign() == o.channels * (o.bits / 8)
  {
    hide Bytes, Value, Samples, FmtBody;
    FmtParts(o);
    SamplesIsProduct(o.channels, o.bits / 8);
    FieldReadsBack(FORMAT_PCM, 2);
    FieldReadsBack(o.channels, 2);
    FieldReadsBack(o.rate, 4);
    FieldReadsBack(o.rate * o.BlockAlign(), 4);
    FieldReadsBack(o.BlockAlign(), 2);
    FieldReadsBack(o.bits, 2);
  }

  /** Where the parts of a written file lie. */
  lemma FileParts(o: Output, data: seq<byte>)
    requires o.Fits() && |data| == o.DataSize()
    ensures
      var file := FileBytes(o, data);
      && FMT == [0x66, 0x6D, 0x74, 0x20] && DATA == [0x64, 0x61, 0x74, 0x61]
      && file[0..4] == RIFF && U32(file, 4) == 36 + o.DataSize() + o.Padding() && file[8..12] == WAVE
      && file[12..16] == FMT && U32(file, 16) == 16 && file[20..36] == FmtBody(o)
      && file[36..40] == DATA && U32(file, 40) == o.DataSize() && file[44..44 + |data|] == data
      && file[44 + |data|..] == (if |data| % 2 == 1 then [0] else [])
  {
    hide Bytes, Value, Samples, FmtBody;
    var file := FileBytes(o, data);
    assert file[0..4] == RIFF;
    assert file[4..8] == Bytes(36 + o.DataSize() + o.Padding(), 4);
    assert file[8..12] == WAVE;
    assert file[12..16] == FMT;
    assert file[16..20] == Bytes(16, 4);
    assert file[20..36] == FmtBody(o);
    assert file[36..40] == DATA;
    assert file[40..44] == Bytes(o.DataSize(), 4);
    assert file[44..44 + |data|] == data;
    FieldReadsBack(36 + o.DataSize() + o.Padding(), 4);
    FieldReadsBack(16, 4);
    FieldReadsBack(o.DataSize(), 4);
  }

  // ---------------------------------------------------------------- the round trip of the container

  function FormatOf(o: Output): Format {
    Format(FORMAT_PCM, o.channels, o.rate, o.BlockAlign(), o.bits, o.bits)
  }

  lemma FmtParses(o: Output)
    requires o.Fits()
    ensures ParseFormat(FmtBody(o), 16) == if o.rate == 0 then Err(WavRead) else Ok(FormatOf(o))
  {
    hide FmtBody, Value, Bytes;
    FmtFields(o);
  }

  /** The first chunk of a written file is its format. */
  lemma VisitsFmt(o: Output, data: seq<byte>)
    requires o.Fits() && |data| == o.DataSize()
    ensures
      var file := FileBytes(o, data);
      Visit(file, |file|, 12, Found(None, None))
        == if o.rate == 0 then Err(WavRead) else Ok((Found(Some(FormatOf(o)), None), 36))
  {
    hide FileBytes, FmtBody, ParseFormat, Value, FormatOf;
    FileParts(o, data);
    FmtParses(o);
  }

  /** The second chunk is its data, and nothing follows. */
  lemma VisitsData(o: Output, data: seq<byte>)
    requires o.Fits() && |data| == o.DataSize()
    ensures
      var file, found := FileBytes(o, data), Found(Some(FormatOf(o)), None);
      Visit(file, |file|, 36, found) == Ok((found.(data := Some(Located(44, |data|))), |file|))
  {
    hide FileBytes, FmtBody, ParseFormat, Value, FormatOf;
    FileParts(o, data);
    assert FMT[0] != DATA[0];
  }

  /**
   Parsing a written file returns the format and the frame count it was written with.  The one
   accepted output that cannot be read back is one whose rate rounds to zero.
   */
  lemma ContainerRoundTrip(o: Output, data: seq<byte>)
    requires o.Fits() && |data| == o.DataSize()
    ensures
      DescriptorOf(FileBytes(o, data))
        == if o.rate == 0 then Err(WavRead) else Ok(Descriptor(FormatOf(o), Located(44, |data|), o.frames))
  {
    hide FileBytes, FmtBody, ParseFormat, Value, Visit, Samples;
    var file, found := FileBytes(o, data), Found(Some(FormatOf(o)), None);
    FileParts(o, data);
    VisitsFmt(o, data);
    if o.rate > 0 {
      VisitsData(o, data);
      assert Walk(file, |file|, 36, found) == Ok(found.(data := Some(Located(44, |data|))));
      SamplesIsProduct(o.frames, o.BlockAlign());
      DivModUnique(|data|, o.frames, 0, o.BlockAlign());
    }
  }

  // ---------------------------------------------------------------- the extensible form

  /** A WAVE_FORMAT_EXTENSIBLE chunk: its own size, the valid bits, any channel mask, and the sub-format. */
  function ExtensibleBody(o: Output, validBits: nat, mask: nat, subformat: nat): (r: seq<byte>)
    ensures |r| == 40
  {
    (Bytes(FORMAT_EXTENSIBLE, 2) + Bytes(o.channels, 2) + Bytes(o.rate, 4) + Bytes(o.rate * o.BlockAlign(), 4))
    + (Bytes(o.BlockAlign(), 2) + Bytes(o.bits, 2) + Bytes(22, 2) + Bytes(validBits, 2))
    + (Bytes(mask, 4) + Bytes(subformat, 4) + GUID_TAIL)
  }

  /** The extensible form of PCM means the plain form, with the valid bits it states or else the container's. */
  lemma ExtensibleParses(o: Output, validBits: nat, mask: nat)
    requires o.Fits() && o.rate > 0 && validBits <= o.bits
    ensures ParseFormat(ExtensibleBody(o, validBits, mask, FORMAT_PCM), 40)
         == Ok(FormatOf(o).(validBits := if validBits == 0 then o.bits else validBits))
  {
    hide Bytes, Value, Samples;
    var body := ExtensibleBody(o, validBits, mask, FORMAT_PCM);
    assert body[0..2] == Bytes(FORMAT_EXTENSIBLE, 2) && body[2..4] == Bytes(o.channels, 2);
    assert body[4..8] == Bytes(o.rate, 4) && body[12..14] == Bytes(o.BlockAlign(), 2);
    assert body[14..16] == Bytes(o.bits, 2) && body[16..18] == Bytes(22, 2);
    assert body[18..20] == Bytes(validBits, 2) && body[24..28] == Bytes(FORMAT_PCM, 4);
    assert body[28..40] == GUID_TAIL;
    FieldReadsBack(FORMAT_EXTENSIBLE, 2);
    FieldReadsBack(o.channels, 2);
    FieldReadsBack(o.rate, 4);
    FieldReadsBack(o.BlockAlign(), 2);
    FieldReadsBack(o.bits, 2);
    FieldReadsBack(22, 2);
    FieldReadsBack(validBits, 2);
    FieldReadsBack(FORMAT_PCM, 4);
  }
}
