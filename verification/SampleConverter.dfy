/** Interleaved samples to and from the planar buffers of an ASIO driver, in every sample type. */
module SampleConverter {
  import opened Arithmetic
  import opened PcmCodec
  import opened Wrappers

  datatype SampleType =
    | Int16Msb | Int24Msb | Int32Msb | Float32Msb | Float64Msb
    | Int32Msb16 | Int32Msb18 | Int32Msb20 | Int32Msb24
    | Int16Lsb | Int24Lsb | Int32Lsb | Float32Lsb | Float64Lsb
    | Int32Lsb16 | Int32Lsb18 | Int32Lsb20 | Int32Lsb24
    | Unsupported

  datatype Encoding = SignedInteger | IeeeFloat32 | IeeeFloat64

  datatype Format = Format(byteCount: pos, validBits: pos, encoding: Encoding, order: ByteOrder)

  /** describe_sample_type. */
  function Describe(sampleType: SampleType): Option<Format> {
    match sampleType
    case Int16Msb => Some(Format(2, 16, SignedInteger, BigEndian))
    case Int24Msb => Some(Format(3, 24, SignedInteger, BigEndian))
    case Int32Msb => Some(Format(4, 32, SignedInteger, BigEndian))
    case Float32Msb => Some(Format(4, 32, IeeeFloat32, BigEndian))
    case Float64Msb => Some(Format(8, 64, IeeeFloat64, BigEndian))
    case Int32Msb16 => Some(Format(4, 16, SignedInteger, BigEndian))
    case Int32Msb18 => Some(Format(4, 18, SignedInteger, BigEndian))
    case Int32Msb20 => Some(Format(4, 20, SignedInteger, BigEndian))
    case Int32Msb24 => Some(Format(4, 24, SignedInteger, BigEndian))
    case Int16Lsb => Some(Format(2, 16, SignedInteger, LittleEndian))
    case Int24Lsb => Some(Format(3, 24, SignedInteger, LittleEndian))
    case Int32Lsb => Some(Format(4, 32, SignedInteger, LittleEndian))
    case Float32Lsb => Some(Format(4, 32, IeeeFloat32, LittleEndian))
    case Float64Lsb => Some(Format(8, 64, IeeeFloat64, LittleEndian))
    case Int32Lsb16 => Some(Format(4, 16, SignedInteger, LittleEndian))
    case Int32Lsb18 => Some(Format(4, 18, SignedInteger, LittleEndian))
    case Int32Lsb20 => Some(Format(4, 20, SignedInteger, LittleEndian))
    case Int32Lsb24 => Some(Format(4, 24, SignedInteger, LittleEndian))
    case Unsupported => None
  }

  /** The bit patterns of IEEE numbers, which the model receives as a parameter. */
  datatype Ieee = Ieee(raw32: real -> nat, value32: nat -> real, raw64: real -> nat, value64: nat -> real)

  // ---------------------------------------------------------------- one sample

  /** What encode_sample hands to write_unsigned. */
  function Raw(format: Format, ieee: Ieee, x: real): nat {
    match format.encoding
    case SignedInteger => Wrapped(Quantized(x, format.validBits), 32)
    case IeeeFloat32 => ieee.raw32(Clamp(x))
    case IeeeFloat64 => ieee.raw64(Clamp(x))
  }

  /** What decode_sample makes of what read_unsigned returns. */
  function FromRaw(format: Format, ieee: Ieee, raw: nat): real {
    match format.encoding
    case SignedInteger => Dequantized(SignExtended(raw, format.validBits), format.validBits)
    case IeeeFloat32 => Clamp(ieee.value32(raw))
    case IeeeFloat64 => Clamp(ieee.value64(raw))
  }

  ghost predicate IsEncoded(format: Format, ieee: Ieee, x: real, bytes: seq<byte>) {
    LowestFirst(bytes, format.order) == Bytes(Raw(format, ieee, x), format.byteCount)
  }

  function Decoded(format: Format, ieee: Ieee, bytes: seq<byte>): real {
    FromRaw(format, ieee, Value(LowestFirst(bytes, format.order)))
  }

  /** Encoding and decoding a sample of an integer type leaves exactly its quantised value. */
  lemma SampleRoundTrip(sampleType: SampleType, ieee: Ieee, x: real, bytes: seq<byte>)
    requires Describe(sampleType).Some? && Describe(sampleType).value.encoding == SignedInteger
    requires IsEncoded(Describe(sampleType).value, ieee, x, bytes)
    ensures var format := Describe(sampleType).value;
      Decoded(format, ieee, bytes) == Dequantized(Quantized(x, format.validBits), format.validBits)
  {
    hide Quantized, Dequantized, Wrapped, SignExtended, Bytes, Value;
    var format := Describe(sampleType).value;
    QuantizedInRange(x, format.validBits);
    SignedRoundTrip(Quantized(x, format.validBits), 32, format.byteCount, format.validBits);
  }

  /** So a decoded sample can be encoded and decoded again without any further change. */
  lemma DecodedIsStable(sampleType: SampleType, ieee: Ieee, x: real, bytes: seq<byte>, again: seq<byte>)
    requires Describe(sampleType).Some? && Describe(sampleType).value.encoding == SignedInteger
    requires IsEncoded(Describe(sampleType).value, ieee, x, bytes)
    requires IsEncoded(Describe(sampleType).value, ieee, Decoded(Describe(sampleType).value, ieee, bytes), again)
    ensures LowestFirst(again, Describe(sampleType).value.order) == LowestFirst(bytes, Describe(sampleType).value.order)
  {
    hide Quantized, Dequantized, Wrapped, Bytes;
    var format := Describe(sampleType).value;
    SampleRoundTrip(sampleType, ieee, x, bytes);
    QuantizedInRange(x, format.validBits);
    QuantizedIsIdempotent(Quantized(x, format.validBits), format.validBits);
  }

  /**
   Whatever bytes a driver leaves in a buffer of an integer type, the decoded sample lies in [-1, 1)
   and stands for exactly the integer of the bytes: quantising it gives that integer back.
   */
  lemma DecodedIsExact(sampleType: SampleType, ieee: Ieee, bytes: seq<byte>)
    requires Describe(sampleType).Some? && Describe(sampleType).value.encoding == SignedInteger
    ensures
      var format := Describe(sampleType).value;
      var x := Decoded(format, ieee, bytes);
      && -1.0 <= x < 1.0
      && Quantized(x, format.validBits) == SignExtended(Value(LowestFirst(bytes, format.order)), format.validBits)
  {
    hide Quantized, Dequantized, SignExtended, Value, LowestFirst, PcmCodec.InRange;
    var format := Describe(sampleType).value;
    var raw := Value(LowestFirst(bytes, format.order));
    SignExtendedInRange(raw, format.validBits);
    DequantizedScales(SignExtended(raw, format.validBits), format.validBits);
    QuantizedIsIdempotent(SignExtended(raw, format.validBits), format.validBits);
  }

  /** encode_sample. */
  method EncodeSample(format: Format, ieee: Ieee, x: real, buffer: array<byte>, offset: nat)
    requires offset + format.byteCount <= buffer.Length
    modifies buffer
    ensures IsEncoded(format, ieee, x, buffer[offset..offset + format.byteCount])
    ensures buffer[..offset] == old(buffer[..offset])
  {
    WriteUnsigned(Raw(format, ieee, x), format.order, buffer, offset, format.byteCount);
  }

  /** decode_sample. */
  method DecodeSample(format: Format, ieee: Ieee, source: seq<byte>) returns (x: real)
    ensures x == Decoded(format, ieee, source)
  {
    var raw := ReadUnsigned(source, format.order);
    x := FromRaw(format, ieee, raw);
  }

  // ---------------------------------------------------------------- planar buffers

  datatype Conversion = Success | InvalidShape | BufferTooSmall | UnsupportedSampleType

  predicate HasShape(sampleCount: nat, frameCount: nat, channelCount: nat) {
    if channelCount == 0 then frameCount == 0 && sampleCount == 0
    else sampleCount == Samples(frameCount, channelCount)
  }

  /** validate_buffers: the first channel that does not fit decides. */
  function Validated(types: seq<SampleType>, lengths: seq<nat>, frameCount: nat): Conversion
    requires |types| == |lengths|
  {
    if types == [] then Success
    else if Describe(types[0]).None? then UnsupportedSampleType
    else if lengths[0] < Samples(frameCount, Describe(types[0]).value.byteCount) then BufferTooSmall
    else Validated(types[1..], lengths[1..], frameCount)
  }

  lemma {:induction false} ValidatedFits(types: seq<SampleType>, lengths: seq<nat>, frameCount: nat, c: nat)
    requires |types| == |lengths| && c < |types| && Validated(types, lengths, frameCount) == Success
    ensures Describe(types[c]).Some?
    ensures Samples(frameCount, Describe(types[c]).value.byteCount) <= lengths[c]
  {
    if c > 0 {
      ValidatedFits(types[1..], lengths[1..], frameCount, c - 1);
    }
  }

  /** The bytes of frame f in a planar buffer. */
  function FrameBytes(bytes: seq<byte>, f: nat, byteCount: nat): seq<byte>
    requires Samples(f, byteCount) + byteCount <= |bytes|
  {
    bytes[Samples(f, byteCount)..Samples(f, byteCount) + byteCount]
  }

  lemma FrameFits(f: nat, frameCount: nat, unit: nat)
    requires f < frameCount
    ensures Samples(f, unit) + unit <= Samples(frameCount, unit)
  {
    SamplesAdd(f, 1, unit);
    OneFrame(unit);
    SamplesMonotone(f + 1, frameCount, unit);
  }

  /** Frame f of the buffer holds channel c of frame f of the interleaved samples. */
  ghost predicate IsPlaneAt(interleaved: seq<real>, channels: nat, c: nat, format: Format, ieee: Ieee,
                            bytes: seq<byte>, f: nat)
  {
    && Samples(f, format.byteCount) + format.byteCount <= |bytes|
    && Samples(f, channels) + c < |interleaved|
    && IsEncoded(format, ieee, interleaved[Samples(f, channels) + c], FrameBytes(bytes, f, format.byteCount))
  }

  ghost predicate IsPlane(interleaved: seq<real>, channels: nat, c: nat, format: Format, ieee: Ieee,
                          bytes: seq<byte>, done: nat)
  {
    forall f: nat {:trigger IsPlaneAt(interleaved, channels, c, format, ieee, bytes, f)} :: f < done ==>
      IsPlaneAt(interleaved, channels, c, format, ieee, bytes, f)
  }

  lemma SameBytes(was: seq<byte>, bytes: seq<byte>, end: nat, at: nat, count: nat)
    requires at + count <= end <= |was| && end <= |bytes| && was[..end] == bytes[..end]
    ensures was[at..at + count] == bytes[at..at + count]
  {
    SliceOfSlice(was, 0, end, at, at + count);
    SliceOfSlice(bytes, 0, end, at, at + count);
  }

  lemma PlaneGrows(interleaved: seq<real>, channels: nat, c: nat, format: Format, ieee: Ieee,
                   was: seq<byte>, bytes: seq<byte>, f: nat)
    requires IsPlane(interleaved, channels, c, format, ieee, was, f) && |was| == |bytes|
    requires Samples(f, format.byteCount) + format.byteCount <= |bytes| && Samples(f, channels) + c < |interleaved|
    requires bytes[..Samples(f, format.byteCount)] == was[..Samples(f, format.byteCount)]
    requires IsEncoded(format, ieee, interleaved[Samples(f, channels) + c], FrameBytes(bytes, f, format.byteCount))
    ensures IsPlane(interleaved, channels, c, format, ieee, bytes, f + 1)
  {
    hide IsEncoded, Samples;
    forall k: nat | k < f
      ensures IsPlaneAt(interleaved, channels, c, format, ieee, bytes, k)
    {
      assert IsPlaneAt(interleaved, channels, c, format, ieee, was, k);
      FrameFits(k, f, format.byteCount);
      SameBytes(was, bytes, Samples(f, format.byteCount), Samples(k, format.byteCount), format.byteCount);
    }
    assert IsPlaneAt(interleaved, channels, c, format, ieee, bytes, f);
  }

  /** The frame loop of interleaved_float_to_asio for one channel. */
  method EncodePlane(interleaved: seq<real>, channels: nat, c: nat, format: Format, ieee: Ieee, frameCount: nat,
                     buffer: array<byte>)
    requires c < channels && |interleaved| == Samples(frameCount, channels)
    requires Samples(frameCount, format.byteCount) <= buffer.Length
    modifies buffer
    ensures IsPlane(interleaved, channels, c, format, ieee, buffer[..], frameCount)
  {
    hide IsEncoded, Raw;
    for f := 0 to frameCount
      invariant IsPlane(interleaved, channels, c, format, ieee, buffer[..], f)
    {
      FrameFits(f, frameCount, channels);
      FrameFits(f, frameCount, format.byteCount);
      ghost var was := buffer[..];
      EncodeSample(format, ieee, interleaved[Samples(f, channels) + c], buffer, Samples(f, format.byteCount));
      PlaneGrows(interleaved, channels, c, format, ieee, was, buffer[..], f);
    }
  }

  ghost predicate AreDistinct(buffers: seq<array<byte>>) {
    forall i, j :: 0 <= i < j < |buffers| ==> buffers[i] != buffers[j]
  }

  ghost function Lengths(buffers: seq<array<byte>>): (r: seq<nat>)
    ensures |r| == |buffers|
  {
    seq(|buffers|, i requires 0 <= i < |buffers| => buffers[i].Length)
  }

  // ---------------------------------------------------------------- the layout of the sample types

  /** The bytes of a sample. */
  ghost function Width(t: SampleType): nat {
    if t in {Int16Lsb, Int16Msb} then 2
    else if t in {Int24Lsb, Int24Msb} then 3
    else if t in {Float64Lsb, Float64Msb} then 8
    else 4
  }

  /** The bits of a sample, of which the container of an integer may have more. */
  ghost function ValidBits(t: SampleType): pos {
    if t in {Int16Lsb, Int16Msb, Int32Lsb16, Int32Msb16} then 16
    else if t in {Int32Lsb18, Int32Msb18} then 18
    else if t in {Int32Lsb20, Int32Msb20} then 20
    else if t in {Int24Lsb, Int24Msb, Int32Lsb24, Int32Msb24} then 24
    else if t in {Float64Lsb, Float64Msb} then 64
    else 32
  }

  /** The least significant byte comes first. */
  ghost predicate IsLsb(t: SampleType) {
    t in {Int16Lsb, Int24Lsb, Int32Lsb, Int32Lsb16, Int32Lsb18, Int32Lsb20, Int32Lsb24, Float32Lsb, Float64Lsb}
  }

  /** What is stored: the quantised sample, or the pattern of the clamped one. */
  ghost function Pattern(t: SampleType, ieee: Ieee, x: real): int {
    var clamped := if x < -1.0 then -1.0 else if x > 1.0 then 1.0 else x;
    if t in {Float32Lsb, Float32Msb} then ieee.raw32(clamped)
    else if t in {Float64Lsb, Float64Msb} then ieee.raw64(clamped)
    else Quantized(x, ValidBits(t))
  }

  /** Where byte i of frame f is stored, byte 0 being the least significant one. */
  ghost function Place(t: SampleType, f: nat, i: nat): int {
    Samples(f, Width(t)) + if IsLsb(t) then i else Width(t) - 1 - i
  }

  lemma DescribedLayout(t: SampleType)
    ensures Describe(t).Some? <==> t != Unsupported
    ensures Describe(t).Some? ==>
      var format := Describe(t).value;
      && format.byteCount == Width(t) && (format.order == LittleEndian <==> IsLsb(t))
      && (format.encoding == IeeeFloat32 <==> t in {Float32Lsb, Float32Msb})
      && (format.encoding == IeeeFloat64 <==> t in {Float64Lsb, Float64Msb})
      && format.validBits == ValidBits(t)
      && (format.encoding == SignedInteger ==> format.byteCount <= 4)
  {
  }

  /** Byte i of frame f is byte i of the two's complement of the pattern of channel c. */
  ghost predicate IsStoredAt(interleaved: seq<real>, channels: nat, c: nat, t: SampleType, ieee: Ieee,
                             bytes: seq<byte>, f: nat, i: nat)
  {
    && 0 <= Place(t, f, i) < |bytes| && Samples(f, channels) + c < |interleaved|
    && bytes[Place(t, f, i)] as int
         == (Pattern(t, ieee, interleaved[Samples(f, channels) + c]) / Pow2(8 * i)) % 256
  }

  ghost predicate IsStored(interleaved: seq<real>, channels: nat, c: nat, t: SampleType, ieee: Ieee, bytes: seq<byte>,
                           frameCount: nat)
  {
    forall f: nat, i: nat :: f < frameCount && i < Width(t) ==>
      IsStoredAt(interleaved, channels, c, t, ieee, bytes, f, i)
  }

  lemma RawByte(t: SampleType, ieee: Ieee, x: real, i: nat)
    requires Describe(t).Some? && i < Width(t)
    ensures Bytes(Raw(Describe(t).value, ieee, x), Width(t))[i] as int == (Pattern(t, ieee, x) / Pow2(8 * i)) % 256
  {
    hide Quantized, Pow2, Bytes, Wrapped, Describe, Width, ValidBits;
    DescribedLayout(t);
    ByteAt(Raw(Describe(t).value, ieee, x), Width(t), i);
    if Describe(t).value.encoding == SignedInteger {
      WrappedByte(Quantized(x, ValidBits(t)), 32, i);
    }
  }

  lemma ByteOfFrame(bytes: seq<byte>, t: SampleType, f: nat, i: nat)
    requires Describe(t).Some? && i < Width(t) && Samples(f, Width(t)) + Width(t) <= |bytes|
    ensures 0 <= Place(t, f, i) < |bytes|
    ensures LowestFirst(FrameBytes(bytes, f, Width(t)), Describe(t).value.order)[i] == bytes[Place(t, f, i)]
  {
    hide Describe, Width, IsLsb;
    DescribedLayout(t);
  }

  lemma PlaneIsStored(interleaved: seq<real>, channels: nat, c: nat, t: SampleType, ieee: Ieee, bytes: seq<byte>,
                      frameCount: nat)
    requires Describe(t).Some? && IsPlane(interleaved, channels, c, Describe(t).value, ieee, bytes, frameCount)
    ensures IsStored(interleaved, channels, c, t, ieee, bytes, frameCount)
  {
    hide Describe, Width, Raw, Pattern, Bytes, Place, LowestFirst, FrameBytes;
    DescribedLayout(t);
    forall f: nat, i: nat | f < frameCount && i < Width(t)
      ensures IsStoredAt(interleaved, channels, c, t, ieee, bytes, f, i)
    {
      assert IsPlaneAt(interleaved, channels, c, Describe(t).value, ieee, bytes, f);
      ByteOfFrame(bytes, t, f, i);
      RawByte(t, ieee, interleaved[Samples(f, channels) + c], i);
    }
  }

  // ---------------------------------------------------------------- which buffers are refused

  /** The buffer of a supported type has room for all frames. */
  ghost predicate HasRoom(t: SampleType, length: nat, frameCount: nat) {
    t != Unsupported && frameCount * Width(t) <= length
  }

  /** What is wrong with a buffer that is not of this kind. */
  ghost function Fault(t: SampleType): Conversion {
    if t == Unsupported then UnsupportedSampleType else BufferTooSmall
  }

  /** The first buffer that does not do decides; if all do there is no fault. */
  ghost predicate IsFirstFault(types: seq<SampleType>, lengths: seq<nat>, frameCount: nat, r: Conversion)
    requires |types| == |lengths|
  {
    if forall c :: 0 <= c < |types| ==> HasRoom(types[c], lengths[c], frameCount) then r == Success
    else exists c :: IsFirstFaultAt(types, lengths, frameCount, c) && r == Fault(types[c])
  }

  ghost predicate IsFirstFaultAt(types: seq<SampleType>, lengths: seq<nat>, frameCount: nat, c: int)
    requires |types| == |lengths|
  {
    && 0 <= c < |types| && !HasRoom(types[c], lengths[c], frameCount)
    && forall k :: 0 <= k < c ==> HasRoom(types[k], lengths[k], frameCount)
  }

  lemma RoomIsDescribed(t: SampleType, length: nat, frameCount: nat)
    ensures HasRoom(t, length, frameCount) <==>
      Describe(t).Some? && Samples(frameCount, Describe(t).value.byteCount) <= length
    ensures !HasRoom(t, length, frameCount) ==> Fault(t) != Success
  {
    hide Describe, Width;
    DescribedLayout(t);
    if Describe(t).Some? {
      SamplesIsProduct(frameCount, Describe(t).value.byteCount);
    }
  }

  lemma {:induction false} ValidatedIsFirstFault(types: seq<SampleType>, lengths: seq<nat>, frameCount: nat)
    requires |types| == |lengths|
    ensures IsFirstFault(types, lengths, frameCount, Validated(types, lengths, frameCount))
  {
    hide Describe, HasRoom;
    if types != [] {
      RoomIsDescribed(types[0], lengths[0], frameCount);
      DescribedLayout(types[0]);
      if HasRoom(types[0], lengths[0], frameCount) {
        ValidatedIsFirstFault(types[1..], lengths[1..], frameCount);
        FirstFaultBehind(types, lengths, frameCount, Validated(types, lengths, frameCount));
      } else {
        assert IsFirstFaultAt(types, lengths, frameCount, 0);
      }
    }
  }

  lemma FirstFaultBehind(types: seq<SampleType>, lengths: seq<nat>, frameCount: nat, r: Conversion)
    requires |types| == |lengths| && types != [] && HasRoom(types[0], lengths[0], frameCount)
    requires IsFirstFault(types[1..], lengths[1..], frameCount, r)
    ensures IsFirstFault(types, lengths, frameCount, r)
  {
    hide HasRoom, Fault;
    if c :| IsFirstFaultAt(types[1..], lengths[1..], frameCount, c) && r == Fault(types[1..][c]) {
      assert !HasRoom(types[c + 1], lengths[c + 1], frameCount);
      assert IsFirstFaultAt(types, lengths, frameCount, c + 1);
    }
  }

  // ---------------------------------------------------------------- into the driver's buffers

  /** interleaved_float_to_asio: every channel goes to its own driver buffer, or nothing is written at all. */
  method InterleavedToAsio(interleaved: seq<real>, frameCount: nat, types: seq<SampleType>,
                           buffers: seq<array<byte>>, ieee: Ieee)
    returns (r: Conversion)
    requires |types| == |buffers| && AreDistinct(buffers)
    modifies buffers
    ensures r == InvalidShape <==> |interleaved| != frameCount * |types| || (types == [] && frameCount != 0)
    ensures r != InvalidShape ==> IsFirstFault(types, Lengths(buffers), frameCount, r)
    ensures r != Success ==> forall c :: 0 <= c < |buffers| ==> buffers[c][..] == old(buffers[c][..])
    ensures r == Success ==> forall c :: 0 <= c < |buffers| ==>
      && Describe(types[c]).Some?
      && IsPlane(interleaved, |types|, c, Describe(types[c]).value, ieee, buffers[c][..], frameCount)
      && IsStored(interleaved, |types|, c, types[c], ieee, buffers[c][..], frameCount)
  {
    hide IsPlane, Describe, IsEncoded, IsStored, IsFirstFault, HasRoom, Samples;
    ShapeIsProduct(|interleaved|, frameCount, |types|);
    ValidatedIsFirstFault(types, Lengths(buffers), frameCount);
    ValidatedIsConversion(types, Lengths(buffers), frameCount);
    if !HasShape(|interleaved|, frameCount, |types|) {
      return InvalidShape;
    }
    r := Validated(types, seq(|buffers|, i requires 0 <= i < |buffers| => buffers[i].Length), frameCount);
    assert r == Validated(types, Lengths(buffers), frameCount) by {
      assert seq(|buffers|, i requires 0 <= i < |buffers| => buffers[i].Length) == Lengths(buffers);
    }
    if r != Success {
      return;
    }
    for c := 0 to |types|
      invariant forall k :: 0 <= k < c ==>
        && Describe(types[k]).Some?
        && IsPlane(interleaved, |types|, k, Describe(types[k]).value, ieee, buffers[k][..], frameCount)
    {
      ValidatedFits(types, Lengths(buffers), frameCount, c);
      EncodePlane(interleaved, |types|, c, Describe(types[c]).value, ieee, frameCount, buffers[c]);
    }
    forall c | 0 <= c < |buffers|
      ensures IsStored(interleaved, |types|, c, types[c], ieee, buffers[c][..], frameCount)
    {
      PlaneIsStored(interleaved, |types|, c, types[c], ieee, buffers[c][..], frameCount);
    }
  }

  lemma ShapeIsProduct(sampleCount: nat, frameCount: nat, channelCount: nat)
    ensures HasShape(sampleCount, frameCount, channelCount) <==>
      sampleCount == frameCount * channelCount && (channelCount == 0 ==> frameCount == 0)
  {
    SamplesIsProduct(frameCount, channelCount);
  }

  lemma {:induction false} ValidatedIsConversion(types: seq<SampleType>, lengths: seq<nat>, frameCount: nat)
    requires |types| == |lengths|
    ensures Validated(types, lengths, frameCount) != InvalidShape
  {
    hide Describe;
    if types != [] {
      ValidatedIsConversion(types[1..], lengths[1..], frameCount);
    }
  }

  // ---------------------------------------------------------------- and back

  /** Channel c of frame f is the decoded sample of its plane. */
  ghost predicate IsDecodedAt(types: seq<SampleType>, planes: seq<seq<byte>>, ieee: Ieee, interleaved: seq<real>,
                              f: nat, c: nat)
    requires c < |types| == |planes|
  {
    && Describe(types[c]).Some?
    && Samples(f, Describe(types[c]).value.byteCount) + Describe(types[c]).value.byteCount <= |planes[c]|
    && Samples(f, |types|) + c < |interleaved|
    && interleaved[Samples(f, |types|) + c]
         == Decoded(Describe(types[c]).value, ieee, FrameBytes(planes[c], f, Describe(types[c]).value.byteCount))
  }

  /** Different places of the frame grid are different samples. */
  lemma PlacesDiffer(f: nat, c: nat, g: nat, k: nat, channels: nat)
    requires c < channels && k < channels && (f != g || c != k)
    ensures Samples(f, channels) + c != Samples(g, channels) + k
  {
    hide Samples;
    if f < g {
      FrameFits(f, g, channels);
    } else if g < f {
      FrameFits(g, f, channels);
    }
  }

  ghost predicate AreDecoded(types: seq<SampleType>, planes: seq<seq<byte>>, ieee: Ieee, interleaved: seq<real>,
                             frameCount: nat, c: nat, f: nat)
    requires |types| == |planes|
  {
    forall g: nat, k: nat {:trigger IsDecodedAt(types, planes, ieee, interleaved, g, k)} ::
      k < |types| && g < frameCount && (k < c || (k == c && g < f)) ==>
        IsDecodedAt(types, planes, ieee, interleaved, g, k)
  }

  /** Writing the next sample of a plane leaves the decoded ones alone. */
  lemma DecodedGrows(types: seq<SampleType>, planes: seq<seq<byte>>, ieee: Ieee, was: seq<real>, interleaved: seq<real>,
                     frameCount: nat, c: nat, f: nat)
    requires |types| == |planes| && c < |types| && f < frameCount && |was| == |interleaved|
    requires AreDecoded(types, planes, ieee, was, frameCount, c, f)
    requires IsDecodedAt(types, planes, ieee, interleaved, f, c)
    requires forall i :: 0 <= i < |was| && i != Samples(f, |types|) + c ==> interleaved[i] == was[i]
    ensures AreDecoded(types, planes, ieee, interleaved, frameCount, c, f + 1)
  {
    hide Decoded, Describe, Samples;
    forall g: nat, k: nat | k < |types| && g < frameCount && (k < c || (k == c && g < f + 1))
      ensures IsDecodedAt(types, planes, ieee, interleaved, g, k)
    {
      if g != f || k != c {
        assert IsDecodedAt(types, planes, ieee, was, g, k);
        PlacesDiffer(f, c, g, k, |types|);
      }
    }
  }

  /** The frame loop for one channel. */
  method DecodePlane(types: seq<SampleType>, planes: seq<seq<byte>>, frameCount: nat, ieee: Ieee,
                     interleaved: array<real>, c: nat)
    requires |types| == |planes| && c < |types| && interleaved.Length == Samples(frameCount, |types|)
    requires Describe(types[c]).Some?
    requires Samples(frameCount, Describe(types[c]).value.byteCount) <= |planes[c]|
    requires AreDecoded(types, planes, ieee, interleaved[..], frameCount, c, 0)
    modifies interleaved
    ensures AreDecoded(types, planes, ieee, interleaved[..], frameCount, c + 1, 0)
  {
    hide Describe, Decoded, AreDecoded, Samples;
    var format := Describe(types[c]).value;
    for f := 0 to frameCount
      invariant AreDecoded(types, planes, ieee, interleaved[..], frameCount, c, f)
    {
      FrameFits(f, frameCount, |types|);
      FrameFits(f, frameCount, format.byteCount);
      ghost var was := interleaved[..];
      var x := DecodeSample(format, ieee, FrameBytes(planes[c], f, format.byteCount));
      interleaved[Samples(f, |types|) + c] := x;
      DecodedGrows(types, planes, ieee, was, interleaved[..], frameCount, c, f);
    }
    PlaneIsDecoded(types, planes, ieee, interleaved[..], frameCount, c);
  }

  lemma PlaneIsDecoded(types: seq<SampleType>, planes: seq<seq<byte>>, ieee: Ieee, interleaved: seq<real>,
                       frameCount: nat, c: nat)
    requires |types| == |planes| && AreDecoded(types, planes, ieee, interleaved, frameCount, c, frameCount)
    ensures AreDecoded(types, planes, ieee, interleaved, frameCount, c + 1, 0)
  {
    hide IsDecodedAt;
  }

  ghost function Weight(b: byte, i: nat): nat {
    b as nat * Pow2(8 * i)
  }

  lemma ValueGrows(bytes: seq<byte>, b: byte)
    ensures Value(bytes + [b]) == Value(bytes) + Weight(b, |bytes|)
  {
    ValueAppend(bytes, b);
  }

  /** The number that the bytes of frame f up to byte i spell, whichever way round they are stored. */
  ghost function Spelled(t: SampleType, bytes: seq<byte>, f: nat, i: nat): nat {
    if i == 0 then 0
    else
      var place := Place(t, f, i - 1);
      Spelled(t, bytes, f, i - 1) + if 0 <= place < |bytes| then Weight(bytes[place], i - 1) else 0
  }

  /**
   What a driver's number means: for an integer type the value in the range of its bits that has the same low bits,
   in units of the range; for a floating-point type the number of the pattern, clamped.
   */
  ghost predicate IsMeant(t: SampleType, ieee: Ieee, number: nat, x: real) {
    if t in {Float32Lsb, Float32Msb} then IsClamped(ieee.value32(number), x)
    else if t in {Float64Lsb, Float64Msb} then IsClamped(ieee.value64(number), x)
    else
      var half := Pow2(ValidBits(t) - 1);
      exists value: int :: IsTwosComplement(number, value, half) && Gained(x, half as real) == value as real
  }

  ghost predicate IsClamped(y: real, x: real) {
    x == if y < -1.0 then -1.0 else if y > 1.0 then 1.0 else y
  }

  lemma {:induction false} SpelledIsValue(t: SampleType, bytes: seq<byte>, f: nat, i: nat)
    requires Describe(t).Some? && i <= Width(t) && Samples(f, Width(t)) + Width(t) <= |bytes|
    ensures Spelled(t, bytes, f, i) == Value(LowestFirst(FrameBytes(bytes, f, Width(t)), Describe(t).value.order)[..i])
  {
    hide Describe, Width, IsLsb, Place, LowestFirst, FrameBytes, Weight, Samples;
    DescribedLayout(t);
    FrameLength(bytes, f, Width(t));
    if i > 0 {
      var ordered := LowestFirst(FrameBytes(bytes, f, Width(t)), Describe(t).value.order);
      SpelledIsValue(t, bytes, f, i - 1);
      ByteOfFrame(bytes, t, f, i - 1);
      ValueGrows(ordered[..i - 1], ordered[i - 1]);
      assert ordered[..i - 1] + [ordered[i - 1]] == ordered[..i];
    }
  }

  lemma RawIsMeant(t: SampleType, ieee: Ieee, number: nat)
    requires Describe(t).Some?
    ensures IsMeant(t, ieee, number, FromRaw(Describe(t).value, ieee, number))
  {
    hide Describe, ValidBits, SignExtended, Dequantized, Pow2, Gained;
    DescribedLayout(t);
    if Describe(t).value.encoding == SignedInteger {
      var bits: nat := ValidBits(t);
      SignExtendedIsTwosComplement(number, bits);
      DequantizedExact(SignExtended(number, bits), bits);
    }
  }

  /** Channel c of frame f means the number that its bytes spell. */
  ghost predicate IsReadAt(types: seq<SampleType>, planes: seq<seq<byte>>, ieee: Ieee, interleaved: seq<real>, f: nat,
                           c: nat)
    requires c < |types| == |planes|
  {
    && Samples(f, Width(types[c])) + Width(types[c]) <= |planes[c]|
    && Samples(f, |types|) + c < |interleaved|
    && IsMeant(types[c], ieee, Spelled(types[c], planes[c], f, Width(types[c])), interleaved[Samples(f, |types|) + c])
  }

  ghost predicate IsRead(types: seq<SampleType>, planes: seq<seq<byte>>, ieee: Ieee, interleaved: seq<real>,
                         frameCount: nat)
    requires |types| == |planes|
  {
    forall f: nat, c: nat :: f < frameCount && c < |types| ==> IsReadAt(types, planes, ieee, interleaved, f, c)
  }

  lemma DecodedIsRead(types: seq<SampleType>, planes: seq<seq<byte>>, ieee: Ieee, interleaved: seq<real>, f: nat,
                      c: nat)
    requires c < |types| == |planes| && IsDecodedAt(types, planes, ieee, interleaved, f, c)
    ensures IsReadAt(types, planes, ieee, interleaved, f, c)
  {
    hide Describe, Width, Spelled, FromRaw, IsMeant, LowestFirst, FrameBytes, Value, Samples;
    var t := types[c];
    DescribedLayout(t);
    SpelledIsValue(t, planes[c], f, Width(t));
    var ordered := LowestFirst(FrameBytes(planes[c], f, Width(t)), Describe(t).value.order);
    FrameLength(planes[c], f, Width(t));
    assert ordered[..Width(t)] == ordered;
    RawIsMeant(t, ieee, Value(ordered));
  }

  lemma FrameLength(bytes: seq<byte>, f: nat, byteCount: nat)
    requires Samples(f, byteCount) + byteCount <= |bytes|
    ensures |FrameBytes(bytes, f, byteCount)| == byteCount
  {
  }

  lemma AllIsRead(types: seq<SampleType>, planes: seq<seq<byte>>, ieee: Ieee, interleaved: seq<real>, frameCount: nat)
    requires |types| == |planes| && AreDecoded(types, planes, ieee, interleaved, frameCount, |types|, 0)
    ensures IsRead(types, planes, ieee, interleaved, frameCount)
  {
    hide IsDecodedAt, IsReadAt;
    forall f: nat, c: nat | f < frameCount && c < |types| ensures IsReadAt(types, planes, ieee, interleaved, f, c) {
      assert IsDecodedAt(types, planes, ieee, interleaved, f, c);
      DecodedIsRead(types, planes, ieee, interleaved, f, c);
    }
  }

  /** asio_to_interleaved_float: the planes are read back into their channels. */
  method AsioToInterleaved(types: seq<SampleType>, planes: seq<seq<byte>>, frameCount: nat, ieee: Ieee,
                           interleaved: array<real>)
    returns (r: Conversion)
    requires |types| == |planes|
    modifies interleaved
    ensures r == InvalidShape <==> interleaved.Length != frameCount * |types| || (types == [] && frameCount != 0)
    ensures r != InvalidShape ==>
      IsFirstFault(types, seq(|planes|, i requires 0 <= i < |planes| => |planes[i]|), frameCount, r)
    ensures r != Success ==> interleaved[..] == old(interleaved[..])
    ensures r == Success ==>
      && AreDecoded(types, planes, ieee, interleaved[..], frameCount, |types|, 0)
      && IsRead(types, planes, ieee, interleaved[..], frameCount)
  {
    hide AreDecoded, IsRead, IsFirstFault, Describe, Samples;
    ShapeIsProduct(interleaved.Length, frameCount, |types|);
    if !HasShape(interleaved.Length, frameCount, |types|) {
      return InvalidShape;
    }
    var lengths := seq(|planes|, i requires 0 <= i < |planes| => |planes[i]|);
    r := Validated(types, lengths, frameCount);
    ValidatedIsFirstFault(types, lengths, frameCount);
    ValidatedIsConversion(types, lengths, frameCount);
    if r != Success {
      return;
    }
    NothingDecoded(types, planes, ieee, interleaved[..], frameCount);
    for c := 0 to |types|
      invariant AreDecoded(types, planes, ieee, interleaved[..], frameCount, c, 0)
    {
      ValidatedFits(types, lengths, frameCount, c);
      DecodePlane(types, planes, frameCount, ieee, interleaved, c);
    }
    AllIsRead(types, planes, ieee, interleaved[..], frameCount);
  }

  lemma NothingDecoded(types: seq<SampleType>, planes: seq<seq<byte>>, ieee: Ieee, interleaved: seq<real>,
                       frameCount: nat)
    requires |types| == |planes|
    ensures AreDecoded(types, planes, ieee, interleaved, frameCount, 0, 0)
  {
  }

  /** De-interleaving, encoding, decoding and interleaving quantises every sample and does nothing else. */
  lemma PlanarRoundTrip(interleaved: seq<real>, types: seq<SampleType>, planes: seq<seq<byte>>, ieee: Ieee,
                        frameCount: nat, back: seq<real>, f: nat, c: nat)
    requires |types| == |planes| && c < |types| && f < frameCount
    requires Describe(types[c]).Some? && Describe(types[c]).value.encoding == SignedInteger
    requires IsPlane(interleaved, |types|, c, Describe(types[c]).value, ieee, planes[c], frameCount)
    requires AreDecoded(types, planes, ieee, back, frameCount, |types|, 0)
    ensures
      var at, bits := Samples(f, |types|) + c, Describe(types[c]).value.validBits;
      at < |back| && at < |interleaved| && back[at] == Dequantized(Quantized(interleaved[at], bits), bits)
  {
    hide Describe, IsEncoded, Decoded, Quantized, Dequantized, Samples;
    var format := Describe(types[c]).value;
    assert IsDecodedAt(types, planes, ieee, back, f, c);
    assert IsPlaneAt(interleaved, |types|, c, format, ieee, planes[c], f);
    SampleRoundTrip(types[c], ieee, interleaved[Samples(f, |types|) + c], FrameBytes(planes[c], f, format.byteCount));
  }
}
