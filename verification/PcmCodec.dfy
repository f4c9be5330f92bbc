/**
 Integers as bytes in both byte orders, two's complement, and the quantisation of samples:
 what the WAV files and the ASIO buffers have in common.
 */
module PcmCodec {
  import opened Arithmetic

  newtype byte = n: int | 0 <= n < 256

  datatype ByteOrder = LittleEndian | BigEndian

  function Pow2(k: nat): (r: int)
    ensures r > 0
  {
    if k == 0 then 1 else 2 * Pow2(k - 1)
  }

  lemma {:induction false} Pow2Add(a: nat, b: nat)
    ensures Pow2(a + b) == Pow2(a) * Pow2(b)
  {
    if b > 0 {
      Pow2Add(a, b - 1);
      assert Pow2(a + b) == 2 * (Pow2(a) * Pow2(b - 1)) == Pow2(a) * (2 * Pow2(b - 1));
    }
  }

  lemma Pow2Eight()
    ensures Pow2(8) == 256
  {
    assert Pow2(4) == 16;
    Pow2Add(4, 4);
  }

  lemma Pow2Byte(k: nat)
    ensures Pow2(8 + k) == 256 * Pow2(k)
  {
    Pow2Eight();
    Pow2Add(8, k);
  }

  // ---------------------------------------------------------------- bytes

  /** The `count` low bytes of a value, the lowest first. */
  function Bytes(value: nat, count: nat): (r: seq<byte>)
    ensures |r| == count
  {
    if count == 0 then [] else [(value % 256) as byte] + Bytes(value / 256, count - 1)
  }

  /** The value of bytes, the lowest first. */
  function Value(bytes: seq<byte>): nat {
    if bytes == [] then 0 else bytes[0] as nat + 256 * Value(bytes[1..])
  }

  lemma DivMod(x: int, m: pos, n: pos)
    ensures x % (m * n) == x % m + m * ((x / m) % n)
    ensures x / (m * n) == (x / m) / n
  {
    var q := (x / m) / n;
    var r := x % m + m * ((x / m) % n);
    assert x == x % m + m * (x / m);
    assert x / m == q * n + (x / m) % n;
    assert m * (x / m) == m * (q * n) + m * ((x / m) % n) by {
      MulDistributes(q * n, (x / m) % n, m);
    }
    assert m * (q * n) == q * (m * n);
    assert 0 <= r < m * n by {
      MulMonotone((x / m) % n, n - 1, m);
      MulMonotone(0, (x / m) % n, m);
      MulDistributes(n, 1, m);
    }
    DivModUnique(x, q, r, m * n);
  }

  /** Reading back gives the value again, up to what fits into the bytes. */
  lemma {:induction false} ValueOfBytes(value: nat, count: nat)
    ensures Value(Bytes(value, count)) == value % Pow2(8 * count)
  {
    if count > 0 {
      var bytes := Bytes(value, count);
      assert bytes[1..] == Bytes(value / 256, count - 1);
      ValueOfBytes(value / 256, count - 1);
      Pow2Byte(8 * (count - 1));
      DivMod(value, 256, Pow2(8 * (count - 1)));
    }
  }

  lemma {:induction false} ValueIsBounded(bytes: seq<byte>)
    ensures Value(bytes) < Pow2(8 * |bytes|)
  {
    if bytes != [] {
      ValueIsBounded(bytes[1..]);
      Pow2Byte(8 * (|bytes| - 1));
    }
  }

  /** ... and writing back gives the bytes again. */
  lemma {:induction false} BytesOfValue(bytes: seq<byte>)
    ensures Bytes(Value(bytes), |bytes|) == bytes
  {
    if bytes != [] {
      var rest := Value(bytes[1..]);
      DivModUnique(Value(bytes), rest, bytes[0] as nat, 256);
      BytesOfValue(bytes[1..]);
    }
  }

  function Reversed(bytes: seq<byte>): (r: seq<byte>)
    ensures |r| == |bytes|
    ensures forall i :: 0 <= i < |r| ==> r[i] == bytes[|bytes| - 1 - i]
  {
    seq(|bytes|, i requires 0 <= i < |bytes| => bytes[|bytes| - 1 - i])
  }

  /** The bytes lowest first, whichever way round they are stored. */
  function LowestFirst(bytes: seq<byte>, order: ByteOrder): (r: seq<byte>)
    ensures |r| == |bytes|
  {
    if order == LittleEndian then bytes else Reversed(bytes)
  }

  /** Byte i of a value is what a shift by i bytes and a mask leave. */
  lemma {:induction false} ByteAt(value: nat, count: nat, i: nat)
    requires i < count
    ensures Bytes(value, count)[i] as int == (value / Pow2(8 * i)) % 256
  {
    if i > 0 {
      ByteAt(value / 256, count - 1, i - 1);
      Pow2Byte(8 * (i - 1));
      DivMod(value, 256, Pow2(8 * (i - 1)));
    }
  }

  /** The byte that write_unsigned stores for index i: shift and mask. */
  function ShiftedByte(value: nat, i: nat): byte {
    ((value / Pow2(8 * i)) % 256) as byte
  }

  lemma ByteIsShifted(value: nat, count: nat, i: nat)
    requires i < count
    ensures Bytes(value, count)[i] == ShiftedByte(value, i)
  {
    ByteAt(value, count, i);
  }

  /** write_unsigned. */
  method WriteUnsigned(value: nat, order: ByteOrder, destination: array<byte>, offset: nat, count: nat)
    requires offset + count <= destination.Length
    modifies destination
    ensures LowestFirst(destination[offset..offset + count], order) == Bytes(value, count)
    ensures destination[..offset] == old(destination[..offset])
    ensures destination[offset + count..] == old(destination[offset + count..])
  {
    hide ShiftedByte, Bytes;
    for index := 0 to count
      invariant forall i :: 0 <= i < index ==>
                  destination[offset + if order == LittleEndian then i else count - 1 - i] == Bytes(value, count)[i]
      invariant forall i :: 0 <= i < destination.Length && !(offset <= i < offset + count) ==>
                  destination[i] == old(destination[i])
    {
      var at := if order == LittleEndian then index else count - 1 - index;
      ByteIsShifted(value, count, index);
      destination[offset + at] := ShiftedByte(value, index);
    }
    OrderedBytes(destination[offset..offset + count], order, Bytes(value, count));
  }

  lemma OrderedBytes(stored: seq<byte>, order: ByteOrder, bytes: seq<byte>)
    requires |stored| == |bytes|
    requires forall i :: 0 <= i < |bytes| ==>
               stored[if order == LittleEndian then i else |bytes| - 1 - i] == bytes[i]
    ensures LowestFirst(stored, order) == bytes
  {
  }

  lemma {:induction false} ValueAppend(bytes: seq<byte>, b: byte)
    ensures Value(bytes + [b]) == Value(bytes) + b as nat * Pow2(8 * |bytes|)
  {
    if bytes == [] {
      assert bytes + [b] == [b];
      assert Value([b]) == b as nat;
    } else {
      assert (bytes + [b])[1..] == bytes[1..] + [b];
      ValueAppend(bytes[1..], b);
      Pow2Byte(8 * (|bytes| - 1));
      var p := Pow2(8 * (|bytes| - 1));
      assert 256 * (b as nat * p) == b as nat * (256 * p);
    }
  }

  /** read_unsigned: the shifted bytes do not overlap, so the or is a sum. */
  method ReadUnsigned(source: seq<byte>, order: ByteOrder) returns (value: nat)
    ensures value == Value(LowestFirst(source, order))
  {
    value := 0;
    var ordered := LowestFirst(source, order);
    for index := 0 to |source|
      invariant value == Value(ordered[..index])
    {
      var at := if order == LittleEndian then index else |source| - 1 - index;
      value := value + source[at] as nat * Pow2(8 * index);
      ValueAppend(ordered[..index], ordered[index]);
      assert ordered[..index] + [ordered[index]] == ordered[..index + 1];
    }
    assert ordered[..|source|] == ordered;
  }

  // ---------------------------------------------------------------- two's complement

  /** The conversion of a signed integer to an unsigned one of `width` bits. */
  function Wrapped(value: int, width: nat): (r: nat)
    ensures r < Pow2(width)
  {
    value % Pow2(width)
  }

  predicate InRange(value: int, bits: pos) {
    -Pow2(bits - 1) <= value < Pow2(bits - 1)
  }

  /** sign_extend: the low `bits` bits, the highest of them negative. */
  function SignExtended(value: nat, bits: pos): int {
    var low := value % Pow2(bits);
    if low < Pow2(bits - 1) then low
    else
      var magnitude := (Pow2(bits) - 1 - low) + 1;
      -magnitude
  }

  lemma MulSwap(a: int, b: int, c: int)
    ensures a * (b * c) == (a * c) * b
  {
  }

  lemma NestedMod(x: int, m: pos, n: pos)
    ensures (x % (m * n)) % m == x % m
  {
    var q, r := x / (m * n), x % (m * n);
    var k := r / m;
    MulSwap(q, m, n);
    MulDistributes(q * n, k, m);
    DivModUnique(x, q * n + k, r % m, m);
  }

  /** Reducing modulo a power of two and then modulo a smaller one is reducing modulo the smaller one. */
  lemma ModMod(x: int, small: nat, large: nat)
    requires small <= large
    ensures (x % Pow2(large)) % Pow2(small) == x % Pow2(small)
  {
    Pow2Add(small, large - small);
    NestedMod(x, Pow2(small), Pow2(large - small));
  }

  /** A value in range survives two's complement in at least as many bits. */
  lemma SignedRoundTrip(value: int, width: nat, count: nat, bits: pos)
    requires InRange(value, bits) && bits <= 8 * count <= width
    ensures SignExtended(Value(Bytes(Wrapped(value, width), count)), bits) == value
  {
    ValueOfBytes(Wrapped(value, width), count);
    ModMod(value, 8 * count, width);
    ModMod(value, bits, 8 * count);
    assert Pow2(bits) == 2 * Pow2(bits - 1);
    DivModUnique(value, if value < 0 then -1 else 0, if value < 0 then value + Pow2(bits) else value, Pow2(bits));
  }

  /** Byte i of the two's complement of a value is byte i of the value, wherever it is cut off. */
  lemma WrappedByte(value: int, width: nat, i: nat)
    requires 8 * i + 8 <= width
    ensures (Wrapped(value, width) / Pow2(8 * i)) % 256 == (value / Pow2(8 * i)) % 256
  {
    hide Pow2;
    Pow2Add(8 * i, width - 8 * i);
    Pow2Byte(width - 8 * i - 8);
    ByteOfRemainder(value, Pow2(8 * i), Pow2(width - 8 * i - 8), Pow2(width));
  }

  lemma ByteOfRemainder(value: int, unit: pos, rest: pos, wrap: pos)
    requires wrap == unit * (256 * rest)
    ensures ((value % wrap) / unit) % 256 == (value / unit) % 256
  {
    DivMod(value, unit, 256 * rest);
    QuotientOfParts(value % wrap, (value / unit) % (256 * rest), value % unit, unit);
    NestedMod(value / unit, 256, rest);
  }

  lemma QuotientOfParts(x: int, q: int, r: nat, n: pos)
    requires x == r + n * q && r < n
    ensures x / n == q
  {
    DivModUnique(x, q, r, n);
  }

  /** What is read from bytes is in range. */
  lemma SignExtendedInRange(value: nat, bits: pos)
    ensures InRange(SignExtended(value, bits), bits)
  {
    assert Pow2(bits) == 2 * Pow2(bits - 1);
  }

  /** Reading a sign drops multiples of the power of two, and nothing else. */
  lemma SignExtendedIsCongruent(value: nat, bits: pos)
    ensures (SignExtended(value, bits) - value) % Pow2(bits) == 0
  {
    hide Pow2;
    RemainderIsCongruent(value, Pow2(bits), 0);
    RemainderIsCongruent(value, Pow2(bits), 1);
  }

  lemma RemainderIsCongruent(value: int, n: pos, k: int)
    ensures (value % n - k * n - value) % n == 0
  {
    MulDistributes(value / n, -k, n);
    DivModUnique(value % n - k * n - value, -(value / n) - k, 0, n);
  }

  /** The value of the range from -half to half - 1 that has the low bits of the number. */
  ghost predicate IsTwosComplement(number: nat, value: int, half: int)
    requires half > 0
  {
    -half <= value < half && (value - number) % (2 * half) == 0
  }

  lemma SignExtendedIsTwosComplement(number: nat, bits: pos)
    ensures IsTwosComplement(number, SignExtended(number, bits), Pow2(bits - 1))
  {
    hide SignExtended;
    SignExtendedInRange(number, bits);
    SignExtendedIsCongruent(number, bits);
  }

  // ---------------------------------------------------------------- quantisation

  function Clamp(x: real): real {
    if x < -1.0 then -1.0 else if x > 1.0 then 1.0 else x
  }

  function ClampInt(value: int, lower: int, upper: int): int {
    if value < lower then lower else if value > upper then upper else value
  }

  function Scale(bits: pos): real {
    Pow2(bits - 1) as real
  }

  /** quantize_sample on a clamped sample, of which `scaled` is the multiple. */
  function QuantizedScaled(sample: real, scaled: real, half: int): int {
    if sample <= -1.0 then -half
    else if sample >= 1.0 then half - 1
    else ClampInt(LlRound(scaled), -half, half - 1)
  }

  /** quantize_sample. */
  function Quantized(x: real, bits: pos): int {
    QuantizedScaled(Clamp(x), Gained(Clamp(x), Scale(bits)), Pow2(bits - 1))
  }

  /** The sample of a quantised value. */
  function Dequantized(value: int, bits: pos): real {
    value as real / Scale(bits)
  }

  lemma GainedMonotone(x: real, y: real, s: real)
    requires x <= y && s > 0.0
    ensures Gained(x, s) <= Gained(y, s)
    ensures x < y ==> Gained(x, s) < Gained(y, s)
  {
  }

  lemma GainedUnit(s: real)
    ensures Gained(1.0, s) == s && Gained(-1.0, s) == -s
  {
  }

  lemma QuantizedInRange(x: real, bits: pos)
    ensures InRange(Quantized(x, bits), bits)
  {
    hide LlRound, Gained;
  }

  /**
   The value of a sample of which `scaled` is the multiple: the ends of the range from -1 and +1 outwards, and between
   them the nearest whole number, halves away from zero, as long as it is in the range.
   */
  ghost predicate IsNearest(x: real, scaled: real, half: int, value: int) {
    if x <= -1.0 then value == -half
    else if x >= 1.0 || scaled >= half as real - 0.5 then value == half - 1
    else if scaled >= 0.0 then value as real - 0.5 <= scaled < value as real + 0.5
    else value as real - 0.5 < scaled <= value as real + 0.5
  }

  /** What quantising does to any sample. */
  lemma QuantizedIsNearest(x: real, bits: pos)
    ensures IsNearest(x, Gained(x, Pow2(bits - 1) as real), Pow2(bits - 1), Quantized(x, bits))
  {
    hide QuantizedScaled, LlRound, Pow2, Gained, IsNearest;
    if -1.0 < x < 1.0 {
      GainedUnit(Scale(bits));
      GainedMonotone(-1.0, x, Scale(bits));
      GainedMonotone(x, 1.0, Scale(bits));
    }
    ScaledIsNearest(x, Gained(Clamp(x), Scale(bits)), Gained(x, Scale(bits)), Pow2(bits - 1));
  }

  lemma ScaledIsNearest(x: real, clamped: real, scaled: real, half: int)
    requires half >= 1 && (-1.0 < x < 1.0 ==> clamped == scaled && -(half as real) < scaled < half as real)
    ensures IsNearest(x, scaled, half, QuantizedScaled(Clamp(x), clamped, half))
  {
  }

  /** The step is half a unit at most, except that there is no value for +1 itself. */
  lemma QuantizationError(x: real, bits: pos)
    ensures
      var scaled := Gained(Clamp(x), Scale(bits));
      var error := Quantized(x, bits) as real - scaled;
      -1.0 <= error <= 0.5 && (scaled <= Scale(bits) - 1.0 ==> -0.5 <= error)
  {
    hide QuantizedScaled, LlRound, Pow2, Gained;
    GainedUnit(Scale(bits));
    GainedMonotone(-1.0, Clamp(x), Scale(bits));
    GainedMonotone(Clamp(x), 1.0, Scale(bits));
    ScaledError(Clamp(x), Gained(Clamp(x), Scale(bits)), Pow2(bits - 1));
  }

  lemma ScaledError(sample: real, scaled: real, half: int)
    requires half >= 1 && -(half as real) <= scaled <= half as real
    requires sample <= -1.0 ==> scaled == -(half as real)
    requires sample >= 1.0 ==> scaled == half as real
    ensures var error := QuantizedScaled(sample, scaled, half) as real - scaled;
      && -1.0 <= error <= 0.5 && (scaled <= half as real - 1.0 ==> -0.5 <= error)
  {
    LlRoundIsNear(scaled);
  }

  lemma LlRoundMonotone(x: real, y: real)
    requires x <= y
    ensures LlRound(x) <= LlRound(y)
  {
  }

  lemma QuantizedIsMonotone(x: real, y: real, bits: pos)
    requires x <= y
    ensures Quantized(x, bits) <= Quantized(y, bits)
  {
    hide QuantizedScaled, LlRound, Pow2, Gained;
    GainedMonotone(Clamp(x), Clamp(y), Scale(bits));
    ScaledMonotone(Clamp(x), Gained(Clamp(x), Scale(bits)), Clamp(y), Gained(Clamp(y), Scale(bits)), Pow2(bits - 1));
  }

  lemma ScaledMonotone(x: real, xs: real, y: real, ys: real, half: int)
    requires half >= 1 && x <= y && xs <= ys
    ensures QuantizedScaled(x, xs, half) <= QuantizedScaled(y, ys, half)
  {
    LlRoundMonotone(xs, ys);
  }

  lemma LlRoundOfInt(value: int)
    ensures LlRound(value as real) == value
  {
  }

  /** The sample of a value lies in [-1, 1) and scales back to it. */
  lemma DequantizedScales(value: int, bits: pos)
    requires InRange(value, bits)
    ensures Gained(Dequantized(value, bits), Scale(bits)) == value as real
    ensures -1.0 <= Dequantized(value, bits) < 1.0
    ensures Dequantized(value, bits) == -1.0 ==> value == -Pow2(bits - 1)
  {
    hide Gained, Dequantized, Pow2;
    DequantizedExact(value, bits);
    var x, s := Dequantized(value, bits), Scale(bits);
    GainedUnit(s);
    if x < -1.0 {
      GainedMonotone(x, -1.0, s);
    }
    if x >= 1.0 {
      GainedMonotone(1.0, x, s);
    }
  }

  lemma DequantizedExact(value: int, bits: pos)
    ensures Gained(Dequantized(value, bits), Scale(bits)) == value as real
  {
  }

  /** Quantising a quantised sample changes nothing. */
  lemma QuantizedIsIdempotent(value: int, bits: pos)
    requires InRange(value, bits)
    ensures Quantized(Dequantized(value, bits), bits) == value
  {
    hide QuantizedScaled, LlRound, Gained, Dequantized, Pow2;
    DequantizedScales(value, bits);
    ExactScaled(Dequantized(value, bits), value, Pow2(bits - 1));
  }

  lemma ExactScaled(x: real, value: int, half: int)
    requires -half <= value < half && -1.0 <= x < 1.0 && (x == -1.0 ==> value == -half)
    ensures QuantizedScaled(x, value as real, half) == value
  {
    LlRoundOfInt(value);
  }
}
