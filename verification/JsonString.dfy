/**
 JSON strings for arbitrary bytes: quoting never fails, its output is a JSON string in valid
 UTF-8, and decoding it gives the input with every stray byte replaced by U+FFFD.
 */
module JsonString {
  import opened PcmCodec
  import opened Wrappers

  // ---------------------------------------------------------------- UTF-8, section 3 of RFC 3629

  /** A Unicode scalar value: no surrogates, nothing beyond U+10FFFF. */
  predicate IsScalar(c: int) {
    0 <= c < 0xD800 || 0xE000 <= c <= 0x10FFFF
  }

  function Tail(c: nat): byte {
    (0x80 + c % 64) as byte
  }

  /** The encoding of a scalar value. */
  function Utf8(c: nat): (r: seq<byte>)
    requires IsScalar(c)
    ensures 1 <= |r| <= 4
  {
    if c < 0x80 then [c as byte]
    else if c < 0x800 then [(0xC0 + c / 64) as byte, Tail(c)]
    else if c < 0x1_0000 then [(0xE0 + c / 4096) as byte, Tail(c / 64), Tail(c)]
    else [(0xF0 + c / 262144) as byte, Tail(c / 4096), Tail(c / 64), Tail(c)]
  }

  predicate IsContinuation(b: byte) {
    0x80 <= b <= 0xBF
  }

  /** valid_utf8_sequence_length at the start of what remains; 0 if no valid sequence starts there. */
  function SequenceLength(s: seq<byte>): (n: nat)
    requires s != []
    ensures n <= |s| && n <= 4
  {
    var first := s[0];
    if first <= 0x7F then 1
    else if 0xC2 <= first <= 0xDF then (if |s| >= 2 && IsContinuation(s[1]) then 2 else 0)
    else if |s| >= 3 && IsContinuation(s[2]) && IsThreeByteStart(first, s[1]) then 3
    else if |s| >= 4 && IsContinuation(s[2]) && IsContinuation(s[3]) && IsFourByteStart(first, s[1]) then 4
    else 0
  }

  predicate IsThreeByteStart(first: byte, second: byte) {
    || (first == 0xE0 && 0xA0 <= second <= 0xBF)
    || (0xE1 <= first <= 0xEC && IsContinuation(second))
    || (first == 0xED && 0x80 <= second <= 0x9F)
    || (0xEE <= first <= 0xEF && IsContinuation(second))
  }

  predicate IsFourByteStart(first: byte, second: byte) {
    || (first == 0xF0 && 0x90 <= second <= 0xBF)
    || (0xF1 <= first <= 0xF3 && IsContinuation(second))
    || (first == 0xF4 && 0x80 <= second <= 0x8F)
  }

  lemma ThreeByteParts(c: nat, a: nat, x: nat)
    requires 0x800 <= c < 0x1_0000 && IsScalar(c) && a == c / 4096 && x == (c / 64) % 64
    ensures a < 16 && (a == 0 ==> x >= 32) && (a == 13 ==> x < 32)
  {
    assert c / 64 == 64 * a + x;
  }

  lemma FourByteParts(c: nat, a: nat, x: nat)
    requires 0x1_0000 <= c <= 0x10FFFF && a == c / 262144 && x == (c / 4096) % 64
    ensures a < 5 && (a == 0 ==> x >= 16) && (a == 4 ==> x < 16)
  {
    assert c / 4096 == 64 * a + x;
  }

  /** Every encoding of a scalar value is accepted, whatever follows it. */
  lemma EncodingIsAccepted(c: nat, rest: seq<byte>)
    requires IsScalar(c)
    ensures SequenceLength(Utf8(c) + rest) == |Utf8(c)|
  {
    if 0x800 <= c < 0x1_0000 {
      ThreeByteParts(c, c / 4096, (c / 64) % 64);
    } else if 0x1_0000 <= c {
      FourByteParts(c, c / 262144, (c / 4096) % 64);
    }
  }

  lemma ThreeBytes(a: nat, x: nat, y: nat)
    requires a < 16 && x < 64 && y < 64 && (a == 0 ==> x >= 32) && !(a == 13 && x >= 32)
    ensures
      var c := a * 4096 + x * 64 + y;
      IsScalar(c) && Utf8(c) == [(0xE0 + a) as byte, (0x80 + x) as byte, (0x80 + y) as byte]
  {
    var c := a * 4096 + x * 64 + y;
    assert c / 64 == a * 64 + x && c / 4096 == a;
    assert (a * 64 + x) % 64 == x && c % 64 == y;
  }

  lemma FourBytes(a: nat, x: nat, y: nat, z: nat)
    requires a < 5 && x < 64 && y < 64 && z < 64 && (a == 0 ==> x >= 16) && (a == 4 ==> x < 16)
    ensures
      var c := a * 262144 + x * 4096 + y * 64 + z;
      && IsScalar(c)
      && Utf8(c) == [(0xF0 + a) as byte, (0x80 + x) as byte, (0x80 + y) as byte, (0x80 + z) as byte]
  {
    var c := a * 262144 + x * 4096 + y * 64 + z;
    assert c / 64 == a * 4096 + x * 64 + y && c / 4096 == a * 64 + x && c / 262144 == a;
    assert (a * 64 + x) % 64 == x && (a * 4096 + x * 64 + y) % 64 == y && c % 64 == z;
  }

  /** ... and nothing else is accepted. */
  lemma AcceptedIsEncoding(s: seq<byte>) returns (c: nat)
    requires s != [] && SequenceLength(s) > 0
    ensures IsScalar(c) && Utf8(c) == s[..SequenceLength(s)]
  {
    hide Utf8;
    match SequenceLength(s)
    case 1 => c := OneByte(s);
    case 2 => c := TwoBytes(s);
    case 3 =>
      var a, x, y := s[0] as nat - 0xE0, s[1] as nat - 0x80, s[2] as nat - 0x80;
      ThreeBytes(a, x, y);
      c := a * 4096 + x * 64 + y;
      assert s[..3] == [s[0], s[1], s[2]];
    case _ =>
      var a, x, y, z := s[0] as nat - 0xF0, s[1] as nat - 0x80, s[2] as nat - 0x80, s[3] as nat - 0x80;
      FourBytes(a, x, y, z);
      c := a * 262144 + x * 4096 + y * 64 + z;
      assert s[..4] == [s[0], s[1], s[2], s[3]];
  }

  lemma OneByte(s: seq<byte>) returns (c: nat)
    requires s != [] && SequenceLength(s) == 1
    ensures IsScalar(c) && Utf8(c) == s[..1]
  {
    c := s[0] as nat;
  }

  lemma TwoBytes(s: seq<byte>) returns (c: nat)
    requires s != [] && SequenceLength(s) == 2
    ensures IsScalar(c) && Utf8(c) == s[..2]
  {
    var a, x := s[0] as nat - 0xC0, s[1] as nat - 0x80;
    c := a * 64 + x;
    assert c / 64 == a && c % 64 == x;
  }

  predicate IsUtf8(s: seq<byte>)
    decreases |s|
  {
    s == [] || (SequenceLength(s) > 0 && IsUtf8(s[SequenceLength(s)..]))
  }

  // ---------------------------------------------------------------- quoting

  const QUOTE: byte := 0x22
  const BACKSLASH: byte := 0x5C
  const REPLACEMENT: nat := 0xFFFD

  function Hex(digit: nat): byte
    requires digit < 16
  {
    if digit < 10 then (0x30 + digit) as byte else (0x41 + digit - 10) as byte
  }

  /** The escape of a byte below 0x80, or the byte itself. */
  function EscapedAscii(b: byte): (r: seq<byte>)
    requires b < 0x80
  {
    if b == QUOTE then [BACKSLASH, QUOTE]
    else if b == BACKSLASH then [BACKSLASH, BACKSLASH]
    else if b == 0x08 then [BACKSLASH, 0x62]
    else if b == 0x0C then [BACKSLASH, 0x66]
    else if b == 0x0A then [BACKSLASH, 0x6E]
    else if b == 0x0D then [BACKSLASH, 0x72]
    else if b == 0x09 then [BACKSLASH, 0x74]
    else if b < 0x20 then [BACKSLASH, 0x75, 0x30, 0x30, Hex(b as nat / 16), Hex(b as nat % 16)]
    else [b]
  }

  const ESCAPED_REPLACEMENT: seq<byte> := [BACKSLASH, 0x75, 0x46, 0x46, 0x46, 0x44]

  /** What one turn of the loop consumes, ... */
  function Consumed(s: seq<byte>): (n: nat)
    requires s != []
    ensures 1 <= n <= |s|
  {
    if s[0] < 0x80 || SequenceLength(s) == 0 then 1 else SequenceLength(s)
  }

  /** ... and appends. */
  function Escaped(s: seq<byte>): seq<byte>
    requires s != []
  {
    if s[0] < 0x80 then EscapedAscii(s[0])
    else if SequenceLength(s) == 0 then ESCAPED_REPLACEMENT
    else s[..SequenceLength(s)]
  }

  function EscapedAll(s: seq<byte>): seq<byte>
    decreases |s|
  {
    if s == [] then [] else Escaped(s) + EscapedAll(s[Consumed(s)..])
  }

  function Quoted(s: seq<byte>): seq<byte> {
    [QUOTE] + EscapedAll(s) + [QUOTE]
  }

  /** append_json_string. */
  method AppendJsonString(destination: seq<byte>, value: seq<byte>) returns (r: seq<byte>)
    ensures r == destination + Quoted(value)
  {
    hide Escaped, SequenceLength;
    r := destination + [QUOTE];
    var offset := 0;
    while offset < |value|
      invariant offset <= |value|
      invariant r + EscapedAll(value[offset..]) == destination + [QUOTE] + EscapedAll(value)
    {
      var rest := value[offset..];
      assert value[offset + Consumed(rest)..] == rest[Consumed(rest)..];
      r := r + Escaped(rest);
      offset := offset + Consumed(rest);
    }
    assert value[offset..] == [];
    assert r == destination + [QUOTE] + EscapedAll(value);
    r := r + [QUOTE];
  }

  // ---------------------------------------------------------------- decoding, section 7 of RFC 8259

  function HexValue(b: byte): Option<nat> {
    if 0x30 <= b <= 0x39 then Some(b as nat - 0x30)
    else if 0x41 <= b <= 0x46 then Some(b as nat - 0x41 + 10)
    else if 0x61 <= b <= 0x66 then Some(b as nat - 0x61 + 10)
    else None
  }

  /** The number in four hexadecimal digits. */
  function CodeUnit(s: seq<byte>): Option<nat>
    requires |s| >= 4
  {
    var a, b, c, d := HexValue(s[0]), HexValue(s[1]), HexValue(s[2]), HexValue(s[3]);
    if a.Some? && b.Some? && c.Some? && d.Some? then
      Some(a.value * 4096 + b.value * 256 + c.value * 16 + d.value)
    else None
  }

  /** The character after a backslash, if it is one of the eight short escapes. */
  function ShortEscape(b: byte): Option<byte> {
    if b == QUOTE || b == BACKSLASH || b == 0x2F then Some(b)
    else if b == 0x62 then Some(0x08)
    else if b == 0x66 then Some(0x0C)
    else if b == 0x6E then Some(0x0A)
    else if b == 0x72 then Some(0x0D)
    else if b == 0x74 then Some(0x09)
    else None
  }

  /** One character of a JSON string: its UTF-8 bytes and its length in the text; None if it is malformed. */
  function Character(s: seq<byte>): (r: Option<(seq<byte>, nat)>)
    requires s != []
    ensures r.Some? ==> 1 <= r.value.1 <= |s|
  {
    if s[0] == BACKSLASH then
      if |s| >= 2 && ShortEscape(s[1]).Some? then Some(([ShortEscape(s[1]).value], 2))
      else if |s| >= 6 && s[1] == 0x75 && CodeUnit(s[2..]).Some? && IsScalar(CodeUnit(s[2..]).value) then
        Some((Utf8(CodeUnit(s[2..]).value), 6))
      else None
    else if s[0] < 0x20 || s[0] == QUOTE || SequenceLength(s) == 0 then None
    else Some((s[..SequenceLength(s)], SequenceLength(s)))
  }

  /** The characters up to the closing quote, which must be the end; surrogate escapes do not occur. */
  function DecodedBody(s: seq<byte>): Option<seq<byte>>
    decreases |s|
  {
    if s == [] then None
    else if s[0] == QUOTE then (if |s| == 1 then Some([]) else None)
    else
      var c := Character(s);
      if c.None? then None
      else
        var rest := DecodedBody(s[c.value.1..]);
        if rest.None? then None else Some(c.value.0 + rest.value)
  }

  function Decoded(s: seq<byte>): Option<seq<byte>> {
    if s == [] || s[0] != QUOTE then None else DecodedBody(s[1..])
  }

  // ---------------------------------------------------------------- the round trip

  /** The input with each byte at which no valid sequence starts replaced by U+FFFD. */
  function Repaired(s: seq<byte>): seq<byte>
    decreases |s|
  {
    if s == [] then []
    else if SequenceLength(s) == 0 then Utf8(REPLACEMENT) + Repaired(s[1..])
    else s[..SequenceLength(s)] + Repaired(s[SequenceLength(s)..])
  }

  /** A valid sequence is one in any context. */
  lemma SequenceInContext(s: seq<byte>, rest: seq<byte>)
    requires s != [] && SequenceLength(s) > 0
    ensures SequenceLength(s[..SequenceLength(s)] + rest) == SequenceLength(s)
  {
  }

  lemma EscapedAsciiDecodes(b: byte, rest: seq<byte>)
    requires b < 0x80
    ensures Character(EscapedAscii(b) + rest) == Some(([b], |EscapedAscii(b)|))
  {
    if b < 0x20 && b != 0x08 && b != 0x0C && b != 0x0A && b != 0x0D && b != 0x09 {
      var s := EscapedAscii(b) + rest;
      assert s[2..][0] == 0x30 && s[2..][1] == 0x30;
      assert s[2..][2] == Hex(b as nat / 16) && s[2..][3] == Hex(b as nat % 16);
    }
  }

  lemma ReplacementDecodes(rest: seq<byte>)
    ensures Character(ESCAPED_REPLACEMENT + rest) == Some((Utf8(REPLACEMENT), 6))
  {
    var s := ESCAPED_REPLACEMENT + rest;
    assert s[2..][0] == 0x46 && s[2..][1] == 0x46 && s[2..][2] == 0x46 && s[2..][3] == 0x44;
  }

  /** What one turn appends is one character, and no closing quote. */
  lemma EscapedDecodes(s: seq<byte>, rest: seq<byte>)
    requires s != []
    ensures Escaped(s) != [] && Escaped(s)[0] != QUOTE
    ensures Character(Escaped(s) + rest)
         == Some((if SequenceLength(s) == 0 then Utf8(REPLACEMENT) else s[..SequenceLength(s)], |Escaped(s)|))
  {
    if s[0] < 0x80 {
      EscapedAsciiDecodes(s[0], rest);
      assert s[..1] == [s[0]];
    } else if SequenceLength(s) == 0 {
      ReplacementDecodes(rest);
    } else {
      SequenceInContext(s, rest);
      assert (s[..SequenceLength(s)] + rest)[..SequenceLength(s)] == s[..SequenceLength(s)];
    }
  }

  lemma {:induction false} BodyDecodes(s: seq<byte>)
    ensures DecodedBody(EscapedAll(s) + [QUOTE]) == Some(Repaired(s))
    decreases |s|
  {
    hide Escaped, Character;
    if s == [] {
      assert EscapedAll(s) + [QUOTE] == [QUOTE];
    } else {
      var rest := EscapedAll(s[Consumed(s)..]) + [QUOTE];
      EscapedDecodes(s, rest);
      BodyDecodes(s[Consumed(s)..]);
      assert EscapedAll(s) + [QUOTE] == Escaped(s) + rest;
      assert (Escaped(s) + rest)[|Escaped(s)|..] == rest;
    }
  }

  /** Quoting gives a well-formed JSON string in valid UTF-8 that decodes to the repaired input. */
  lemma QuotedDecodes(s: seq<byte>)
    ensures Decoded(Quoted(s)) == Some(Repaired(s))
  {
    hide EscapedAll, DecodedBody, Repaired;
    BodyDecodes(s);
    assert Quoted(s)[1..] == EscapedAll(s) + [QUOTE];
  }

  lemma {:induction false} RepairedIsSame(s: seq<byte>)
    requires IsUtf8(s)
    ensures Repaired(s) == s
    decreases |s|
  {
    if s != [] {
      RepairedIsSame(s[SequenceLength(s)..]);
    }
  }

  lemma {:induction false} ConcatIsUtf8(a: seq<byte>, b: seq<byte>)
    requires IsUtf8(a) && IsUtf8(b)
    ensures IsUtf8(a + b)
    decreases |a|
  {
    if a == [] {
      assert a + b == b;
    } else {
      var n := SequenceLength(a);
      SequenceInContext(a, a[n..] + b);
      assert a + b == a[..n] + (a[n..] + b);
      ConcatIsUtf8(a[n..], b);
      assert (a + b)[n..] == a[n..] + b;
    }
  }

  /** One character of output is valid UTF-8 by itself, without raw control bytes. */
  lemma EscapedIsClean(s: seq<byte>)
    requires s != []
    ensures IsUtf8(Escaped(s)) && forall i :: 0 <= i < |Escaped(s)| ==> Escaped(s)[i] >= 0x20
  {
    hide SequenceLength, EscapedAscii, IsUtf8;
    if s[0] < 0x80 {
      AsciiIsClean(s[0]);
      AsciiIsUtf8(EscapedAscii(s[0]));
    } else if SequenceLength(s) == 0 {
      AsciiIsUtf8(ESCAPED_REPLACEMENT);
    } else {
      SequenceIsClean(s);
    }
  }

  lemma AsciiIsClean(b: byte)
    requires b < 0x80
    ensures forall i :: 0 <= i < |EscapedAscii(b)| ==> 0x20 <= EscapedAscii(b)[i] < 0x80
  {
  }

  lemma SequenceIsClean(s: seq<byte>)
    requires s != [] && s[0] >= 0x80 && SequenceLength(s) > 0
    ensures IsUtf8(s[..SequenceLength(s)])
    ensures forall i :: 0 <= i < SequenceLength(s) ==> s[i] >= 0x80
  {
    SequenceInContext(s, []);
    assert s[..SequenceLength(s)] + [] == s[..SequenceLength(s)];
  }

  lemma {:induction false} AsciiIsUtf8(s: seq<byte>)
    requires forall i :: 0 <= i < |s| ==> s[i] < 0x80
    ensures IsUtf8(s)
    decreases |s|
  {
    if s != [] {
      AsciiIsUtf8(s[1..]);
    }
  }

  lemma {:induction false} EscapedAllIsClean(s: seq<byte>)
    ensures IsUtf8(EscapedAll(s)) && forall i :: 0 <= i < |EscapedAll(s)| ==> EscapedAll(s)[i] >= 0x20
    decreases |s|
  {
    hide Escaped;
    if s != [] {
      EscapedIsClean(s);
      EscapedAllIsClean(s[Consumed(s)..]);
      ConcatIsUtf8(Escaped(s), EscapedAll(s[Consumed(s)..]));
    }
  }

  /** The output as a whole is valid UTF-8 and holds no raw control byte. */
  lemma QuotedIsClean(s: seq<byte>)
    ensures IsUtf8(Quoted(s)) && forall i :: 0 <= i < |Quoted(s)| ==> Quoted(s)[i] >= 0x20
  {
    EscapedAllIsClean(s);
    AsciiIsUtf8([QUOTE]);
    ConcatIsUtf8([QUOTE], EscapedAll(s));
    ConcatIsUtf8([QUOTE] + EscapedAll(s), [QUOTE]);
  }

  /**
   How a byte below 0x80 is written: the quote, the backslash and five controls as a backslash and one letter, the
   other controls as a code unit with capital digits, and everything else as itself.
   */
  lemma AsciiForms(b: byte)
    requires b < 0x80
    ensures
      var e := EscapedAscii(b);
      if b in {0x22, 0x5C, 0x08, 0x09, 0x0A, 0x0C, 0x0D} then
        |e| == 2 && e[0] == 0x5C && ShortEscape(e[1]) == Some(b)
      else if b < 0x20 then
        && |e| == 6 && e[..4] == [0x5C, 0x75, 0x30, 0x30] && CodeUnit(e[2..]) == Some(b as nat)
        && e[4] <= 0x46 && e[5] <= 0x46
      else e == [b]
  {
    if b < 0x20 {
      assert EscapedAscii(b)[2..] == EscapedAscii(b)[2..|EscapedAscii(b)|];
    }
  }

  /** The digits are 0 to 9 and A to F in either case, and stand for their numbers. */
  lemma HexDigits(b: byte)
    ensures HexValue(b).Some? <==> 0x30 <= b <= 0x39 || 0x41 <= b <= 0x46 || 0x61 <= b <= 0x66
    ensures HexValue(b).Some? ==>
      HexValue(b).value < 16 && Hex(HexValue(b).value) == if b >= 0x61 then b - 0x20 else b
  {
  }

  /** Four digits spell a number, the highest first. */
  lemma CodeUnitOfDigits(a: nat, b: nat, c: nat, d: nat)
    requires a < 16 && b < 16 && c < 16 && d < 16
    ensures CodeUnit([Hex(a), Hex(b), Hex(c), Hex(d)]) == Some(4096 * a + 256 * b + 16 * c + d)
  {
  }

  /** The short escapes are these eight. */
  lemma ShortEscapes(b: byte)
    ensures ShortEscape(b).Some? <==> b in {0x22, 0x2F, 0x5C, 0x62, 0x66, 0x6E, 0x72, 0x74}
  {
  }

  /** Text without quotes, backslashes and controls. */
  ghost predicate IsPlain(s: seq<byte>) {
    forall i :: 0 <= i < |s| ==> s[i] >= 0x20 && s[i] != 0x22 && s[i] != 0x5C
  }

  lemma {:induction false} PlainIsEscapedAsItself(s: seq<byte>)
    requires IsUtf8(s) && IsPlain(s)
    ensures EscapedAll(s) == s
    decreases |s|
  {
    hide Escaped, Consumed, SequenceLength, IsUtf8, IsPlain;
    if s != [] {
      PlainFront(s);
      PlainIsEscapedAsItself(s[Consumed(s)..]);
      assert s == s[..Consumed(s)] + s[Consumed(s)..];
    }
  }

  lemma PlainFront(s: seq<byte>)
    requires s != [] && IsUtf8(s) && IsPlain(s)
    ensures Escaped(s) == s[..Consumed(s)] && IsUtf8(s[Consumed(s)..]) && IsPlain(s[Consumed(s)..])
  {
    hide SequenceLength;
    if s[0] < 0x80 {
      AsciiLength(s);
    }
  }

  lemma AsciiLength(s: seq<byte>)
    requires s != [] && s[0] < 0x80
    ensures SequenceLength(s) == 1
  {
  }

  /** Such text is only put between quotes. */
  lemma PlainIsVerbatim(s: seq<byte>)
    requires IsUtf8(s) && IsPlain(s)
    ensures Quoted(s) == [0x22] + s + [0x22]
  {
    PlainIsEscapedAsItself(s);
  }

  /** Different valid strings stay different. */
  lemma QuotedIsInjective(s: seq<byte>, t: seq<byte>)
    requires IsUtf8(s) && IsUtf8(t) && Quoted(s) == Quoted(t)
    ensures s == t
  {
    QuotedDecodes(s);
    QuotedDecodes(t);
    RepairedIsSame(s);
    RepairedIsSame(t);
  }
}
