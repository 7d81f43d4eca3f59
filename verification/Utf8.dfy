/**
  Wide strings in UTF-16, converted to UTF-8.  Code points are 32 bits, wide
  characters 16 bits and bytes 8 bits wide.
 */
module Utf8 {
  import opened Basics
  import opened CStrings

  type Bytes = seq<bv8>
  type CodePoint = c: bv32 | c <= 0x10_FFFF
  type WideString = w: seq<bv16> | 0 !in w

  const MAX_CODE_POINT_1: bv32 := 0x7F
  const MAX_CODE_POINT_2: bv32 := 0x7FF
  const MAX_CODE_POINT_3: bv32 := 0xFFFF
  const MAX_CODE_POINT_4: bv32 := 0x1F_FFFF

  // ----- One code point -----------------------------------------------------

  function Low6(bits: bv32): bv8 { (0x80 | (bits & 0x3F)) as bv8 }

  function ToBytes(s: string): Bytes {
    seq(|s|, i requires 0 <= i < |s| => (s[i] as int % 256) as bv8)
  }

  function InvalidText(codePoint: bv32): string {
    "(Invalid Unicode 0x" + HexUpper(codePoint as nat) + ")"
  }

  /** The bytes CodePointToUtf8 writes before the terminator. */
  function Encode(c: bv32): (b: Bytes)
    requires c <= MAX_CODE_POINT_4
    ensures 1 <= |b| <= 4
  {
    if c <= MAX_CODE_POINT_1 then [c as bv8]
    else if c <= MAX_CODE_POINT_2 then [(0xC0 | (c >> 6)) as bv8, Low6(c)]
    else if c <= MAX_CODE_POINT_3 then [(0xE0 | (c >> 12)) as bv8, Low6(c >> 6), Low6(c)]
    else [(0xF0 | (c >> 18)) as bv8, Low6(c >> 12), Low6(c >> 6), Low6(c)]
  }

  /** What CodePointToUtf8 writes, for every 32-bit value. */
  function Written(c: bv32): Bytes {
    if c <= MAX_CODE_POINT_4 then Encode(c) else ToBytes(InvalidText(c))
  }

  /** ChopLowBits(&bits, 6): the six lowest bits, and the others moved down. */
  method ChopLowBits(bits: bv32) returns (low: bv32, rest: bv32)
    ensures low < 0x40 && (0x80 | low) < 0x100 && (0x80 | low) as bv8 == Low6(bits) && rest == bits >> 6
  {
    low := bits & ((1 << 6) - 1);
    rest := bits >> 6;
  }

  lemma Shifts(c: bv32)
    ensures (c >> 6) >> 6 == c >> 12 && ((c >> 6) >> 6) >> 6 == c >> 18
    ensures c <= MAX_CODE_POINT_2 ==> (0xC0 | (c >> 6)) < 0x100
    ensures c <= MAX_CODE_POINT_3 ==> (0xE0 | (c >> 12)) < 0x100
    ensures c <= MAX_CODE_POINT_4 ==> (0xF0 | (c >> 18)) < 0x100
  {
  }

  // The branches of CodePointToUtf8.

  method TwoByteForm(codePoint: bv32, str: array<bv8>)
    requires str.Length >= 32 && MAX_CODE_POINT_1 < codePoint <= MAX_CODE_POINT_2
    modifies str
    ensures HoldsCString(str[..], Encode(codePoint))
  {
    var c, low := codePoint, 0;
    Shifts(codePoint);
    str[2] := 0;
    low, c := ChopLowBits(c);
    str[1] := (0x80 | low) as bv8;
    str[0] := (0xC0 | c) as bv8;
    HoldsByIndex(str[..], Encode(codePoint));
  }

  method ThreeByteForm(codePoint: bv32, str: array<bv8>)
    requires str.Length >= 32 && MAX_CODE_POINT_2 < codePoint <= MAX_CODE_POINT_3
    modifies str
    ensures HoldsCString(str[..], Encode(codePoint))
  {
    var c, low := codePoint, 0;
    Shifts(codePoint);
    str[3] := 0;
    low, c := ChopLowBits(c);
    str[2] := (0x80 | low) as bv8;
    low, c := ChopLowBits(c);
    str[1] := (0x80 | low) as bv8;
    str[0] := (0xE0 | c) as bv8;
    HoldsByIndex(str[..], Encode(codePoint));
  }

  /** The bytes of the longest form, from the last to the first. */
  method ChopFour(codePoint: bv32) returns (b0: bv8, b1: bv8, b2: bv8, b3: bv8)
    requires MAX_CODE_POINT_3 < codePoint <= MAX_CODE_POINT_4
    ensures Encode(codePoint) == [b0, b1, b2, b3]
  {
    var c, low := codePoint, 0;
    Shifts(codePoint);
    low, c := ChopLowBits(c);
    b3 := (0x80 | low) as bv8;
    low, c := ChopLowBits(c);
    b2 := (0x80 | low) as bv8;
    low, c := ChopLowBits(c);
    b1 := (0x80 | low) as bv8;
    b0 := (0xF0 | c) as bv8;
  }

  method FourByteForm(codePoint: bv32, str: array<bv8>)
    requires str.Length >= 32 && MAX_CODE_POINT_3 < codePoint <= MAX_CODE_POINT_4
    modifies str
    ensures HoldsCString(str[..], Encode(codePoint))
  {
    var b0, b1, b2, b3 := ChopFour(codePoint);
    str[4] := 0;
    str[3] := b3;
    str[2] := b2;
    str[1] := b1;
    str[0] := b0;
  }

  method CodePointToUtf8(codePoint: bv32, str: array<bv8>)
    requires str.Length >= 32
    modifies str
    ensures HoldsCString(str[..], Written(codePoint))
  {
    var c := codePoint;
    if c <= MAX_CODE_POINT_1 {
      str[1] := 0;
      str[0] := c as bv8;
    } else if c <= MAX_CODE_POINT_2 {
      TwoByteForm(c, str);
    } else if c <= MAX_CODE_POINT_3 {
      ThreeByteForm(c, str);
    } else if c <= MAX_CODE_POINT_4 {
      FourByteForm(c, str);
    } else {
      var text := ToBytes(InvalidText(codePoint));
      InvalidTextFits(codePoint);
      StrNCpy(str, text);
    }
  }

  /** The bytes s are a buffer that starts with b and a terminator. */
  predicate HoldsCString(s: Bytes, b: Bytes) {
    |b| < |s| && s[..|b|] == b && s[|b|] == 0
  }

  lemma HoldsByIndex(s: Bytes, b: Bytes)
    requires |b| < |s| && (forall i :: 0 <= i < |b| ==> s[i] == b[i]) && s[|b|] == 0
    ensures HoldsCString(s, b)
  {
  }

  lemma HexUpperLength(n: nat, digits: nat, bound: nat)
    requires digits >= 1 && n < bound && bound <= Power16(digits)
    ensures |HexUpper(n)| <= digits
    decreases digits
  {
    if n >= 16 {
      HexUpperLength(n / 16, digits - 1, Power16(digits - 1));
    }
  }

  ghost function Power16(k: nat): nat {
    if k == 0 then 1 else 16 * Power16(k - 1)
  }

  lemma InvalidTextFits(c: bv32)
    ensures |ToBytes(InvalidText(c))| <= 28
  {
    assert Power16(8) == 0x1_0000_0000 by {
      assert Power16(4) == 0x1_0000;
    }
    HexUpperLength(c as nat, 8, 0x1_0000_0000);
  }

  /** strncpy(str, text, 32) and str[31] = 0, for a text that fits. */
  method StrNCpy(str: array<bv8>, text: Bytes)
    requires |text| < 32 <= str.Length
    modifies str
    ensures HoldsCString(str[..], text)
  {
    for i := 0 to 32
      invariant forall k :: 0 <= k < i ==> str[k] == if k < |text| then text[k] else 0
    {
      str[i] := if i < |text| then text[i] else 0;
    }
    str[31] := 0;
  }

  /** One character by section 3 of RFC 3629: its lead byte, its continuation
      bytes, and no longer than needed.  The result is the code point and the
      number of bytes; strict excludes surrogates and what is beyond 10FFFF. */
  function DecodeChar(b: Bytes, strict: bool): Option<(bv32, nat)> {
    if b == [] then None
    else if b[0] < 0x80 then Some((b[0] as bv32, 1))
    else if 0xC0 <= b[0] < 0xE0 && |b| >= 2 && IsTail(b[1]) then
      var c := Two(b[0], b[1]);
      if c >= 0x80 then Some((c, 2)) else None
    else if 0xE0 <= b[0] < 0xF0 && |b| >= 3 && IsTail(b[1]) && IsTail(b[2]) then
      var c := Three(b[0], b[1], b[2]);
      if c >= 0x800 && !(strict && IsSurrogate(c)) then Some((c, 3)) else None
    else if 0xF0 <= b[0] < 0xF8 && |b| >= 4 && IsTail(b[1]) && IsTail(b[2]) && IsTail(b[3]) then
      var c := Four(b[0], b[1], b[2], b[3]);
      if c >= 0x1_0000 && !(strict && c > 0x10_FFFF) then Some((c, 4)) else None
    else None
  }

  predicate IsTail(b: bv8) { b & 0xC0 == 0x80 }

  predicate IsSurrogate(c: bv32) { 0xD800 <= c <= 0xDFFF }

  /** The Unicode scalar values. */
  predicate IsScalar(c: bv32) { c <= 0x10_FFFF && !IsSurrogate(c) }

  function Two(b0: bv8, b1: bv8): bv32 {
    ((b0 & 0x1F) as bv32 << 6) | (b1 & 0x3F) as bv32
  }

  function Three(b0: bv8, b1: bv8, b2: bv8): bv32 {
    ((b0 & 0x0F) as bv32 << 12) | ((b1 & 0x3F) as bv32 << 6) | (b2 & 0x3F) as bv32
  }

  function Four(b0: bv8, b1: bv8, b2: bv8, b3: bv8): bv32 {
    ((b0 & 0x07) as bv32 << 18) | ((b1 & 0x3F) as bv32 << 12) | ((b2 & 0x3F) as bv32 << 6) | (b3 & 0x3F) as bv32
  }

  lemma TwoBytes(c: bv32)
    requires MAX_CODE_POINT_1 < c <= MAX_CODE_POINT_2
    ensures var b := Encode(c);
            |b| == 2 && 0xC0 <= b[0] < 0xE0 && IsTail(b[1]) && Two(b[0], b[1]) == c
  {
  }

  lemma ThreeBytes(c: bv32)
    requires MAX_CODE_POINT_2 < c <= MAX_CODE_POINT_3
    ensures var b := Encode(c);
            |b| == 3 && 0xE0 <= b[0] < 0xF0 && IsTail(b[1]) && IsTail(b[2]) && Three(b[0], b[1], b[2]) == c
  {
  }

  lemma FourBytes(c: bv32)
    requires MAX_CODE_POINT_3 < c <= MAX_CODE_POINT_4
    ensures var b := Encode(c);
            |b| == 4 && 0xF0 <= b[0] < 0xF8 && IsTail(b[1]) && IsTail(b[2]) && IsTail(b[3])
            && Four(b[0], b[1], b[2], b[3]) == c
  {
  }

  /** The dollar, cent and euro signs, and a smiling face. */
  lemma EncodeExamples()
    ensures Encode(0x24) == [0x24] && Encode(0xA2) == [0xC2, 0xA2]
    ensures Encode(0x20AC) == [0xE2, 0x82, 0xAC] && Encode(0x1_F600) == [0xF0, 0x9F, 0x98, 0x80]
  {
  }

  /** Decoding undoes encoding, and the encoding is the shortest there is. */
  lemma DecodeEncode(c: bv32, rest: Bytes, strict: bool)
    requires c <= MAX_CODE_POINT_4 && (strict ==> IsScalar(c))
    ensures DecodeChar(Encode(c) + rest, strict) == Some((c, |Encode(c)|))
  {
    if c <= MAX_CODE_POINT_1 {
    } else if c <= MAX_CODE_POINT_2 {
      TwoBytes(c);
    } else if c <= MAX_CODE_POINT_3 {
      ThreeBytes(c);
    } else {
      FourBytes(c);
    }
  }

  /** A surrogate, or a value beyond Unicode, makes a strict decoder stop. */
  lemma NonScalarRefused(c: bv32, rest: Bytes)
    requires c <= MAX_CODE_POINT_4 && !IsScalar(c)
    ensures DecodeChar(Encode(c) + rest, true) == None
  {
    if c <= MAX_CODE_POINT_3 {
      ThreeBytes(c);
    } else {
      FourBytes(c);
    }
  }

  /** A surrogate and the first value beyond Unicode: both are encoded, and
      neither encoding is UTF-8. */
  lemma EncodedButNotUtf8()
    ensures Encode(0xD800) == [0xED, 0xA0, 0x80] && DecodeChar([0xED, 0xA0, 0x80], true) == None
    ensures Encode(0x11_0000) == [0xF4, 0x90, 0x80, 0x80] && DecodeChar([0xF4, 0x90, 0x80, 0x80], true) == None
  {
    NonScalarRefused(0xD800, []);
    NonScalarRefused(0x11_0000, []);
    assert Encode(0xD800) + [] == Encode(0xD800) && Encode(0x11_0000) + [] == Encode(0x11_0000);
  }

  lemma EncodeHasNoNul(c: bv32)
    requires 0 < c <= MAX_CODE_POINT_4
    ensures 0 !in Encode(c)
  {
  }

  // ----- Wide strings -------------------------------------------------------

  predicate IsUtf16SurrogatePair(first: bv16, second: bv16) {
    first & 0xFC00 == 0xD800 && second & 0xFC00 == 0xDC00
  }

  function CreateCodePointFromUtf16SurrogatePair(first: bv16, second: bv16): (c: CodePoint)
    ensures c >= 0x1_0000
  {
    TenBits((first & 0x3FF) as bv32, (second & 0x3FF) as bv32);
    (((first & 0x3FF) as bv32 << 10) | (second & 0x3FF) as bv32) + 0x1_0000
  }

  lemma TenBits(high: bv32, low: bv32)
    requires high <= 0x3FF && low <= 0x3FF
    ensures var u := (high << 10) | low;
            u <= 0xF_FFFF && u >> 10 == high && u & 0x3FF == low
  {
  }

  lemma SurrogateWords(first: bv16, second: bv16)
    requires IsUtf16SurrogatePair(first, second)
    ensures (0xD800 | (first & 0x3FF) as bv32) < 0x1_0000 && (0xD800 | (first & 0x3FF) as bv32) as bv16 == first
    ensures (0xDC00 | (second & 0x3FF) as bv32) < 0x1_0000 && (0xDC00 | (second & 0x3FF) as bv32) as bv16 == second
  {
  }

  lemma SurrogateBits(high: bv32, low: bv32)
    requires high <= 0x3FF && low <= 0x3FF
    ensures (0xD800 | high) < 0x1_0000 && (0xDC00 | low) < 0x1_0000
    ensures var first, second := (0xD800 | high) as bv16, (0xDC00 | low) as bv16;
            && IsUtf16SurrogatePair(first, second)
            && (first & 0x3FF) as bv32 == high && (second & 0x3FF) as bv32 == low
  {
  }

  lemma SplitTenBits(u: bv32)
    requires u <= 0xF_FFFF
    ensures u >> 10 <= 0x3FF && ((u >> 10) << 10) | (u & 0x3FF) == u
  {
  }

  /** The code points of a wide string; a surrogate without its partner stands
      for itself. */
  function CodePoints(w: seq<bv16>): seq<CodePoint> {
    if w == [] then []
    else if |w| >= 2 && IsUtf16SurrogatePair(w[0], w[1]) then
      [CreateCodePointFromUtf16SurrogatePair(w[0], w[1])] + CodePoints(w[2..])
    else [w[0] as bv32] + CodePoints(w[1..])
  }

  /** UTF-16 by section 2.1 of RFC 2781. */
  function Utf16(c: CodePoint): seq<bv16> {
    if c < 0x1_0000 then [c as bv16] else [HighWord(c - 0x1_0000), LowWord(c - 0x1_0000)]
  }

  function HighWord(u: bv32): bv16
    requires u <= 0xF_FFFF
  {
    PairWords(u);
    (0xD800 | (u >> 10)) as bv16
  }

  function LowWord(u: bv32): bv16
    requires u <= 0xF_FFFF
  {
    PairWords(u);
    (0xDC00 | (u & 0x3FF)) as bv16
  }

  lemma PairWords(u: bv32)
    requires u <= 0xF_FFFF
    ensures (0xD800 | (u >> 10)) < 0x1_0000 && (0xDC00 | (u & 0x3FF)) < 0x1_0000
  {
  }

  lemma Utf16Example()
    ensures Utf16(0x1_F600) == [0xD83D, 0xDE00]
  {
  }

  lemma PairWordsInvert(first: bv16, second: bv16)
    requires IsUtf16SurrogatePair(first, second)
    ensures Utf16(CreateCodePointFromUtf16SurrogatePair(first, second)) == [first, second]
  {
    TenBits((first & 0x3FF) as bv32, (second & 0x3FF) as bv32);
    SurrogateWords(first, second);
  }

  lemma WordsArePair(u: bv32)
    requires u <= 0xF_FFFF
    ensures IsUtf16SurrogatePair(HighWord(u), LowWord(u))
  {
    SplitTenBits(u);
    SurrogateBits(u >> 10, u & 0x3FF);
  }

  lemma WordsCombine(c: CodePoint, u: bv32)
    requires u <= 0xF_FFFF && c == u + 0x1_0000
    ensures CreateCodePointFromUtf16SurrogatePair(HighWord(u), LowWord(u)) == c
  {
    SplitTenBits(u);
    SurrogateBits(u >> 10, u & 0x3FF);
    Recombine(HighWord(u), LowWord(u), u);
  }

  lemma Recombine(first: bv16, second: bv16, u: bv32)
    requires u <= 0xF_FFFF
    requires (first & 0x3FF) as bv32 == u >> 10 && (second & 0x3FF) as bv32 == u & 0x3FF
    ensures CreateCodePointFromUtf16SurrogatePair(first, second) == u + 0x1_0000
  {
    SplitTenBits(u);
  }

  function Utf16All(cs: seq<CodePoint>): seq<bv16> {
    if cs == [] then [] else Utf16(cs[0]) + Utf16All(cs[1..])
  }

  function EncodeAll(cs: seq<CodePoint>): Bytes {
    if cs == [] then [] else Encode(cs[0]) + EncodeAll(cs[1..])
  }

  function Decode(b: Bytes, strict: bool): Option<seq<bv32>> {
    if b == [] then Some([])
    else
      match DecodeChar(b, strict)
      case None => None
      case Some((c, n)) =>
        match Decode(b[n..], strict)
        case None => None
        case Some(rest) => Some([c] + rest)
  }

  lemma {:induction false} DecodeEncodeAll(cs: seq<CodePoint>, strict: bool)
    requires strict ==> AllScalar(cs)
    ensures Decode(EncodeAll(cs), strict) == Some(cs)
  {
    if cs != [] {
      var b, rest := Encode(cs[0]), EncodeAll(cs[1..]);
      DecodeEncode(cs[0], rest, strict);
      assert (b + rest)[|b|..] == rest;
      DecodeEncodeAll(cs[1..], strict);
      assert cs == [cs[0]] + cs[1..];
    }
  }

  /** The concatenation is UTF-8 exactly if every value is a scalar value. */
  lemma {:induction false} StandardIffAllScalar(cs: seq<CodePoint>)
    ensures Decode(EncodeAll(cs), true).Some? <==> AllScalar(cs)
  {
    if cs != [] {
      var b, rest := Encode(cs[0]), EncodeAll(cs[1..]);
      StandardIffAllScalar(cs[1..]);
      if IsScalar(cs[0]) {
        DecodeEncode(cs[0], rest, true);
        assert (b + rest)[|b|..] == rest;
        assert cs == [cs[0]] + cs[1..];
      } else {
        NonScalarRefused(cs[0], rest);
      }
    }
  }

  /** A decoder reads ASCII, and so the text for an invalid value. */
  lemma {:induction false} DecodeAscii(b: Bytes)
    requires forall i :: 0 <= i < |b| ==> b[i] < 0x80
    ensures Decode(b, true).Some?
  {
    if b != [] {
      assert b[0] < 0x80 && forall i :: 0 <= i < |b| - 1 ==> b[1..][i] == b[i + 1];
      DecodeAscii(b[1..]);
    }
  }

  ghost predicate IsAscii(s: string) {
    forall i :: 0 <= i < |s| ==> s[i] as int < 128
  }

  lemma AsciiConcat(a: string, b: string)
    requires IsAscii(a) && IsAscii(b)
    ensures IsAscii(a + b)
  {
  }

  lemma {:induction false} HexIsAscii(n: nat)
    ensures IsAscii(HexUpper(n))
  {
    if n >= 16 {
      HexIsAscii(n / 16);
      AsciiConcat(HexUpper(n / 16), [HexDigit(n % 16)]);
    }
  }

  lemma AsciiByte(n: nat)
    requires n < 128
    ensures (n % 256) as bv8 < 0x80
  {
  }

  lemma AsciiBytes(s: string)
    requires IsAscii(s)
    ensures forall i :: 0 <= i < |ToBytes(s)| ==> ToBytes(s)[i] < 0x80
  {
    forall i | 0 <= i < |s|
      ensures ToBytes(s)[i] < 0x80
    {
      AsciiByte(s[i] as int);
    }
  }

  lemma InvalidTextIsAscii(c: bv32)
    ensures IsAscii(InvalidText(c))
  {
    HexIsAscii(c as nat);
    AsciiConcat("(Invalid Unicode 0x", HexUpper(c as nat));
    AsciiConcat("(Invalid Unicode 0x" + HexUpper(c as nat), ")");
  }

  /** Whatever the value, what is written is UTF-8 by section 3 of RFC 3629
      exactly if it is a Unicode scalar value or beyond what is encoded. */
  lemma StandardIffScalar(c: bv32)
    ensures Decode(Written(c), true).Some? <==> IsScalar(c) || c > MAX_CODE_POINT_4
    ensures IsScalar(c) ==> Decode(Written(c), true) == Some([c])
  {
    if c > MAX_CODE_POINT_4 {
      InvalidTextIsAscii(c);
      AsciiBytes(InvalidText(c));
      DecodeAscii(Written(c));
    } else if IsScalar(c) {
      OneEncoded(c);
      DecodeEncodeAll([c], true);
    } else {
      RefusedAlone(c);
    }
  }

  lemma OneEncoded(c: CodePoint)
    ensures EncodeAll([c]) == Encode(c)
  {
    assert [c][1..] == [] && Encode(c) + [] == Encode(c);
  }

  lemma RefusedAlone(c: bv32)
    requires c <= MAX_CODE_POINT_4 && !IsScalar(c)
    ensures Decode(Encode(c), true) == None
  {
    NonScalarRefused(c, []);
    assert Encode(c) + [] == Encode(c);
  }

  // ----- The text -----------------------------------------------------------

  ghost function HexDigitOf(x: char): nat {
    if '0' <= x <= '9' then (x - '0') as nat else if 'A' <= x <= 'F' then (x - 'A') as nat + 10 else 0
  }

  ghost function HexValueOf(digits: string): nat {
    if digits == "" then 0
    else 16 * HexValueOf(digits[..|digits| - 1]) + HexDigitOf(digits[|digits| - 1])
  }

  lemma {:induction false} HexUpperIs(n: nat)
    ensures HexValueOf(HexUpper(n)) == n
    ensures n > 0 ==> HexUpper(n)[0] != '0'
  {
    assert HexDigitOf(HexDigit(n % 16)) == n % 16;
    if n >= 16 {
      HexUpperIs(n / 16);
      var front := HexUpper(n / 16);
      assert (front + [HexDigit(n % 16)])[..|front|] == front;
    } else {
      assert [HexDigit(n)][..0] == "";
    }
  }

  /** The text names the value in hexadecimal, without leading zeros. */
  lemma TextNamesValue(c: bv32) returns (digits: string)
    ensures InvalidText(c) == "(Invalid Unicode 0x" + digits + ")"
    ensures HexValueOf(digits) == c as nat && digits != "" && (c > 0 ==> digits[0] != '0')
  {
    digits := HexUpper(c as nat);
    HexUpperIs(c as nat);
  }

  /** The text is written exactly for the values that are not encoded. */
  lemma TextIffNotEncoded(c: bv32)
    ensures Written(c) == ToBytes(InvalidText(c)) <==> c > MAX_CODE_POINT_4
  {
    assert |ToBytes(InvalidText(c))| > 4;
  }

  /** The text stands for exactly the values outside of Unicode, as promised,
      except for those from 110000 to 1FFFFF, which are encoded. */
  lemma InvalidWrittenIff(c: bv32)
    ensures (Written(c) == ToBytes(InvalidText(c)) <==> c > 0x10_FFFF)
      <==> !(0x10_FFFF < c <= MAX_CODE_POINT_4)
  {
    TextIffNotEncoded(c);
  }

  /** Reading UTF-16 loses nothing, well-formed or not. */
  lemma {:induction false} CodePointsLossless(w: seq<bv16>)
    ensures Utf16All(CodePoints(w)) == w
  {
    if w == [] {
    } else if |w| >= 2 && IsUtf16SurrogatePair(w[0], w[1]) {
      PairWordsInvert(w[0], w[1]);
      CodePointsLossless(w[2..]);
      assert CodePoints(w)[1..] == CodePoints(w[2..]);
      assert w == [w[0], w[1]] + w[2..];
    } else {
      CodePointsLossless(w[1..]);
      assert CodePoints(w)[1..] == CodePoints(w[1..]);
      assert w == [w[0]] + w[1..];
    }
  }

  ghost predicate AllScalar(cs: seq<CodePoint>) {
    forall i :: 0 <= i < |cs| ==> IsScalar(cs[i])
  }

  lemma NoPairWithin(c: bv32, x: bv16)
    requires IsScalar(c) && c < 0x1_0000
    ensures !IsUtf16SurrogatePair(c as bv16, x)
  {
  }

  lemma PairAtFront(first: bv16, second: bv16, rest: seq<bv16>)
    requires IsUtf16SurrogatePair(first, second)
    ensures CodePoints([first, second] + rest)
      == [CreateCodePointFromUtf16SurrogatePair(first, second)] + CodePoints(rest)
  {
    assert ([first, second] + rest)[2..] == rest;
  }

  lemma SingleAtFront(x: bv16, rest: seq<bv16>)
    requires rest == [] || !IsUtf16SurrogatePair(x, rest[0])
    ensures CodePoints([x] + rest) == [x as bv32] + CodePoints(rest)
  {
    assert ([x] + rest)[1..] == rest;
  }

  /** The words of c: a surrogate pair that combines to c. */
  ghost predicate EncodesPair(c: CodePoint, first: bv16, second: bv16) {
    IsUtf16SurrogatePair(first, second) && CreateCodePointFromUtf16SurrogatePair(first, second) == c
  }

  lemma WordsEncodePair(c: CodePoint, u: bv32)
    requires u <= 0xF_FFFF && c == u + 0x1_0000
    ensures EncodesPair(c, HighWord(u), LowWord(u))
  {
    WordsArePair(u);
    WordsCombine(c, u);
  }

  lemma Utf16OfPair(c: CodePoint, u: bv32)
    requires u <= 0xF_FFFF && c == u + 0x1_0000
    ensures Utf16(c) == [HighWord(u), LowWord(u)]
  {
  }

  lemma PairStep(c: CodePoint, w: seq<bv16>, rest: seq<bv16>)
    requires |w| == 2 && EncodesPair(c, w[0], w[1])
    ensures CodePoints(w + rest) == [c] + CodePoints(rest)
  {
    assert w == [w[0], w[1]];
    PairAtFront(w[0], w[1], rest);
  }

  lemma AboveBasicPlane(c: CodePoint) returns (u: bv32)
    requires 0x1_0000 <= c
    ensures u <= 0xF_FFFF && c == u + 0x1_0000
  {
    u := c - 0x1_0000;
  }

  lemma LongStep(c: CodePoint, u: bv32, rest: seq<bv16>)
    requires u <= 0xF_FFFF && c == u + 0x1_0000
    ensures CodePoints(Utf16(c) + rest) == [c] + CodePoints(rest)
  {
    Utf16OfPair(c, u);
    WordsEncodePair(c, u);
    PairStep(c, [HighWord(u), LowWord(u)], rest);
  }

  lemma ShortStep(c: CodePoint, rest: seq<bv16>)
    requires IsScalar(c) && c < 0x1_0000
    ensures CodePoints(Utf16(c) + rest) == [c] + CodePoints(rest)
  {
    if rest != [] { NoPairWithin(c, rest[0]); }
    SingleAtFront(c as bv16, rest);
  }

  lemma CodePointsStep(c: CodePoint, rest: seq<bv16>)
    requires IsScalar(c)
    ensures CodePoints(Utf16(c) + rest) == [c] + CodePoints(rest)
  {
    if c < 0x1_0000 {
      ShortStep(c, rest);
    } else {
      var u := AboveBasicPlane(c);
      LongStep(c, u, rest);
    }
  }

  /** Well-formed UTF-16 is read as the scalar values it encodes. */
  lemma {:induction false} CodePointsOfWellFormed(cs: seq<CodePoint>)
    requires AllScalar(cs)
    ensures CodePoints(Utf16All(cs)) == cs
  {
    if cs != [] {
      CodePointsStep(cs[0], Utf16All(cs[1..]));
      CodePointsOfWellFormed(cs[1..]);
      assert cs == [cs[0]] + cs[1..];
    }
  }

  // ----- WideStringToUtf8 ---------------------------------------------------

  function WideAt(w: WideString, i: nat): bv16
    requires i <= |w|
  {
    if i < |w| then w[i] else 0
  }

  /** How many characters are converted: up to the terminator, and no more than
      numChars unless that is -1. */
  function Converted(w: WideString, numChars: int): (n: nat)
    ensures n <= |w|
    ensures numChars == -1 || numChars >= |w| ==> n == |w|
    ensures 0 <= numChars <= |w| ==> n == numChars
    ensures numChars < -1 ==> n == 0
  {
    if numChars == -1 || numChars >= |w| then |w| else if numChars < 0 then 0 else numChars
  }

  /** stream << buffer, for a char array that holds b. */
  method AppendCString(stream: Bytes, buffer: array<bv8>, ghost b: Bytes) returns (out: Bytes)
    requires HoldsCString(buffer[..], b) && 0 !in b
    ensures out == stream + b
  {
    out := stream;
    var i := 0;
    while buffer[i] != 0
      invariant i <= |b| && out == stream + b[..i]
      decreases |b| - i
    {
      assert buffer[i] == b[i];
      out := out + [buffer[i]];
      i := i + 1;
    }
    assert forall k :: 0 <= k < |b| ==> b[k] in b;
  }

  /** How many characters the code point at the head of w takes. */
  function HeadSize(w: seq<bv16>): (k: nat)
    requires w != []
    ensures k <= |w|
  {
    if |w| >= 2 && IsUtf16SurrogatePair(w[0], w[1]) then 2 else 1
  }

  lemma EncodeHead(w: seq<bv16>)
    requires w != []
    ensures CodePoints(w) != []
    ensures EncodeAll(CodePoints(w)) == Encode(CodePoints(w)[0]) + EncodeAll(CodePoints(w[HeadSize(w)..]))
    ensures w[0] != 0 ==> CodePoints(w)[0] != 0
  {
    assert CodePoints(w)[1..] == CodePoints(w[HeadSize(w)..]);
  }

  /** The head of what is left to convert is a pair exactly if the loop finds
      one; the terminator is no part of a pair. */
  lemma PairAtHead(str: WideString, n: int, w: seq<bv16>, i: nat)
    requires i < |w| <= |str| && w == str[..|w|] && (|w| == n || |w| == |str| < n)
    ensures i + 1 < n && IsUtf16SurrogatePair(WideAt(str, i), WideAt(str, i + 1)) <==>
      |w[i..]| >= 2 && IsUtf16SurrogatePair(w[i..][0], w[i..][1])
    ensures w[i..][0] == str[i] && (i + 1 < |w| ==> w[i..][1] == WideAt(str, i + 1))
  {
    assert !IsUtf16SurrogatePair(str[i], 0);
  }

  /** What the loop puts out for one code point. */
  method AppendCodePoint(stream: Bytes, c: CodePoint) returns (out: Bytes)
    requires c != 0
    ensures out == stream + Encode(c)
  {
    var buffer := new bv8[32];
    CodePointToUtf8(c, buffer);
    EncodeHasNoNul(c);
    out := AppendCString(stream, buffer, Encode(c));
  }

  /** One round of the loop takes the code point at the head of what is left. */
  method NextCodePoint(str: WideString, n: int, i: nat, ghost w: seq<bv16>) returns (c: CodePoint, last: nat)
    requires i < |w| <= |str| && w == str[..|w|] && (|w| == n || |w| == |str| < n)
    ensures CodePoints(w[i..]) != [] && c == CodePoints(w[i..])[0]
    ensures last + 1 == i + HeadSize(w[i..])
  {
    PairAtHead(str, n, w, i);
    if i + 1 < n && IsUtf16SurrogatePair(WideAt(str, i), WideAt(str, i + 1)) {
      c := CreateCodePointFromUtf16SurrogatePair(WideAt(str, i), WideAt(str, i + 1));
      last := i + 1;
    } else {
      c := WideAt(str, i) as bv32;
      last := i;
    }
  }

  method WideStringToUtf8(str: WideString, numChars: int) returns (out: Bytes)
    ensures out == EncodeAll(CodePoints(str[..Converted(str, numChars)]))
  {
    var n := if numChars == -1 then |str| else numChars;
    ghost var w := str[..Converted(str, numChars)];
    out := [];
    var i := 0;
    while i < n
      invariant 0 <= i <= |w|
      invariant out + EncodeAll(CodePoints(w[i..])) == EncodeAll(CodePoints(w))
      decreases n - i
    {
      if WideAt(str, i) == 0 {
        break;
      }
      ghost var rest := w[i..];
      var c, last := NextCodePoint(str, n, i, w);
      EncodeHead(rest);
      assert rest[HeadSize(rest)..] == w[last + 1..];
      Associative(out, Encode(c), EncodeAll(CodePoints(w[last + 1..])));
      out := AppendCodePoint(out, c);
      i := last + 1;
    }
    assert w[i..] == [];
  }

  // ----- What comes back ----------------------------------------------------

  /** The UTF-16 of some scalar values. */
  ghost predicate IsWellFormed(w: seq<bv16>) {
    exists cs :: AllScalar(cs) && Utf16All(cs) == w
  }

  lemma WellFormedIffScalar(w: seq<bv16>)
    ensures IsWellFormed(w) <==> AllScalar(CodePoints(w))
  {
    CodePointsLossless(w);
    forall cs | AllScalar(cs) && Utf16All(cs) == w
      ensures cs == CodePoints(w)
    {
      CodePointsOfWellFormed(cs);
    }
  }

  /** A decoder that also accepts surrogates reads every converted string
      back; a strict one reads back the well-formed ones, and refuses what
      came of the others. */
  lemma WideStringReadsBack(w: WideString)
    ensures Decode(EncodeAll(CodePoints(w)), false) == Some(CodePoints(w))
    ensures Utf16All(CodePoints(w)) == w
    ensures Decode(EncodeAll(CodePoints(w)), true) == if IsWellFormed(w) then Some(CodePoints(w)) else None
  {
    DecodeEncodeAll(CodePoints(w), false);
    CodePointsLossless(w);
    WellFormedIffScalar(w);
    StandardIffAllScalar(CodePoints(w));
    if AllScalar(CodePoints(w)) {
      DecodeEncodeAll(CodePoints(w), true);
    }
  }
}
