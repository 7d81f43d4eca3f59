/**
  Byte strings, printed as C string literals.
 */
module CLiterals {
  import opened Basics
  import opened CStrings

  newtype Byte = b: int | 0 <= b < 256

  datatype CharFormat = AsIs | HexEscape | SpecialEscape

  predicate IsPrintableAscii(c: Byte) { 0x20 <= c <= 0x7E }

  predicate IsXDigit(c: Byte) {
    0x30 <= c <= 0x39 || 0x41 <= c <= 0x46 || 0x61 <= c <= 0x66
  }

  function AsChar(c: Byte): char { (c as int) as char }

  // ----- Printing one character ---------------------------------------------

  /** PrintAsCharLiteralTo for a char: its text and how it was formatted. */
  function PrintAsCharLiteral(c: Byte): (string, CharFormat) {
    if c == 0 then ("\\0", SpecialEscape)
    else if c == 0x27 then ("\\'", SpecialEscape)
    else if c == 0x5C then ("\\\\", SpecialEscape)
    else if c == 7 then ("\\a", SpecialEscape)
    else if c == 8 then ("\\b", SpecialEscape)
    else if c == 12 then ("\\f", SpecialEscape)
    else if c == 10 then ("\\n", SpecialEscape)
    else if c == 13 then ("\\r", SpecialEscape)
    else if c == 9 then ("\\t", SpecialEscape)
    else if c == 11 then ("\\v", SpecialEscape)
    else if IsPrintableAscii(c) then ([AsChar(c)], AsIs)
    else ("\\x" + HexUpper(c as nat), HexEscape)
  }

  /** PrintAsWideStringLiteralTo: quotes are different inside a string. */
  function PrintAsStringLiteral(c: Byte): (string, CharFormat) {
    if c == 0x27 then ("'", AsIs)
    else if c == 0x22 then ("\\\"", SpecialEscape)
    else PrintAsCharLiteral(c)
  }

  function Text(c: Byte): string { PrintAsStringLiteral(c).0 }

  predicate IsHex(c: Byte) { PrintAsStringLiteral(c).1 == HexEscape }

  /** How each character is spelled: the printable ones as they are, but for the
      backslash and the double quote; some others by an escape of two characters;
      the rest in hexadecimal. */
  lemma Spelling(c: Byte)
    ensures 0x20 <= c <= 0x7E && c != 0x5C && c != 0x22 ==> Text(c) == [AsChar(c)] && !IsHex(c)
    ensures c in {0x5C, 0x22} ==> Text(c) == ['\\', AsChar(c)] && !IsHex(c)
    ensures c == 0 ==> Text(c) == ['\\', '0'] && !IsHex(c)
    ensures 7 <= c <= 13 ==> Text(c) == ['\\', "abtnvfr"[c as int - 7]] && !IsHex(c)
    ensures 0 < c < 7 || 13 < c < 0x20 || c > 0x7E ==> Text(c) == ['\\', 'x'] + HexUpper(c as nat) && IsHex(c)
  {
    if 7 <= c <= 13 {
      EscapeLetters();
    }
  }

  lemma EscapeLetters()
    ensures "abtnvfr"[0] == 'a' && "abtnvfr"[1] == 'b' && "abtnvfr"[2] == 't' && "abtnvfr"[3] == 'n'
    ensures "abtnvfr"[4] == 'v' && "abtnvfr"[5] == 'f' && "abtnvfr"[6] == 'r'
  {
  }

  // ----- Printing a string --------------------------------------------------

  /** What the loop of PrintCharsAsStringTo prints for s, after a character
      that was or was not a hex escape. */
  function Body(s: seq<Byte>, isPreviousHex: bool): string {
    if s == [] then ""
    else Piece(isPreviousHex, s[0]) + Body(s[1..], IsHex(s[0]))
  }

  function Printed(s: seq<Byte>): string {
    "\"" + Body(s, false) + "\""
  }

  function Break(isPreviousHex: bool, c: Byte): string {
    if isPreviousHex && IsXDigit(c) then "\" \"" else ""
  }

  /** What one character adds to what has been printed. */
  function Piece(isPreviousHex: bool, c: Byte): string {
    Break(isPreviousHex, c) + Text(c)
  }

  /** A break is two double quotes with a space between them, where a hexadecimal
      digit would be read as part of the escape before it. */
  lemma BreakIs(isPreviousHex: bool, c: Byte)
    ensures Break(isPreviousHex, c)
      == if isPreviousHex && AsChar(c) in "0123456789ABCDEFabcdef" then ['"', ' ', '"'] else []
  {
  }

  /** Two bytes are printed as their spellings, with a break between them where
      one is due. */
  lemma TwoBytes(c: Byte, x: Byte)
    ensures Printed([c, x]) == "\"" + (Text(c) + (Break(IsHex(c), x) + Text(x))) + "\""
  {
    assert [c, x][1..] == [x] && [x][1..] == [];
    assert Body([x], IsHex(c)) == Break(IsHex(c), x) + Text(x);
    assert Body([c, x], false) == Text(c) + Body([x], IsHex(c));
  }

  /** A longer string is printed as its parts are, up to a break between them. */
  lemma {:induction false} BodyInParts(a: seq<Byte>, b: seq<Byte>, isPreviousHex: bool)
    ensures Body(a + b, isPreviousHex)
      == Body(a, isPreviousHex) + Body(b, if a == [] then isPreviousHex else IsHex(a[|a| - 1]))
  {
    if a == [] {
      assert a + b == b;
    } else {
      assert (a + b)[1..] == a[1..] + b;
      BodyInParts(a[1..], b, IsHex(a[0]));
    }
  }

  lemma Extend(printed: string, s: seq<Byte>, index: nat, isPreviousHex: bool)
    requires index < |s|
    ensures printed + Body(s[index..], isPreviousHex)
      == printed + Piece(isPreviousHex, s[index]) + Body(s[index + 1..], IsHex(s[index]))
  {
    assert s[index..][1..] == s[index + 1..];
  }

  /** The body of the loop, printing s[index] behind what has been printed. */
  method PrintPiece(s: seq<Byte>, index: nat, isPreviousHex: bool, stream: string,
                    ghost before: string, ghost printed: string)
    returns (out: string, isHex: bool, ghost printed': string)
    requires index < |s| && stream == before + printed
    ensures out == before + printed'
    ensures printed' + Body(s[index + 1..], isHex) == printed + Body(s[index..], isPreviousHex)
  {
    var cur := s[index];
    Extend(printed, s, index, isPreviousHex);
    printed' := printed + Piece(isPreviousHex, cur);
    out := stream;
    if isPreviousHex && IsXDigit(cur) {
      out := out + "\" \"";
    }
    var (text, format) := PrintAsStringLiteral(cur);
    out := out + text;
    isHex := format == HexEscape;
  }

  lemma Quoted(stream: string, body: string)
    ensures stream + "\"" + body + "\"" == stream + ("\"" + body + "\"")
  {
  }

  method PrintCharsAsStringTo(s: seq<Byte>, stream: string) returns (out: string)
    ensures out == stream + Printed(s)
  {
    out := stream + "\"";
    ghost var before, printed := out, "";
    var isPreviousHex := false;
    var index := 0;
    ghost var body := Body(s, false);
    assert s[0..] == s && printed + body == body;
    while index < |s|
      invariant 0 <= index <= |s|
      invariant out == before + printed
      invariant printed + Body(s[index..], isPreviousHex) == body
    {
      out, isPreviousHex, printed := PrintPiece(s, index, isPreviousHex, out, before, printed);
      index := index + 1;
    }
    assert s[index..] == [] && printed + "" == printed;
    out := out + "\"";
    Quoted(stream, body);
  }

  // ----- Reading C string literals ------------------------------------------

  function HexValue(ch: char): Option<nat> {
    if '0' <= ch <= '9' then Some((ch - '0') as nat)
    else if 'A' <= ch <= 'F' then Some((ch - 'A') as nat + 10)
    else if 'a' <= ch <= 'f' then Some((ch - 'a') as nat + 10)
    else None
  }

  predicate IsOctal(ch: char) { '0' <= ch <= '7' }

  /** The hexadecimal digits at the head of t: a hex escape takes them all. */
  function HexRun(t: string): nat
    ensures HexRun(t) <= |t|
  {
    if t == "" || HexValue(t[0]) == None then 0 else 1 + HexRun(t[1..])
  }

  function HexNumber(t: string): nat {
    if t == "" then 0
    else
      match HexValue(t[|t| - 1])
      case None => 0
      case Some(d) => 16 * HexNumber(t[..|t| - 1]) + d
  }

  /** An octal escape takes up to three digits. */
  function OctalRun(t: string): nat
    ensures OctalRun(t) <= |t| && OctalRun(t) <= 3
  {
    if t == "" || !IsOctal(t[0]) then 0
    else if |t| == 1 || !IsOctal(t[1]) then 1
    else if |t| == 2 || !IsOctal(t[2]) then 2
    else 3
  }

  function OctalNumber(t: string): nat {
    if t == "" then 0
    else if !IsOctal(t[|t| - 1]) then 0
    else 8 * OctalNumber(t[..|t| - 1]) + (t[|t| - 1] - '0') as nat
  }

  function SimpleEscape(ch: char): Option<Byte> {
    match ch
    case '\'' => Some(0x27)
    case '"' => Some(0x22)
    case '?' => Some(0x3F)
    case '\\' => Some(0x5C)
    case 'a' => Some(7)
    case 'b' => Some(8)
    case 'f' => Some(12)
    case 'n' => Some(10)
    case 'r' => Some(13)
    case 't' => Some(9)
    case 'v' => Some(11)
    case _ => None
  }

  /** The character at the head of t and its length, by sections 6.4.4.4 and
      6.4.5 of ISO/IEC 9899:1999; t does not start with a quote. */
  function ReadChar(t: string): Option<(Byte, nat)>
    ensures ReadChar(t).Some? ==> 1 <= ReadChar(t).value.1 <= |t|
  {
    if t == "" || t[0] == '"' || t[0] == '\n' then None
    else if t[0] != '\\' then
      if t[0] as int < 256 then Some(((t[0] as int) as Byte, 1)) else None
    else if |t| == 1 then None
    else if IsOctal(t[1]) then
      var k := OctalRun(t[1..]);
      var n := OctalNumber(t[1..1 + k]);
      if n < 256 then Some((n as Byte, 1 + k)) else None
    else if t[1] == 'x' then
      var k := HexRun(t[2..]);
      var n := HexNumber(t[2..2 + k]);
      if k > 0 && n < 256 then Some((n as Byte, 2 + k)) else None
    else
      match SimpleEscape(t[1])
      case None => None
      case Some(b) => Some((b, 2))
  }

  /** The spaces at the head of t. */
  function Spaces(t: string): nat
    ensures Spaces(t) <= |t|
  {
    if t == "" || t[0] != ' ' then 0 else 1 + Spaces(t[1..])
  }

  /** The rest of a literal whose opening quote has been read, and the literals
      next to it, which are one string with it. */
  function ReadRest(t: string): Option<seq<Byte>>
    decreases |t|
  {
    if t == "" then None
    else if t[0] == '"' then
      var u := t[1 + Spaces(t[1..])..];
      if u == "" then Some([])
      else if u[0] == '"' then ReadRest(u[1..])
      else None
    else
      match ReadChar(t)
      case None => None
      case Some((b, n)) =>
        match ReadRest(t[n..])
        case None => None
        case Some(rest) => Some([b] + rest)
  }

  function ReadLiterals(t: string): Option<seq<Byte>> {
    if t != "" && t[0] == '"' then ReadRest(t[1..]) else None
  }

  // ----- Reading what was printed -------------------------------------------

  lemma HexDigitValue(d: nat)
    requires d < 16
    ensures HexValue(HexDigit(d)) == Some(d)
  {
  }

  /** The digits of a byte are read as its value, and no more than them. */
  lemma HexDigits(n: nat, t: string)
    requires n < 256 && HexRun(t) == 0
    ensures HexRun(HexUpper(n) + t) == |HexUpper(n)| && HexNumber(HexUpper(n)) == n
  {
    var digits := HexUpper(n);
    if n < 16 {
      HexDigitValue(n);
      assert (digits + t)[1..] == t;
      assert digits[..0] == "";
    } else {
      var a, b := HexDigit(n / 16), HexDigit(n % 16);
      HexDigitValue(n / 16);
      HexDigitValue(n % 16);
      assert HexUpper(n / 16) == [a];
      assert digits == [a] + [b];
      assert (digits + t)[1..] == [b] + t && ([b] + t)[1..] == t;
      assert digits[..1] == [a] && [a][..0] == "";
      assert HexNumber([a]) == n / 16;
    }
  }

  /** A hex escape is read as its byte if no hexadecimal digit follows. */
  lemma ReadHex(c: Byte, t: string)
    requires IsHex(c) && HexRun(t) == 0
    ensures ReadChar(Text(c) + t) == Some((c, |Text(c)|))
  {
    var digits := HexUpper(c as nat);
    var u := Text(c) + t;
    HexDigits(c as nat, t);
    var v := digits + t;
    assert u == "\\x" + v by { Associative("\\x", digits, t); }
    assert u[2..] == v && v[..|digits|] == digits;
    assert u[2..2 + |digits|] == v[..|digits|];
  }

  /** Everything else is read as its byte, unless it is a NUL that an octal
      digit follows. */
  lemma ReadOther(c: Byte, t: string)
    requires !IsHex(c) && (c == 0 ==> OctalRun(t) == 0)
    ensures ReadChar(Text(c) + t) == Some((c, |Text(c)|))
  {
    var u := Text(c) + t;
    if c == 0 {
      assert u[1..] == "0" + t;
      assert u[1..2] == "0" && "0"[..0] == "";
    }
  }

  predicate IsOctalByte(c: Byte) { 0x30 <= c <= 0x37 }

  /** No NUL is directly followed by an octal digit. */
  predicate NoNulBeforeOctal(s: seq<Byte>) {
    forall i :: 0 <= i < |s| - 1 ==> !(s[i] == 0 && IsOctalByte(s[i + 1]))
  }

  /** What follows a character in the printed text. */
  function Rest(s: seq<Byte>, isPreviousHex: bool): string {
    Body(s, isPreviousHex) + "\""
  }

  lemma RestStep(s: seq<Byte>, isPreviousHex: bool)
    requires s != []
    ensures Rest(s, isPreviousHex) == Break(isPreviousHex, s[0]) + (Text(s[0]) + Rest(s[1..], IsHex(s[0])))
  {
  }

  /** A literal break is there exactly to keep a hex escape from taking in the
      next character. */
  lemma RestHead(s: seq<Byte>, isPreviousHex: bool)
    ensures isPreviousHex ==> HexRun(Rest(s, isPreviousHex)) == 0
    ensures !isPreviousHex ==> (OctalRun(Rest(s, isPreviousHex)) == 0 <==> s == [] || !IsOctalByte(s[0]))
  {
    if s != [] {
      RestStep(s, isPreviousHex);
    }
  }

  lemma BreakIsSkipped(s: seq<Byte>, isPreviousHex: bool)
    requires s != []
    ensures ReadRest(Rest(s, isPreviousHex)) == ReadRest(Text(s[0]) + Rest(s[1..], IsHex(s[0])))
  {
    RestStep(s, isPreviousHex);
    var t := Text(s[0]) + Rest(s[1..], IsHex(s[0]));
    if isPreviousHex && IsXDigit(s[0]) {
      SkipBreak(t);
    } else {
      assert Rest(s, isPreviousHex) == "" + t == t;
    }
  }

  lemma SkipBreak(t: string)
    ensures ReadRest("\" \"" + t) == ReadRest(t)
  {
    var u := "\" \"" + t;
    assert u[1..] == " " + ("\"" + t);
    assert (" " + ("\"" + t))[1..] == "\"" + t;
    assert Spaces("\"" + t) == 0;
    assert Spaces(u[1..]) == 1;
    assert u[2..] == "\"" + t && ("\"" + t)[1..] == t;
  }

  lemma TextIsNoQuote(c: Byte)
    ensures Text(c) != "" && Text(c)[0] != '"'
  {
  }

  function Cons(c: Byte, rest: Option<seq<Byte>>): Option<seq<Byte>> {
    match rest
    case None => None
    case Some(s) => Some([c] + s)
  }

  lemma ReadRestCons(b: Byte, c: Byte, t: string)
    requires ReadChar(Text(c) + t) == Some((b, |Text(c)|))
    ensures ReadRest(Text(c) + t) == Cons(b, ReadRest(t))
  {
    TextIsNoQuote(c);
    assert (Text(c) + t)[|Text(c)|..] == t;
  }

  /** One character is read back, unless it is a NUL before an octal digit. */
  lemma ReadRestStep(s: seq<Byte>, isPreviousHex: bool)
    requires s != [] && !(s[0] == 0 && |s| > 1 && IsOctalByte(s[1]))
    ensures ReadRest(Rest(s, isPreviousHex)) == Cons(s[0], ReadRest(Rest(s[1..], IsHex(s[0]))))
  {
    var c, t := s[0], Rest(s[1..], IsHex(s[0]));
    BreakIsSkipped(s, isPreviousHex);
    RestHead(s[1..], IsHex(c));
    if IsHex(c) { ReadHex(c, t); } else { ReadOther(c, t); }
    ReadRestCons(c, c, t);
  }

  lemma {:induction false} ReadsBack(s: seq<Byte>, isPreviousHex: bool)
    requires NoNulBeforeOctal(s)
    ensures ReadRest(Rest(s, isPreviousHex)) == Some(s)
    decreases |s|
  {
    if s != [] {
      ReadRestStep(s, isPreviousHex);
      ReadsBack(s[1..], IsHex(s[0]));
      assert s == [s[0]] + s[1..];
    }
  }

  /** How many of the digits at the head of s a "\0" in front takes in. */
  function Absorbed(s: seq<Byte>): (k: nat)
    ensures k <= |s| && k <= 2
  {
    if s == [] || !IsOctalByte(s[0]) then 0
    else if |s| == 1 || !IsOctalByte(s[1]) then 1
    else 2
  }

  lemma OctalText(c: Byte)
    ensures IsOctalByte(c) ==> Text(c) == [AsChar(c)] && !IsHex(c) && IsOctal(AsChar(c))
    ensures !IsOctalByte(c) ==> !IsOctal(Text(c)[0])
  {
    TextIsNoQuote(c);
  }

  lemma OctalHead(s: seq<Byte>)
    requires s != []
    ensures var r := Rest(s, false);
      && r != "" && (IsOctal(r[0]) <==> IsOctalByte(s[0]))
      && (IsOctalByte(s[0]) ==> r[0] == AsChar(s[0]) && r[1..] == Rest(s[1..], false))
  {
    RestStep(s, false);
    OctalText(s[0]);
    TextIsNoQuote(s[0]);
    assert Break(false, s[0]) == "";
    var text, rest := Text(s[0]), Rest(s[1..], IsHex(s[0]));
    assert "" + (text + rest) == text + rest;
    if IsOctalByte(s[0]) { assert (text + rest)[1..] == rest; }
  }

  /** The octal digits at the head of s, at most two. */
  lemma OctalRunOfRest(s: seq<Byte>)
    ensures OctalRun("0" + Rest(s, false)) == 1 + Absorbed(s)
    ensures Rest(s, false)[Absorbed(s)..] == Rest(s[Absorbed(s)..], false)
  {
    var r := Rest(s, false);
    var t := "0" + r;
    assert t[0] == '0' && forall i :: 0 <= i < |r| ==> t[i + 1] == r[i];
    if s == [] {
      assert r == "\"";
    } else {
      OctalHead(s);
      if IsOctalByte(s[0]) { SecondOctal(s); }
    }
  }

  lemma SecondOctal(s: seq<Byte>)
    requires s != [] && IsOctalByte(s[0])
    ensures var r := Rest(s, false);
      && |r| >= 2 && (IsOctal(r[1]) <==> Absorbed(s) == 2)
      && r[Absorbed(s)..] == Rest(s[Absorbed(s)..], false)
  {
    var r, u := Rest(s, false), Rest(s[1..], false);
    OctalHead(s);
    assert r[1..] == u;
    if |s| == 1 {
      assert s[1..] == [] && u == "\"";
    } else {
      OctalHead(s[1..]);
      assert u[0] == r[1] && s[1..][1..] == s[2..];
      if IsOctalByte(s[1]) { assert r[2..] == u[1..]; }
    }
  }

  lemma OctalNumberSmall(t: string)
    requires |t| <= 3 && t != "" && t[0] == '0'
    ensures OctalNumber(t) < 64
  {
    assert [t[0]][..0] == "" && OctalNumber([t[0]]) == 0;
    if |t| == 3 {
      assert t[..2][..1] == [t[0]];
      assert OctalNumber(t[..2]) < 8;
    } else if |t| == 2 {
      assert t[..1] == [t[0]];
    } else {
      assert t == [t[0]];
    }
  }

  /** A NUL takes in the octal digits behind it, up to two. */
  lemma SkipOne(c: char, d: char, r: string)
    ensures [c, d] + r == [c] + ([d] + r) && ([c, d] + r)[1..] == [d] + r
  {
  }

  lemma ReadNul(s: seq<Byte>)
    ensures var k := Absorbed(s);
            && ReadChar("\\0" + Rest(s, false)).Some?
            && ReadChar("\\0" + Rest(s, false)).value.1 == 2 + k
            && ("\\0" + Rest(s, false))[2 + k..] == Rest(s[k..], false)
  {
    var k, r := Absorbed(s), Rest(s, false);
    OctalRunOfRest(s);
    var u := "\\0" + r;
    SkipOne('\\', '0', r);
    OctalNumberSmall(u[1..2 + k]);
    assert u[2 + k..] == r[k..];
  }

  /** What is read is never longer than what was printed, and shorter if some
      NUL is directly followed by an octal digit. */
  lemma {:induction false} ReadsNoMore(s: seq<Byte>, isPreviousHex: bool)
    ensures var r := ReadRest(Rest(s, isPreviousHex));
            r.Some? && |r.value| <= |s| && (|r.value| == |s| ==> NoNulBeforeOctal(s))
    decreases |s|
  {
    if s == [] {
    } else if s[0] == 0 && |s| > 1 && IsOctalByte(s[1]) {
      var k := Absorbed(s[1..]);
      BreakIsSkipped(s, isPreviousHex);
      ReadNul(s[1..]);
      ReadsNoMore(s[1 + k..], false);
      assert s[1..][k..] == s[1 + k..];
    } else {
      ReadRestStep(s, isPreviousHex);
      ReadsNoMore(s[1..], IsHex(s[0]));
      assert forall i :: 1 <= i < |s| ==> s[i] == s[1..][i - 1];
    }
  }

  /** Reading what was printed gives back the bytes exactly if no NUL among
      them is directly followed by an octal digit. */
  lemma PrintedReadsBackIff(s: seq<Byte>)
    ensures ReadLiterals(Printed(s)) == Some(s) <==> NoNulBeforeOctal(s)
  {
    assert Printed(s)[1..] == Rest(s, false);
    ReadsNoMore(s, false);
    if NoNulBeforeOctal(s) { ReadsBack(s, false); }
  }

  /** For instance, a NUL and a '1' are read as the one byte with value 1. */
  lemma NulBeforeOctalExample()
    ensures ReadLiterals(Printed([0, 0x31])) != Some([0, 0x31])
  {
    PrintedReadsBackIff([0, 0x31]);
    var s: seq<Byte> := [0, 0x31];
    assert s[0] == 0 && IsOctalByte(s[1]);
  }

  /** Without the literal break, a hex escape and the character behind it are
      read back exactly if that is no hexadecimal digit. */
  lemma BreakNeededIffHexDigit(c: Byte, x: Byte)
    requires IsHex(c)
    ensures ReadRest(Text(c) + Text(x) + "\"") == Some([c, x]) <==> !IsXDigit(x)
  {
    var t := Text(x) + "\"";
    assert Text(c) + Text(x) + "\"" == Text(c) + t;
    if IsXDigit(x) {
      HexRunAbsorbs(c, x);
    } else {
      ReadsWithoutBreak(c, x);
    }
  }

  lemma ReadsWithoutBreak(c: Byte, x: Byte)
    requires IsHex(c) && !IsXDigit(x)
    ensures ReadRest(Text(c) + (Text(x) + "\"")) == Some([c, x])
  {
    var t := Text(x) + "\"";
    TextIsNoQuote(x);
    assert HexRun(t) == 0;
    ReadHex(c, t);
    ReadRestCons(c, c, t);
    if IsHex(x) { ReadHex(x, "\""); } else { ReadOther(x, "\""); }
    ReadRestCons(x, x, "\"");
    assert ReadRest("\"") == Some([]);
    assert [c] + ([x] + []) == [c, x];
  }

  lemma {:induction false} HexUpperDigits(n: nat)
    ensures forall i :: 0 <= i < |HexUpper(n)| ==> HexValue(HexUpper(n)[i]).Some?
  {
    HexDigitValue(n % 16);
    if n >= 16 { HexUpperDigits(n / 16); }
  }

  lemma HexRunAbsorbs(c: Byte, x: Byte)
    requires IsHex(c) && IsXDigit(x)
    ensures ReadRest(Text(c) + (Text(x) + "\"")) != Some([c, x])
  {
    var u := Text(c) + (Text(x) + "\"");
    var digits := HexUpper(c as nat);
    assert Text(x) == [AsChar(x)] && HexValue(AsChar(x)).Some?;
    var all := digits + [AsChar(x)];
    assert u[2..] == all + "\"";
    HexUpperDigits(c as nat);
    HexRunAll(all, "\"");
    assert u[2 + |all|..] == "\"";
    assert ReadRest("\"") == Some([]);
    assert ReadChar(u).Some? ==> ReadChar(u).value.1 == 2 + |all|;
  }

  lemma {:induction false} HexRunAll(digits: string, t: string)
    requires forall i :: 0 <= i < |digits| ==> HexValue(digits[i]).Some?
    requires HexRun(t) == 0
    ensures HexRun(digits + t) == |digits|
  {
    if digits == "" {
      assert digits + t == t;
    } else {
      HexRunAll(digits[1..], t);
      assert (digits + t)[1..] == digits[1..] + t;
    }
  }
}
