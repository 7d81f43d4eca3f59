/**
  The head of an HTTP request: its lines are read one by one while counting
  bytes, to find where the body starts.
 */
module RequestHead {
  import opened Basics
  import opened CStrings

  // ----- Lines --------------------------------------------------------------

  /** The lines std::getline reads; the last one may lack its line feed. */
  function Lines(data: string): (r: seq<string>)
    decreases |data|
  {
    if data == "" then []
    else
      match StrChr(data, '\n')
      case None => [data]
      case Some(k) => [data[..k]] + Lines(data[k + 1..])
  }

  predicate HasCr(line: string) {
    line != "" && line[|line| - 1] == '\r'
  }

  function StripCr(line: string): string {
    if HasCr(line) then line[..|line| - 1] else line
  }

  function Stripped(lines: seq<string>): (r: seq<string>)
    ensures |r| == |lines| && forall k :: 0 <= k < |r| ==> r[k] == StripCr(lines[k])
  {
    seq(|lines|, k requires 0 <= k < |lines| => StripCr(lines[k]))
  }

  /** The bytes the first n lines take up, with one line feed each. */
  function Consumed(lines: seq<string>, n: nat): nat
    requires n <= |lines|
  {
    if n == 0 then 0 else Consumed(lines, n - 1) + |lines[n - 1]| + 1
  }

  /** How many of the first n lines have a CR to strip. */
  function Crs(lines: seq<string>, n: nat): nat
    requires n <= |lines|
  {
    if n == 0 then 0 else Crs(lines, n - 1) + if HasCr(lines[n - 1]) then 1 else 0
  }

  /** The first n lines, with one line feed each. */
  function Joined(lines: seq<string>, n: nat): string
    requires n <= |lines|
  {
    if n == 0 then "" else Joined(lines, n - 1) + lines[n - 1] + ['\n']
  }

  lemma {:induction false} StrippingShrinks(lines: seq<string>, n: nat)
    requires n <= |lines|
    ensures Consumed(Stripped(lines), n) == Consumed(lines, n) - Crs(lines, n)
  {
    if n > 0 { StrippingShrinks(lines, n - 1); }
  }

  lemma {:induction false} JoinedLength(lines: seq<string>, n: nat)
    requires n <= |lines|
    ensures |Joined(lines, n)| == Consumed(lines, n)
  {
    if n > 0 { JoinedLength(lines, n - 1); }
  }

  lemma {:induction false} ConsumedShift(line: string, rest: seq<string>, n: nat)
    requires 1 <= n <= |rest| + 1
    ensures Consumed([line] + rest, n) == |line| + 1 + Consumed(rest, n - 1)
    ensures Joined([line] + rest, n) == line + ['\n'] + Joined(rest, n - 1)
  {
    if n > 1 {
      ConsumedShift(line, rest, n - 1);
      assert ([line] + rest)[n - 1] == rest[n - 2];
      assert line + ['\n'] + (Joined(rest, n - 2) + rest[n - 2] + ['\n'])
        == line + ['\n'] + Joined(rest, n - 2) + rest[n - 2] + ['\n'];
    } else {
      assert Joined([line] + rest, 1) == "" + line + ['\n'] == line + ['\n'] + "";
    }
  }

  /** The lines hold no line feeds. */
  lemma {:induction false} LinesHoldNoFeed(data: string)
    ensures forall line :: line in Lines(data) ==> '\n' !in line
    decreases |data|
  {
    if data != "" {
      match StrChr(data, '\n')
      case None =>
      case Some(k) => LinesHoldNoFeed(data[k + 1..]);
    }
  }

  /** One CR is stripped from the end, and nothing else. */
  lemma StripCrIs(line: string)
    ensures StripCr(line + ['\r']) == line
    ensures line == "" || line[|line| - 1] != '\r' ==> StripCr(line) == line
  {
  }

  lemma CutAt(data: string, k: nat)
    requires k < |data| && data[k] == '\n'
    ensures data == data[..k] + ['\n'] + data[k + 1..]
  {
  }

  lemma ReadOneLine(data: string, k: nat)
    requires StrChr(data, '\n') == Some(k)
    ensures k < |data|
    ensures Lines(data) == [data[..k]] + Lines(data[k + 1..])
    ensures data == data[..k] + ['\n'] + data[k + 1..]
  {
    CutAt(data, k);
  }

  lemma Prepend(line: string, rest: string, joined: string)
    requires joined <= rest
    ensures line + ['\n'] + joined <= line + ['\n'] + rest
  {
    assert line + ['\n'] + rest == line + ['\n'] + joined + rest[|joined|..];
  }

  /** The first n lines are read from the front of the data; or they are all
      lines, and the last one, which is not empty, lacks its line feed. */
  ghost predicate ReadFrom(data: string, n: nat)
    requires n <= |Lines(data)|
  {
    var read := Consumed(Lines(data), n);
    if read <= |data| then Joined(Lines(data), n) <= data
    else read == |data| + 1 && n == |Lines(data)| && n > 0 && Lines(data)[n - 1] != ""
  }

  lemma ReadLastLine(data: string)
    requires data != "" && StrChr(data, '\n') == None
    ensures |Lines(data)| == 1 && ReadFrom(data, 1)
  {
    assert Consumed([data], 1) == Consumed([data], 0) + |data| + 1;
  }

  lemma ReadNextLine(data: string, k: nat, n: nat)
    requires StrChr(data, '\n') == Some(k) && k < |data|
    requires n <= |Lines(data[k + 1..])| && ReadFrom(data[k + 1..], n)
    ensures |Lines(data)| == |Lines(data[k + 1..])| + 1 && ReadFrom(data, n + 1)
  {
    var line, rest := data[..k], data[k + 1..];
    ReadOneLine(data, k);
    ConsumedShift(line, Lines(rest), n + 1);
    if Consumed(Lines(rest), n) <= |rest| {
      Prepend(line, rest, Joined(Lines(rest), n));
    }
  }

  lemma {:induction false} LinesMakeUpData(data: string, n: nat)
    requires n <= |Lines(data)|
    ensures ReadFrom(data, n)
    decreases |data|
  {
    if n > 0 {
      match StrChr(data, '\n')
      case None => ReadLastLine(data);
      case Some(k) =>
        ReadOneLine(data, k);
        LinesMakeUpData(data[k + 1..], n - 1);
        ReadNextLine(data, k, n - 1);
    }
  }

  // ----- Header fields ------------------------------------------------------

  /** The name and the value around the first ':'; a line without one is taken
      whole, as both. */
  function Field(line: string): (string, string) {
    match StrChr(line, ':')
    case None => (line, line)
    case Some(k) => (line[..k], line[k + 1..])
  }

  /** The header fields of the first n lines; a later one replaces an earlier
      one of the same name. */
  function Header(lines: seq<string>, n: nat, trim: string -> string): map<string, string>
    requires n <= |lines|
  {
    if n == 0 then map[]
    else
      var (name, value) := Field(lines[n - 1]);
      Header(lines, n - 1, trim)[trim(name) := trim(value)]
  }

  /** The line is a field of this name and value: they stand before and behind
      its first ':', or it has none, and is both. */
  ghost predicate IsField(line: string, name: string, value: string) {
    ':' !in name && (line == name + [':'] + value || (line == name && value == name))
  }

  lemma FieldIs(line: string, name: string, value: string)
    ensures IsField(line, name, value) <==> Field(line) == (name, value)
  {
    if IsField(line, name, value) && line == name + [':'] + value {
      ColonAt(name, value);
      assert line[..|name|] == name && line[|name| + 1..] == value;
    }
    match StrChr(line, ':')
    case None =>
    case Some(k) => assert line == line[..k] + [':'] + line[k + 1..];
  }

  lemma ColonAt(name: string, value: string)
    requires ':' !in name
    ensures StrChr(name + [':'] + value, ':') == Some(|name|)
  {
    var line := name + [':'] + value;
    assert line[|name|] == ':';
    var k := StrChr(line, ':').value;
    assert k >= |name| by { assert forall i :: 0 <= i < |name| ==> line[i] == name[i]; }
    assert k <= |name| by { assert forall m :: |name| < m <= |line| ==> line[..m][|name|] == ':'; }
  }

  /** The last of the lines with a name gives it its value. */
  lemma {:induction false} HeaderAt(lines: seq<string>, n: nat, k: nat, trim: string -> string)
    requires k < n <= |lines|
    requires forall j :: k < j < n ==> trim(Field(lines[j]).0) != trim(Field(lines[k]).0)
    ensures var key := trim(Field(lines[k]).0);
      key in Header(lines, n, trim) && Header(lines, n, trim)[key] == trim(Field(lines[k]).1)
  {
    if k < n - 1 { HeaderAt(lines, n - 1, k, trim); }
  }

  lemma {:induction false} HeaderKey(lines: seq<string>, n: nat, trim: string -> string, key: string) returns (k: nat)
    requires n <= |lines| && key in Header(lines, n, trim)
    ensures k < n && trim(Field(lines[k]).0) == key
  {
    if key == trim(Field(lines[n - 1]).0) {
      k := n - 1;
    } else {
      k := HeaderKey(lines, n - 1, trim, key);
    }
  }

  /** Line k is a field, and none of the lines behind it, up to line b, has the
      same name. */
  ghost predicate LastOfName(lines: seq<string>, k: nat, b: nat, name: string, value: string, trim: string -> string)
    requires b <= |lines|
  {
    && k < b && IsField(lines[k], name, value)
    && forall j, other, v :: k < j < b && IsField(lines[j], other, v) ==> trim(other) != trim(name)
  }

  /** Behind the request line, up to the blank line b, the last field of each
      name is what the header holds; any other name is as it was before. */
  ghost predicate HoldsFields(header: map<string, string>, before: map<string, string>, lines: seq<string>, b: nat,
                              trim: string -> string)
    requires b <= |lines|
  {
    && (forall k: nat, name, value :: 1 <= k && LastOfName(lines, k, b, name, value, trim) ==>
          trim(name) in header && header[trim(name)] == trim(value))
    && (forall key :: key in before ==> key in header)
    && forall key :: key in header ==>
         || (key in before && header[key] == before[key])
         || exists k: nat, name, value :: 1 <= k < b && IsField(lines[k], name, value) && key == trim(name)
  }

  /** The header and the body that the head leaves: before is the header there
      was, and the lines go beyond the first blank one. */
  ghost predicate HeadIsRead(header: map<string, string>, body: string, before: map<string, string>,
                             data: string, lines: seq<string>, trim: string -> string)
    requires HasBlank(lines)
  {
    var b := FirstBlank(lines);
    && header == before + Header(lines[1..], b - 1, trim)
    && HoldsFields(header, before, lines, b, trim)
    && Consumed(lines, b + 1) <= |data| && body == data[Consumed(lines, b + 1)..]
  }

  lemma HeaderHolds(before: map<string, string>, lines: seq<string>, b: nat, trim: string -> string)
    requires 1 <= b <= |lines|
    ensures HoldsFields(before + Header(lines[1..], b - 1, trim), before, lines, b, trim)
  {
    var fields, added := lines[1..], Header(lines[1..], b - 1, trim);
    forall k: nat, name, value | 1 <= k && LastOfName(lines, k, b, name, value, trim)
      ensures trim(name) in added && added[trim(name)] == trim(value)
    {
      FieldIs(lines[k], name, value);
      forall j | k - 1 < j < b - 1
        ensures trim(Field(fields[j]).0) != trim(name)
      {
        FieldIs(lines[j + 1], Field(lines[j + 1]).0, Field(lines[j + 1]).1);
      }
      HeaderAt(fields, b - 1, k - 1, trim);
    }
    forall key | key in added
      ensures exists k: nat, name, value :: 1 <= k < b && IsField(lines[k], name, value) && key == trim(name)
    {
      var k := HeaderKey(fields, b - 1, trim, key);
      FieldIs(lines[k + 1], Field(lines[k + 1]).0, Field(lines[k + 1]).1);
    }
  }

  // ----- The parser ---------------------------------------------------------

  /** Line b is the first blank line behind the request line. */
  ghost predicate IsFirstBlank(lines: seq<string>, b: nat) {
    1 <= b < |lines| && lines[b] == "" && forall k :: 1 <= k < b ==> lines[k] != ""
  }

  ghost predicate HasBlank(lines: seq<string>) {
    exists b :: 1 <= b < |lines| && lines[b] == ""
  }

  /** The first blank line behind the request line, from line i on. */
  ghost function FirstBlankFrom(lines: seq<string>, i: nat): (b: nat)
    requires exists k :: i <= k < |lines| && lines[k] == ""
    ensures i <= b < |lines| && lines[b] == "" && forall k :: i <= k < b ==> lines[k] != ""
    decreases |lines| - i
  {
    if lines[i] == "" then i else FirstBlankFrom(lines, i + 1)
  }

  ghost function FirstBlank(lines: seq<string>): (b: nat)
    requires HasBlank(lines)
    ensures IsFirstBlank(lines, b)
  {
    FirstBlankFrom(lines, 1)
  }

  lemma SomeLine(data: string)
    requires data != ""
    ensures |Lines(data)| > 0
  {
  }

  lemma HeaderGrows(start: map<string, string>, fields: seq<string>, n: nat, trim: string -> string)
    requires 0 < n <= |fields|
    ensures var (name, value) := Field(fields[n - 1]);
      (start + Header(fields, n - 1, trim))[trim(name) := trim(value)] == start + Header(fields, n, trim)
  {
  }

  /** The count never runs past the end of the data. */
  lemma BodyIsInData(data: string, b: nat)
    requires b < |Lines(data)| && StripCr(Lines(data)[b]) == ""
    ensures Consumed(Stripped(Lines(data)), b + 1) <= |data|
  {
    StrippingShrinks(Lines(data), b + 1);
    LinesMakeUpData(data, b + 1);
    if Consumed(Lines(data), b + 1) == |data| + 1 {
      assert HasCr(Lines(data)[b]);
    }
  }

  lemma BodyIsBehindHead(data: string, lines: seq<string>)
    requires lines == Stripped(Lines(data)) && HasBlank(lines)
    ensures Consumed(lines, FirstBlank(lines) + 1) <= |data|
  {
    var b := FirstBlank(lines);
    assert StripCr(Lines(data)[b]) == lines[b];
    BodyIsInData(data, b);
  }

  /** std::getline on a stream that is not at its end. */
  method GetLine(stream: string) returns (line: string, rest: string)
    requires stream != ""
    ensures Lines(stream) == [line] + Lines(rest) && |rest| < |stream|
  {
    var end := StrChr(stream, '\n');
    if end == None {
      line, rest := stream, "";
    } else {
      line, rest := stream[..end.value], stream[end.value + 1..];
    }
  }

  class Request {
    const data: string
    var header: map<string, string>
    var body: string

    constructor (data: string)
      ensures this.data == data && header == map[] && body == ""
    {
      this.data, header, body := data, map[], "";
    }

    /** The first loop of parse(): reads lines and strips CRs. */
    method ReadLines() returns (result: seq<string>)
      ensures result == Stripped(Lines(data))
    {
      result := [];
      var rest := data;
      ghost var read: seq<string> := [];
      while rest != ""
        invariant read + Lines(rest) == Lines(data)
        invariant result == Stripped(read)
        decreases |rest|
      {
        var line;
        ghost var lines := Lines(rest);
        line, rest := GetLine(rest);
        assert read + lines == read + [line] + Lines(rest);
        read := read + [line];
        if line != "" && line[|line| - 1] == '\r' {
          line := line[..|line| - 1];
        }
        result := result + [line];
      }
      assert read + [] == read;
    }

    /** One step of the second loop of parse(), up to the count. */
    method AddField(line: string, trim: string -> string)
      modifies this`header
      ensures header == old(header)[trim(Field(line).0) := trim(Field(line).1)]
    {
      var found := StrChr(line, ':');
      var headerName := if found == None then line else line[..found.value];
      var headerValue := if found == None then line else line[found.value + 1..];
      header := header[trim(headerName) := trim(headerValue)];
    }

    /** The second loop of parse(): reads the header fields up to the blank
        line and counts the bytes of the head. */
    method ReadFields(lines: seq<string>, trim: string -> string, ghost b: nat) returns (nbchar: nat)
      requires IsFirstBlank(lines, b)
      modifies this`header
      ensures nbchar == Consumed(lines, b + 1)
      ensures header == old(header) + Header(lines[1..], b - 1, trim)
    {
      var result := lines[1..];
      nbchar := |lines[0]| + 1;
      ghost var n := 1;
      ghost var fields := lines[1..];
      while result[0] != ""
        invariant 1 <= n <= b && result == lines[n..]
        invariant nbchar == Consumed(lines, n)
        invariant header == old(header) + Header(fields, n - 1, trim)
        decreases b - n
      {
        var line := result[0];
        AddField(line, trim);
        HeaderGrows(old(header), fields, n, trim);
        nbchar := nbchar + |line| + 1;
        result := result[1..];
        n := n + 1;
      }
      nbchar := nbchar + 1;
    }

    /** What parse() does behind the request line. */
    method ReadHead(lines: seq<string>, trim: string -> string)
      requires HasBlank(lines) && Consumed(lines, FirstBlank(lines) + 1) <= |data|
      modifies this`header, this`body
      ensures HeadIsRead(header, body, old(header), data, lines, trim)
    {
      HeaderHolds(header, lines, FirstBlank(lines), trim);
      var nbchar := ReadFields(lines, trim, FirstBlank(lines));
      body := data[nbchar..];
    }

    /** accepts stands for parse_init, which throws if it does not like the
        request line; behind a line it likes there has to be a blank one. */
    method Parse(accepts: string -> bool, trim: string -> string) returns (ok: bool)
      requires data != ""
      requires accepts(Stripped(Lines(data))[0]) ==> HasBlank(Stripped(Lines(data)))
      modifies this`header, this`body
      ensures ok <==> accepts(Stripped(Lines(data))[0])
      ensures !ok ==> header == old(header) && body == old(body)
      ensures ok ==>
          HasBlank(Stripped(Lines(data))) && HeadIsRead(header, body, old(header), data, Stripped(Lines(data)), trim)
    {
      var lines := ReadLines();
      SomeLine(data);
      ok := accepts(lines[0]);
      if ok {
        BodyIsBehindHead(data, lines);
        ReadHead(lines, trim);
      }
    }
  }

  // ----- Where the body starts ----------------------------------------------

  /** The index just behind the blank line. */
  function BodyStart(data: string, b: nat): (k: nat)
    requires b < |Lines(data)|
    ensures k <= |data|
  {
    var k := Consumed(Lines(data), b + 1);
    if k <= |data| then k else |data|
  }

  /** The count ends as the index behind the blank line, less the CRs that
      were stripped up to it. */
  lemma CountIsShortByCrs(data: string, b: nat)
    requires b < |Lines(data)|
    ensures Consumed(Stripped(Lines(data)), b + 1) == Consumed(Lines(data), b + 1) - Crs(Lines(data), b + 1)
  {
    StrippingShrinks(Lines(data), b + 1);
  }

  /** The body is what follows the blank line exactly if no CR was stripped; a
      blank line that ends the data without a line feed has one to spare. */
  lemma BodyRightIff(data: string, b: nat)
    requires IsFirstBlank(Stripped(Lines(data)), b)
    ensures var n := Consumed(Stripped(Lines(data)), b + 1);
      && n <= |data|
      && (data[n..] == data[BodyStart(data, b)..] <==>
          Crs(Lines(data), b + 1) == if Consumed(Lines(data), b + 1) <= |data| then 0 else 1)
  {
    BodyIsInData(data, b);
    CountIsShortByCrs(data, b);
    LinesMakeUpData(data, b + 1);
    var n := Consumed(Stripped(Lines(data)), b + 1);
    assert |data[n..]| == |data| - n && |data[BodyStart(data, b)..]| == |data| - BodyStart(data, b);
  }

  lemma CutBehind(data: string, head: string)
    requires head <= data
    ensures data == head + data[|head|..]
  {
  }

  lemma HeadIsPrefix(data: string, n: nat)
    requires n <= |Lines(data)| && Consumed(Lines(data), n) <= |data| && Crs(Lines(data), n) == 0
    ensures var lines := Stripped(Lines(data));
      && Joined(lines, n) <= data
      && |Joined(lines, n)| == Consumed(lines, n)
  {
    LinesMakeUpData(data, n);
    NoCrsStripped(Lines(data), n);
    JoinedLength(Stripped(Lines(data)), n);
  }

  /** With line feeds only, the head's lines and the body make up the data. */
  lemma LineFeedsRebuild(data: string, b: nat)
    requires IsFirstBlank(Stripped(Lines(data)), b) && Crs(Lines(data), b + 1) == 0
    ensures var lines := Stripped(Lines(data));
      var n := Consumed(lines, b + 1);
      n <= |data| && data == Joined(lines, b + 1) + data[n..]
  {
    BodyIsInData(data, b);
    StrippingShrinks(Lines(data), b + 1);
    HeadIsPrefix(data, b + 1);
    CutBehind(data, Joined(Stripped(Lines(data)), b + 1));
  }

  const CRLF: string := ['\r', '\n']

  /** Every request whose lines end in CRLF and that has no header fields gets
      a body that still starts with the blank line's CRLF. */
  lemma CrLfBody(init: string, body: string)
    requires '\n' !in init
    ensures var data := init + CRLF + (CRLF + body);
      var lines := Stripped(Lines(data));
      && IsFirstBlank(lines, 1)
      && Consumed(lines, 2) == |data| - |body| - 2
      && data[Consumed(lines, 2)..] == CRLF + body
  {
    var data := init + CRLF + (CRLF + body);
    CrLfLines(init, body);
    var lines := Stripped(Lines(data));
    assert lines[0] == init && lines[1] == "";
    assert Consumed(lines, 2) == Consumed(lines, 1) + 1 == |init| + 2;
    assert data[|init| + 2..] == CRLF + body;
  }

  lemma CrLfLines(init: string, body: string)
    requires '\n' !in init
    ensures Lines(init + CRLF + (CRLF + body)) == [init + ['\r'], ['\r']] + Lines(body)
  {
    FirstLine(init + ['\r'], CRLF + body);
    FirstLine(['\r'], body);
    assert init + CRLF == init + ['\r'] + ['\n'] && CRLF == ['\r'] + ['\n'];
    Associative([init + ['\r']], [['\r']], Lines(body));
  }

  lemma FirstLine(line: string, rest: string)
    requires '\n' !in line
    ensures Lines(line + ['\n'] + rest) == [line] + Lines(rest)
  {
    var data := line + ['\n'] + rest;
    assert data[|line|] == '\n';
    var k := StrChr(data, '\n').value;
    assert k >= |line| by { assert forall i :: 0 <= i < |line| ==> data[i] == line[i]; }
    assert k <= |line| by { assert forall m :: |line| < m <= |data| ==> data[..m][|line|] == '\n'; }
    ReadOneLine(data, k);
    assert data[..k] == line && data[k + 1..] == rest;
  }

  /** Such a request: its body is not "x". */
  lemma CrLfExample()
    ensures var data := "GET / HTTP/1.1" + CRLF + (CRLF + "x");
      var lines := Stripped(Lines(data));
      IsFirstBlank(lines, 1) && Consumed(lines, 2) == 16 && data[16..] == CRLF + "x" != "x"
  {
    CrLfBody("GET / HTTP/1.1", "x");
  }

  lemma {:induction false} NoCrsStripped(lines: seq<string>, n: nat)
    requires n <= |lines| && Crs(lines, n) == 0
    ensures Joined(Stripped(lines), n) == Joined(lines, n)
  {
    if n > 0 { NoCrsStripped(lines, n - 1); }
  }
}
