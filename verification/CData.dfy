/**
  Text written as XML CDATA sections, which "]]>" would end too early.
 */
module CData {
  import opened Basics
  import opened CStrings

  const CD_START := "<![CDATA["
  const CD_END := "]]>"
  const GREATER := "&gt;"
  const SPLIT := "]]>]]&gt;<![CDATA["

  predicate EndsAt(s: string, k: nat) {
    k + 3 <= |s| && s[k] == ']' && s[k + 1] == ']' && s[k + 2] == '>'
  }

  /** strstr(s, "]]>"): the first occurrence, if any. */
  function FindEnd(s: string): (r: Option<nat>)
    ensures r.Some? ==> EndsAt(s, r.value) && forall k :: 0 <= k < r.value ==> !EndsAt(s, k)
    ensures r.None? ==> forall k: nat :: !EndsAt(s, k)
  {
    if s == "" then None
    else if EndsAt(s, 0) then Some(0)
    else
      assert forall k: nat :: k > 0 && EndsAt(s, k) ==> EndsAt(s[1..], k - 1);
      assert forall k: nat :: EndsAt(s[1..], k) ==> EndsAt(s, k + 1);
      match FindEnd(s[1..])
      case None => None
      case Some(k) => Some(k + 1)
  }

  /** What is written between the first opening and the last closing. */
  function Escaped(data: string): string
    decreases |data|
  {
    match FindEnd(data)
    case None => data
    case Some(k) => data[..k] + (SPLIT + Escaped(data[k + 3..]))
  }

  function Section(data: string): string {
    CD_START + Escaped(data) + CD_END
  }

  /** Writing the piece up to the next "]]>" leaves the rest to be escaped. */
  lemma EscapedStep(out: string, rest: string, k: nat)
    requires FindEnd(rest) == Some(k)
    ensures out + Escaped(rest) == out + rest[..k] + SPLIT + Escaped(rest[k + 3..])
  {
    FourParts(out, rest[..k], SPLIT, Escaped(rest[k + 3..]));
  }

  lemma FourParts(a: string, b: string, c: string, d: string)
    ensures a + (b + (c + d)) == a + b + c + d
  {
    Associative(a, b, c + d);
    Associative(a + b, c, d);
  }

  method OutputXmlCDataSection(stream: string, data: CString) returns (out: string)
    ensures out == stream + Section(data)
  {
    out := stream + CD_START;
    ghost var goal := out + Escaped(data);
    var segment := 0;
    assert data[0..] == data;
    while true
      invariant 0 <= segment <= |data|
      invariant out + Escaped(data[segment..]) == goal
      decreases |data| - segment
    {
      var rest := data[segment..];
      var next := FindEnd(rest);
      if next == None {
        out := out + rest;
        break;
      }
      EscapedStep(out, rest, next.value);
      out := out + rest[..next.value];
      out := out + SPLIT;
      segment := segment + next.value + 3;
      assert data[segment..] == rest[next.value + 3..];
    }
    out := out + CD_END;
    Associative(stream, CD_START, Escaped(data));
    Associative(stream, CD_START + Escaped(data), CD_END);
  }

  // ----- Reading XML --------------------------------------------------------

  predicate StartsWith(t: string, prefix: string) {
    prefix <= t
  }

  /** Character data and CDATA sections, by sections 2.4 and 2.7 of XML 1.0: a
      section ends at the first "]]>"; outside of sections, "&gt;" stands for
      '>' and neither '<', '&' nor "]]>" may occur otherwise. */
  function ReadContent(t: string): Option<string>
    decreases |t|
  {
    if t == "" then Some("")
    else if StartsWith(t, CD_START) then ReadSection(t[9..])
    else if StartsWith(t, GREATER) then Prepend(">", ReadContent(t[4..]))
    else if t[0] == '<' || t[0] == '&' || EndsAt(t, 0) then None
    else Prepend([t[0]], ReadContent(t[1..]))
  }

  /** From inside a CDATA section on. */
  function ReadSection(t: string): Option<string>
    decreases |t|
  {
    match FindEnd(t)
    case None => None
    case Some(k) => Prepend(t[..k], ReadContent(t[k + 3..]))
  }

  function Prepend(s: string, rest: Option<string>): Option<string> {
    match rest
    case None => None
    case Some(r) => Some(s + r)
  }

  // ----- Reading what was written -------------------------------------------

  /** Text without "]]>" does not contribute to one that follows it. */
  lemma FindEndBehind(a: string, b: string)
    requires forall k: nat :: !EndsAt(a, k)
    ensures FindEnd(a + CD_END + b) == Some(|a|)
  {
    var s := a + CD_END + b;
    assert EndsAt(s, |a|);
    forall k | 0 <= k < |a|
      ensures !EndsAt(s, k)
    {
      assert !EndsAt(a, k);
    }
  }

  lemma SectionEnds(a: string, b: string)
    requires forall k: nat :: !EndsAt(a, k)
    ensures ReadSection(a + CD_END + b) == Prepend(a, ReadContent(b))
  {
    FindEndBehind(a, b);
    assert (a + CD_END + b)[..|a|] == a && (a + CD_END + b)[|a| + 3..] == b;
  }

  lemma ReadBracket(u: string)
    requires !EndsAt("]" + u, 0)
    ensures ReadContent("]" + u) == Prepend("]", ReadContent(u))
  {
    assert ("]" + u)[1..] == u;
  }

  lemma ReadGreater(u: string)
    ensures ReadContent(GREATER + u) == Prepend(">", ReadContent(u))
  {
    assert (GREATER + u)[4..] == u;
  }

  lemma ReadStart(u: string)
    ensures ReadContent(CD_START + u) == ReadSection(u)
  {
    assert (CD_START + u)[9..] == u;
  }

  /** What is written for "]]>": the end of the section, then "]]&gt;" outside
      of sections, and the start of the next. */
  function Between(t: string): string {
    "]" + ("]" + (GREATER + (CD_START + t)))
  }

  lemma SplitParts(t: string)
    ensures SPLIT + t == CD_END + Between(t)
  {
  }

  lemma ReadTwoBrackets(u: string)
    requires u != "" && u[0] == '&'
    ensures ReadContent("]" + ("]" + u)) == Prepend("]", Prepend("]", ReadContent(u)))
  {
    ReadBracket(u);
    ReadBracket("]" + u);
  }

  lemma PrependAll(rest: Option<string>)
    ensures Prepend("]", Prepend("]", Prepend(">", rest))) == Prepend("]]>", rest)
  {
    if rest.Some? {
      assert "]" + ("]" + (">" + rest.value)) == "]]>" + rest.value;
    }
  }

  lemma ReadBetween(t: string)
    ensures ReadContent(Between(t)) == Prepend("]]>", ReadSection(t))
  {
    ReadStart(t);
    ReadGreater(CD_START + t);
    ReadTwoBrackets(GREATER + (CD_START + t));
    PrependAll(ReadSection(t));
  }

  lemma LastSection(data: string)
    requires FindEnd(data) == None
    ensures ReadSection(data + CD_END) == Some(data)
  {
    SectionEnds(data, "");
    assert data + CD_END + "" == data + CD_END;
    assert data + "" == data;
  }

  lemma CutAtEnd(data: string, k: nat)
    requires FindEnd(data) == Some(k)
    ensures data == data[..k] + ("]]>" + data[k + 3..])
  {
  }

  lemma {:induction false} SectionReadsBack(data: string)
    ensures ReadSection(Escaped(data) + CD_END) == Some(data)
    decreases |data|
  {
    match FindEnd(data)
    case None => LastSection(data);
    case Some(k) =>
      var rest := data[k + 3..];
      SectionReadsBack(rest);
      ReadOneSection(data, k, Escaped(rest));
      CutAtEnd(data, k);
  }

  /** The first section is read, and what is between it and the next. */
  lemma ReadOneSection(data: string, k: nat, escaped: string)
    requires FindEnd(data) == Some(k)
    ensures ReadSection(data[..k] + (SPLIT + escaped) + CD_END)
      == Prepend(data[..k], Prepend("]]>", ReadSection(escaped + CD_END)))
  {
    var a, t := data[..k], escaped + CD_END;
    assert forall j: nat :: EndsAt(a, j) ==> EndsAt(data, j);
    SplitParts(t);
    Associative(a, SPLIT + escaped, CD_END);
    Associative(SPLIT, escaped, CD_END);
    Associative(a, CD_END, Between(t));
    SectionEnds(a, Between(t));
    ReadBetween(t);
  }

  /** Reading what was written gives back the text, whatever it contains. */
  lemma WrittenReadsBack(data: string)
    ensures ReadContent(Section(data)) == Some(data)
  {
    SectionReadsBack(data);
    assert Section(data)[9..] == Escaped(data) + CD_END;
  }

  /** Text without "]]>" is written as it is, in one section. */
  lemma PlainSection(data: string)
    requires forall k: nat :: !EndsAt(data, k)
    ensures Section(data) == "<![CDATA[" + data + "]]>"
  {
  }

  /** Where "]]>" stands, the section ends after its own "]]>", and "]]&gt;" and
      the start of another section take its place. */
  lemma SplitSection(a: string, b: string)
    requires forall k: nat :: !EndsAt(a, k)
    ensures Section(a + "]]>" + b) == "<![CDATA[" + a + "]]>" + "]]&gt;" + Section(b)
  {
    FindEndBehind(a, b);
    CutAround(a, b);
    SplitIs();
    Regroup(CD_START, a, CD_END, "]]&gt;", Escaped(b), CD_END);
  }

  lemma CutAround(a: string, b: string)
    ensures var data := a + CD_END + b; data[..|a|] == a && data[|a| + 3..] == b
  {
  }

  lemma SplitIs()
    ensures SPLIT == CD_END + "]]&gt;" + CD_START
  {
  }

  lemma Regroup(start: string, a: string, x: string, y: string, rest: string, end: string)
    ensures start + (a + ((x + y + start) + rest)) + end == start + a + x + y + (start + rest + end)
  {
  }
}
