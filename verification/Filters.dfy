/**
  Test filters: a filter is a colon-separated list of patterns with the
  wildcards '?' and '*'; what follows the first '-' is excluded.
 */
module Filters {
  import opened Basics
  import opened CStrings

  // ----- What a pattern means -----------------------------------------------

  ghost function Concat(parts: seq<string>): string {
    if parts == [] then "" else parts[0] + Concat(parts[1..])
  }

  /** A pattern character covers a piece of the name: '*' any piece, '?' any
      one character, everything else itself. */
  ghost predicate Covers(c: char, piece: string) {
    c == '*' || (|piece| == 1 && (c == '?' || piece[0] == c))
  }

  ghost predicate CoversAll(p: string, parts: seq<string>) {
    |parts| == |p| && forall i :: 0 <= i < |p| ==> Covers(p[i], parts[i])
  }

  /** The name can be cut into pieces covered by the pattern's characters. */
  ghost predicate Glob(p: string, s: string) {
    exists parts :: CoversAll(p, parts) && Concat(parts) == s
  }

  lemma GlobEmpty(s: string)
    ensures Glob("", s) <==> s == ""
  {
    assert CoversAll("", []) && Concat([]) == "";
  }

  /** The first character of the pattern covers some prefix of the name. */
  lemma GlobHead(p: string, s: string)
    requires p != ""
    ensures Glob(p, s) <==> exists k :: 0 <= k <= |s| && Covers(p[0], s[..k]) && Glob(p[1..], s[k..])
  {
    if Glob(p, s) {
      var parts :| CoversAll(p, parts) && Concat(parts) == s;
      var k := |parts[0]|;
      assert CoversAll(p[1..], parts[1..]);
      assert s[..k] == parts[0] && s[k..] == Concat(parts[1..]);
    }
    if k :| 0 <= k <= |s| && Covers(p[0], s[..k]) && Glob(p[1..], s[k..]) {
      var parts :| CoversAll(p[1..], parts) && Concat(parts) == s[k..];
      var all := [s[..k]] + parts;
      assert all[1..] == parts;
      assert CoversAll(p, all) && Concat(all) == s;
    }
  }

  lemma GlobOne(p: string, s: string)
    requires p != "" && p[0] != '*'
    ensures Glob(p, s) <==> s != "" && (p[0] == '?' || p[0] == s[0]) && Glob(p[1..], s[1..])
  {
    GlobHead(p, s);
    if s != "" { assert |s[..1]| == 1; }
  }

  lemma GlobStar(p: string, s: string)
    requires p != "" && p[0] == '*'
    ensures Glob(p, s) <==> exists k :: 0 <= k <= |s| && Glob(p[1..], s[k..])
  {
    GlobHead(p, s);
    if k :| 0 <= k <= |s| && Glob(p[1..], s[k..]) {
      assert Covers(p[0], s[..k]);
    }
  }

  lemma GlobStarStep(p: string, s: string)
    requires p != "" && p[0] == '*'
    ensures Glob(p, s) <==> Glob(p[1..], s) || (s != "" && Glob(p, s[1..]))
  {
    GlobStar(p, s);
    assert s[0..] == s;
    if s != "" {
      GlobStar(p, s[1..]);
      assert forall k :: 1 <= k <= |s| ==> s[k..] == s[1..][k - 1..];
      assert forall k :: 0 <= k <= |s[1..]| ==> s[1..][k..] == s[k + 1..];
    }
  }

  /** What the single characters of a pattern match. */
  lemma GlobOfOne(c: char, s: string)
    ensures Glob("", s) <==> s == ""
    ensures Glob("*", s)
    ensures Glob("?", s) <==> |s| == 1
    ensures c != '*' && c != '?' ==> (Glob([c], s) <==> s == [c])
  {
    GlobEmpty(s);
    GlobStar("*", s);
    assert s[|s|..] == "" && "*"[1..] == "";
    GlobEmpty("");
    GlobOne("?", s);
    if s != "" { GlobEmpty(s[1..]); }
    if c != '*' { GlobOne([c], s); }
  }

  lemma {:induction false} ConcatPlus(a: seq<string>, b: seq<string>)
    ensures Concat(a + b) == Concat(a) + Concat(b)
  {
    if a == [] {
      assert a + b == b;
    } else {
      assert (a + b)[1..] == a[1..] + b;
      ConcatPlus(a[1..], b);
    }
  }

  lemma CoversParts(p: string, q: string, a: seq<string>, b: seq<string>)
    requires |a| == |p|
    ensures CoversAll(p + q, a + b) <==> CoversAll(p, a) && CoversAll(q, b)
  {
    if CoversAll(p + q, a + b) {
      assert forall i :: 0 <= i < |p| ==> (p + q)[i] == p[i] && (a + b)[i] == a[i];
      assert forall i :: 0 <= i < |q| ==> (p + q)[|p| + i] == q[i] && (a + b)[|p| + i] == b[i];
    }
  }

  lemma GlobSplit(p: string, q: string, s: string) returns (k: nat)
    requires Glob(p + q, s)
    ensures k <= |s| && Glob(p, s[..k]) && Glob(q, s[k..])
  {
    var parts :| CoversAll(p + q, parts) && Concat(parts) == s;
    var a, b := parts[..|p|], parts[|p|..];
    assert parts == a + b;
    CoversParts(p, q, a, b);
    ConcatPlus(a, b);
    k := |Concat(a)|;
    assert s[..k] == Concat(a) && s[k..] == Concat(b);
  }

  lemma GlobJoin(p: string, q: string, s: string, t: string)
    requires Glob(p, s) && Glob(q, t)
    ensures Glob(p + q, s + t)
  {
    var a :| CoversAll(p, a) && Concat(a) == s;
    var b :| CoversAll(q, b) && Concat(b) == t;
    ConcatPlus(a, b);
    CoversParts(p, q, a, b);
  }

  /** A pattern in two parts matches what can be cut into matches of the two. */
  lemma GlobConcat(p: string, q: string, s: string)
    ensures Glob(p + q, s) <==> exists k :: 0 <= k <= |s| && Glob(p, s[..k]) && Glob(q, s[k..])
  {
    if Glob(p + q, s) {
      var k := GlobSplit(p, q, s);
    }
    if k :| 0 <= k <= |s| && Glob(p, s[..k]) && Glob(q, s[k..]) {
      GlobJoin(p, q, s[..k], s[k..]);
      assert s[..k] + s[k..] == s;
    }
  }

  // ----- Matching one pattern -----------------------------------------------

  /** The pattern ends at the first ':'. */
  function FirstSegment(filter: string): (p: string)
    ensures ':' !in p && p <= filter
  {
    var end := StrChr(filter, ':');
    if end.Some? then filter[..end.value] else filter
  }

  predicate PatternMatchesString(pattern: CString, str: CString)
    decreases |pattern| + |str|
  {
    var c := At(pattern, 0);
    if c == '\0' || c == ':' then At(str, 0) == '\0'
    else if c == '?' then At(str, 0) != '\0' && PatternMatchesString(pattern[1..], str[1..])
    else if c == '*' then
      (At(str, 0) != '\0' && PatternMatchesString(pattern, str[1..])) ||
      PatternMatchesString(pattern[1..], str)
    else c == At(str, 0) && PatternMatchesString(pattern[1..], str[1..])
  }

  lemma FirstSegmentTail(pattern: CString)
    requires pattern != "" && pattern[0] != ':'
    ensures FirstSegment(pattern) == [pattern[0]] + FirstSegment(pattern[1..])
  {
  }

  /** The backtracking matcher decides the glob relation. */
  lemma {:induction false} PatternMatchesIffGlob(pattern: CString, str: CString)
    ensures PatternMatchesString(pattern, str) <==> Glob(FirstSegment(pattern), str)
    decreases |pattern| + |str|
  {
    var p := FirstSegment(pattern);
    if pattern == "" || pattern[0] == ':' {
      assert p == "";
      GlobEmpty(str);
    } else {
      FirstSegmentTail(pattern);
      assert p[1..] == FirstSegment(pattern[1..]);
      if pattern[0] == '*' {
        PatternMatchesIffGlob(pattern[1..], str);
        if str != "" { PatternMatchesIffGlob(pattern, str[1..]); }
        GlobStarStep(p, str);
      } else {
        if str != "" { PatternMatchesIffGlob(pattern[1..], str[1..]); }
        GlobOne(p, str);
      }
    }
  }

  // ----- Filters ------------------------------------------------------------

  /** The colon-separated segments of a filter. */
  function Segments(filter: string): (r: seq<string>)
    ensures |r| > 0
    decreases |filter|
  {
    var end := StrChr(filter, ':');
    if end.None? then [filter] else [filter[..end.value]] + Segments(filter[end.value + 1..])
  }

  ghost function Join(parts: seq<string>): string
    requires |parts| > 0
  {
    if |parts| == 1 then parts[0] else parts[0] + ":" + Join(parts[1..])
  }

  /** The segments are the colon-free pieces that make up the filter. */
  lemma {:induction false} SegmentsJoin(filter: string)
    ensures Join(Segments(filter)) == filter
    ensures forall p :: p in Segments(filter) ==> ':' !in p
    decreases |filter|
  {
    var end := StrChr(filter, ':');
    if end.Some? {
      SegmentsJoin(filter[end.value + 1..]);
      assert Segments(filter)[1..] == Segments(filter[end.value + 1..]);
    }
  }

  ghost predicate SomeSegmentMatches(filter: string, name: string) {
    exists p :: p in Segments(filter) && Glob(p, name)
  }

  lemma SegmentsStep(filter: string, name: string)
    ensures SomeSegmentMatches(filter, name) <==>
      || Glob(FirstSegment(filter), name)
      || (StrChr(filter, ':').Some? && SomeSegmentMatches(filter[StrChr(filter, ':').value + 1..], name))
  {
    assert FirstSegment(filter) in Segments(filter);
  }

  method MatchesFilter(name: CString, filter: CString) returns (r: bool)
    ensures r <==> SomeSegmentMatches(filter, name)
  {
    var curPattern := filter;
    while true
      invariant SomeSegmentMatches(filter, name) <==> SomeSegmentMatches(curPattern, name)
      decreases |curPattern|
    {
      PatternMatchesIffGlob(curPattern, name);
      SegmentsStep(curPattern, name);
      if PatternMatchesString(curPattern, name) {
        return true;
      }
      var colon := StrChr(curPattern, ':');
      if colon == None {
        return false;
      }
      curPattern := curPattern[colon.value + 1..];
    }
  }

  const UNIVERSAL_FILTER: CString := "*"
  const FORMAT_BUFFER_SIZE := 4096
  const FORMAT_ERROR: CString := "<formatting error or buffer exceeded>"

  /** String::Format("%s.%s"), which gives up on names that fill its buffer. */
  function FullName(caseName: CString, testName: CString): CString {
    if |caseName| + 1 + |testName| < FORMAT_BUFFER_SIZE then caseName + "." + testName
    else FORMAT_ERROR
  }

  /** What a filter selects: a name matched by a segment before the first '-'
      (any name if there is nothing before it) and by no segment after it. */
  ghost predicate FilterSelects(filter: string, name: string) {
    match StrChr(filter, '-')
    case None => SomeSegmentMatches(filter, name)
    case Some(dash) =>
      && (dash == 0 || SomeSegmentMatches(filter[..dash], name))
      && !SomeSegmentMatches(filter[dash + 1..], name)
  }

  lemma UniversalMatches(name: string)
    ensures SomeSegmentMatches(UNIVERSAL_FILTER, name)
  {
    var p := FirstSegment(UNIVERSAL_FILTER);
    SegmentsStep(UNIVERSAL_FILTER, name);
    GlobStar(p, name);
    assert p[1..] == "" && name[|name|..] == "";
    GlobEmpty("");
  }

  method FilterMatchesTest(filter: CString, caseName: CString, testName: CString) returns (r: bool)
    ensures r <==> FilterSelects(filter, FullName(caseName, testName))
  {
    var fullName := FullName(caseName, testName);
    var dash := StrChr(filter, '-');
    var positive: CString, negative: CString;
    if dash == None {
      positive := filter;
      negative := "";
    } else {
      positive := filter[..dash.value];
      negative := filter[dash.value + 1..];
      if positive == "" {
        positive := UNIVERSAL_FILTER;
        UniversalMatches(fullName);
      }
    }
    var p := MatchesFilter(fullName, positive);
    var n := MatchesFilter(fullName, negative);
    if dash == None {
      SegmentsStep("", fullName);
      GlobEmpty(fullName);
    }
    r := p && !n;
  }

  // ----- The built-in filters -----------------------------------------------

  const DEATH_TEST_CASE_FILTER: CString := "*DeathTest:*DeathTest/*"
  const DISABLE_TEST_FILTER: CString := "DISABLED_*:*/DISABLED_*"

  ghost predicate Literal(w: string) {
    '*' !in w && '?' !in w
  }

  ghost predicate Occurs(w: string, s: string) {
    exists k :: 0 <= k <= |s| && w <= s[k..]
  }

  lemma {:induction false} GlobLiteral(w: string, p: string, s: string)
    requires Literal(w)
    ensures Glob(w + p, s) <==> w <= s && Glob(p, s[|w|..])
  {
    if w == "" {
      assert w + p == p && s[0..] == s;
    } else {
      GlobOne(w + p, s);
      assert (w + p)[1..] == w[1..] + p;
      if s != "" && w[0] == s[0] {
        GlobLiteral(w[1..], p, s[1..]);
        if |w| <= |s| { assert s[1..][|w| - 1..] == s[|w|..]; }
        assert w <= s <==> w[1..] <= s[1..];
      }
    }
  }

  /** A filter without wildcards, ':' and '-' selects the name it spells. */
  lemma LiteralFilter(f: string, name: string)
    requires Literal(f) && ':' !in f && '-' !in f
    ensures FilterSelects(f, name) <==> name == f
  {
    SegmentsStep(f, name);
    GlobLiteral(f, "", name);
    assert f + "" == f;
    if f <= name {
      GlobEmpty(name[|f|..]);
      assert name == f + name[|f|..];
    }
  }

  /** A filter without '-' only selects; behind its first '-' it excludes, and
      with nothing before that it selects everything else. */
  lemma FilterMeaning(positive: string, negative: string, name: string)
    requires '-' !in positive
    ensures FilterSelects(positive, name) <==> SomeSegmentMatches(positive, name)
    ensures FilterSelects(positive + "-" + negative, name)
      <==> (positive == "" || SomeSegmentMatches(positive, name)) && !SomeSegmentMatches(negative, name)
  {
    var f := positive + "-" + negative;
    assert f[|positive|] == '-';
    var k := StrChr(f, '-').value;
    assert k >= |positive| by { assert forall i :: 0 <= i < |positive| ==> f[i] == positive[i]; }
    assert k <= |positive| by { assert forall m :: |positive| < m <= |f| ==> f[..m][|positive|] == '-'; }
    assert f[..k] == positive && f[k + 1..] == negative;
  }

  /** A segment of a list of patterns matches if one of these does. */
  lemma SegmentsMeaning(p: string, filter: string, name: string)
    requires ':' !in p
    ensures SomeSegmentMatches(p, name) <==> Glob(p, name)
    ensures SomeSegmentMatches(p + ":" + filter, name) <==> Glob(p, name) || SomeSegmentMatches(filter, name)
  {
    SegmentsStep(p, name);
    var f := p + ":" + filter;
    assert f[|p|] == ':';
    var k := StrChr(f, ':').value;
    assert k >= |p| by { assert forall i :: 0 <= i < |p| ==> f[i] == p[i]; }
    assert k <= |p| by { assert forall m :: |p| < m <= |f| ==> f[..m][|p|] == ':'; }
    assert f[..k] == p && f[k + 1..] == filter;
    SegmentsStep(f, name);
  }

  // ----- When the filter sees the full name ---------------------------------

  ghost predicate IsFormatted(caseName: CString, testName: CString) {
    |caseName| + 1 + |testName| < FORMAT_BUFFER_SIZE
  }

  lemma ErrorHasNo(c: char)
    requires c in {'*', '?', ':', '-'}
    ensures c !in FORMAT_ERROR
  {
  }

  lemma ErrorIsShort()
    ensures |FORMAT_ERROR| < 50
  {
  }

  /** A name that fills the buffer is not what the filter sees. */
  lemma ErrorIsSelected(name: CString)
    requires |name| >= 50
    ensures FilterSelects(FORMAT_ERROR, FORMAT_ERROR) && !FilterSelects(FORMAT_ERROR, name)
  {
    ErrorHasNo('*');
    ErrorHasNo('?');
    ErrorHasNo(':');
    ErrorHasNo('-');
    ErrorIsShort();
    LiteralFilter(FORMAT_ERROR, FORMAT_ERROR);
    LiteralFilter(FORMAT_ERROR, name);
  }

  /** Every filter treats the test as its full name says exactly if that name
      fits the buffer. */
  lemma FilterSeesNameIff(caseName: CString, testName: CString)
    ensures (forall f: CString :: FilterSelects(f, FullName(caseName, testName))
                                  <==> FilterSelects(f, caseName + "." + testName))
      <==> IsFormatted(caseName, testName)
  {
    if !IsFormatted(caseName, testName) {
      ErrorIsSelected(caseName + "." + testName);
    }
  }

  function Repeated(c: char, n: nat): (s: string)
    ensures |s| == n && forall x :: x in s ==> x == c
  {
    if n == 0 then "" else [c] + Repeated(c, n - 1)
  }

  /** A name of 4095 characters still is. */
  lemma LongestNameIsSeen()
    ensures var caseName: CString := Repeated('a', 4093);
      var f := caseName + ".t";
      |f| == 4095 && FilterSelects(f, FullName(caseName, "t"))
  {
    var f := Repeated('a', 4093) + ".t";
    assert f == Repeated('a', 4093) + "." + "t";
    LiteralFilter(f, f);
  }

  /** A name of 4096 characters is not selected by the filter that spells it. */
  lemma LongNameIsNotSeen()
    ensures var caseName: CString := Repeated('a', 4094);
      var f := caseName + ".t";
      FilterSelects(f, caseName + "." + "t") && !FilterSelects(f, FullName(caseName, "t"))
  {
    var f := Repeated('a', 4094) + ".t";
    LiteralFilter(f, f);
    LiteralFilter(f, FORMAT_ERROR);
    assert |f| == 4096;
  }

  lemma TwoSegments(p: string, q: string, name: string)
    requires ':' !in p && ':' !in q
    ensures SomeSegmentMatches(p + ":" + q, name) <==> Glob(p, name) || Glob(q, name)
  {
    var f := p + ":" + q;
    var end := StrChr(f, ':').value;
    assert f[|p|] == ':';
    assert end >= |p| by {
      assert forall k :: 0 <= k < |p| ==> f[k] == p[k];
    }
    assert end <= |p| by {
      assert forall m :: |p| < m <= |f| ==> f[..m][|p|] == ':';
    }
    assert f[..|p|] == p && f[|p| + 1..] == q;
    SegmentsStep(f, name);
    SegmentsStep(q, name);
  }

  /** "*w" is a suffix test and "*w*" a substring test. */
  lemma GlobStarLiteral(w: string, s: string)
    requires Literal(w)
    ensures Glob("*" + w, s) <==> |w| <= |s| && s[|s| - |w|..] == w
    ensures Glob("*" + w + "*", s) <==> Occurs(w, s)
    ensures Glob(w + "*", s) <==> w <= s
  {
    var p, q := "*" + w, "*" + w + "*";
    GlobStar(p, s);
    GlobStar(q, s);
    assert p[1..] == w + "" && q[1..] == w + "*";
    forall t ensures Glob("*", t) {
      GlobStar("*", t);
      assert "*"[1..] == "" && t[|t|..] == "";
      GlobEmpty("");
    }
    forall k | 0 <= k <= |s|
      ensures Glob(p[1..], s[k..]) <==> s[k..] == w
      ensures Glob(q[1..], s[k..]) <==> w <= s[k..]
    {
      GlobLiteral(w, "", s[k..]);
      GlobLiteral(w, "*", s[k..]);
      if w <= s[k..] { GlobEmpty(s[k..][|w|..]); }
    }
    GlobLiteral(w, "*", s);
    if |w| <= |s| { assert s[|s| - |w|..] == w <==> Glob(p[1..], s[|s| - |w|..]); }
  }

  lemma SuffixOrInfix(w: string, v: string, name: string)
    requires Literal(w) && Literal(v) && ':' !in w && ':' !in v
    ensures SomeSegmentMatches("*" + w + ":" + ("*" + v + "*"), name) <==>
      (|w| <= |name| && name[|name| - |w|..] == w) || Occurs(v, name)
  {
    TwoSegments("*" + w, "*" + v + "*", name);
    GlobStarLiteral(w, name);
    GlobStarLiteral(v, name);
  }

  lemma PrefixOrInfix(w: string, v: string, name: string)
    requires Literal(w) && Literal(v) && ':' !in w && ':' !in v
    ensures SomeSegmentMatches(w + "*" + ":" + ("*" + v + "*"), name) <==> w <= name || Occurs(v, name)
  {
    TwoSegments(w + "*", "*" + v + "*", name);
    GlobStarLiteral(w, name);
    GlobStarLiteral(v, name);
  }

  /** The names of death test cases: they end in "DeathTest" or contain
      "DeathTest/". */
  lemma DeathTestNames(name: string)
    ensures SomeSegmentMatches(DEATH_TEST_CASE_FILTER, name) <==>
      (|name| >= 9 && name[|name| - 9..] == "DeathTest") || Occurs("DeathTest/", name)
  {
    SuffixOrInfix("DeathTest", "DeathTest/", name);
    assert DEATH_TEST_CASE_FILTER == "*" + "DeathTest" + ":" + ("*" + "DeathTest/" + "*");
  }

  /** Disabled names start with "DISABLED_" or contain "/DISABLED_". */
  lemma DisabledNames(name: string)
    ensures SomeSegmentMatches(DISABLE_TEST_FILTER, name) <==>
      "DISABLED_" <= name || Occurs("/DISABLED_", name)
  {
    PrefixOrInfix("DISABLED_", "/DISABLED_", name);
    assert DISABLE_TEST_FILTER == "DISABLED_" + "*" + ":" + ("*" + "/DISABLED_" + "*");
  }
}
