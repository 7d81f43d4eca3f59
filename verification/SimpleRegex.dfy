/**
  The simple regular expressions of Google Test, for platforms without POSIX
  regular expressions: characters and escapes, each repeated by at most one of
  '?', '*' and '+', between an optional '^' and an optional '$'.
 */
module SimpleRegex {
  import opened Basics
  import opened CStrings

  // ----- Characters ---------------------------------------------------------

  const FF: char := '\U{000C}'
  const VT: char := '\U{000B}'

  // strchr() on a literal, with the terminator excluded, is set membership.

  predicate IsAsciiDigit(ch: char) { '0' <= ch <= '9' }

  predicate IsAsciiPunct(ch: char) {
    ch in {'^', '-', '!', '"', '#', '$', '%', '&', '\'', '(', ')', '*', '+', ',', '.', '/',
           ':', ';', '<', '=', '>', '?', '@', '[', '\\', ']', '_', '`', '{', '|', '}', '~'}
  }

  predicate IsRepeat(ch: char) { ch in {'?', '*', '+'} }

  predicate IsUnsupported(ch: char) { ch in {'(', ')', '[', ']', '{', '}', '|'} }

  predicate IsAsciiWhiteSpace(ch: char) { ch in {' ', FF, '\n', '\r', '\t', VT} }

  predicate IsAsciiWordChar(ch: char) {
    'a' <= ch <= 'z' || 'A' <= ch <= 'Z' || '0' <= ch <= '9' || ch == '_'
  }

  predicate IsValidEscape(ch: char) {
    IsAsciiPunct(ch) || ch in {'d', 'D', 'f', 'n', 'r', 's', 'S', 't', 'v', 'w', 'W'}
  }

  // The classes again, independently: by enumeration where the code has ranges,
  // and by ranges where it has lists.

  ghost predicate IsDigit(ch: char) {
    ch in {'0', '1', '2', '3', '4', '5', '6', '7', '8', '9'}
  }

  ghost predicate IsLower(ch: char) {
    ch in {'a', 'b', 'c', 'd', 'e', 'f', 'g', 'h', 'i', 'j', 'k', 'l', 'm',
           'n', 'o', 'p', 'q', 'r', 's', 't', 'u', 'v', 'w', 'x', 'y', 'z'}
  }

  ghost predicate IsUpper(ch: char) {
    ch in {'A', 'B', 'C', 'D', 'E', 'F', 'G', 'H', 'I', 'J', 'K', 'L', 'M',
           'N', 'O', 'P', 'Q', 'R', 'S', 'T', 'U', 'V', 'W', 'X', 'Y', 'Z'}
  }

  ghost predicate IsWordChar(ch: char) {
    IsDigit(ch) || IsLower(ch) || IsUpper(ch) || ch == '_'
  }

  ghost predicate IsWhiteSpace(ch: char) {
    ch == ' ' || '\t' <= ch <= '\r'
  }

  /** The printable ASCII characters that are neither blank nor alphanumeric. */
  ghost predicate IsPunctuation(ch: char) {
    '!' <= ch <= '/' || ':' <= ch <= '@' || '[' <= ch <= '`' || '{' <= ch <= '~'
  }

  lemma WhiteSpaceEnumerated(ch: char)
    ensures IsAsciiWhiteSpace(ch) <==> IsWhiteSpace(ch)
  {
  }

  lemma PunctuationEnumerated(ch: char)
    ensures IsAsciiPunct(ch) <==> IsPunctuation(ch)
  {
  }

  lemma LowerEnumerated(ch: char)
    ensures 'a' <= ch <= 'z' <==> IsLower(ch)
  {
  }

  lemma UpperEnumerated(ch: char)
    ensures 'A' <= ch <= 'Z' <==> IsUpper(ch)
  {
  }

  /** What an atom stands for, as documented: the character classes. */
  ghost predicate InClass(escaped: bool, c: char, ch: char) {
    if !escaped then ch == c || (c == '.' && ch != '\n')
    else match c
      case 'd' => IsDigit(ch)
      case 'D' => !IsDigit(ch)
      case 's' => IsWhiteSpace(ch)
      case 'S' => !IsWhiteSpace(ch)
      case 'w' => IsWordChar(ch)
      case 'W' => !IsWordChar(ch)
      case 'f' => ch == FF
      case 'n' => ch == '\n'
      case 'r' => ch == '\r'
      case 't' => ch == '\t'
      case 'v' => ch == VT
      case _ => ch == c && IsPunctuation(c)
  }

  predicate AtomMatchesChar(escaped: bool, c: char, ch: char) {
    if escaped then
      match c
      case 'd' => IsAsciiDigit(ch)
      case 'D' => !IsAsciiDigit(ch)
      case 'f' => ch == FF
      case 'n' => ch == '\n'
      case 'r' => ch == '\r'
      case 's' => IsAsciiWhiteSpace(ch)
      case 'S' => !IsAsciiWhiteSpace(ch)
      case 't' => ch == '\t'
      case 'v' => ch == VT
      case 'w' => IsAsciiWordChar(ch)
      case 'W' => !IsAsciiWordChar(ch)
      case _ => IsAsciiPunct(c) && c == ch
    else
      (c == '.' && ch != '\n') || c == ch
  }

  lemma AtomMatchesItsClass(escaped: bool, c: char, ch: char)
    ensures AtomMatchesChar(escaped, c, ch) <==> InClass(escaped, c, ch)
  {
    LowerEnumerated(ch);
    UpperEnumerated(ch);
    WhiteSpaceEnumerated(ch);
    PunctuationEnumerated(ch);
  }

  // ----- Syntax -------------------------------------------------------------

  datatype Repeat = Once | ZeroOrOne | ZeroOrMore | OneOrMore

  datatype Atom = Atom(escaped: bool, c: char, repeat: Repeat)

  /** A syntax tree; start and end say whether '^' and '$' are present. */
  datatype Regex = Regex(start: bool, atoms: seq<Atom>, end: bool)

  predicate IsAtomChar(escaped: bool, c: char) {
    if escaped then IsValidEscape(c)
    else c !in {'\0', '\\', '^', '$'} && !IsUnsupported(c) && !IsRepeat(c)
  }

  predicate AllAtoms(atoms: seq<Atom>) {
    forall a :: a in atoms ==> IsAtomChar(a.escaped, a.c)
  }

  predicate WellFormed(re: Regex) {
    AllAtoms(re.atoms)
  }

  function PrintRepeat(r: Repeat): string {
    match r
    case Once => ""
    case ZeroOrOne => "?"
    case ZeroOrMore => "*"
    case OneOrMore => "+"
  }

  function PrintAtom(a: Atom): string {
    (if a.escaped then "\\" else "") + [a.c] + PrintRepeat(a.repeat)
  }

  function PrintTail(atoms: seq<Atom>, end: bool): string {
    if atoms == [] then if end then "$" else ""
    else PrintAtom(atoms[0]) + PrintTail(atoms[1..], end)
  }

  function Print(re: Regex): string {
    (if re.start then "^" else "") + PrintTail(re.atoms, re.end)
  }

  function RepeatAt(s: string): Repeat {
    if s == "" then Once
    else match s[0]
      case '?' => ZeroOrOne
      case '*' => ZeroOrMore
      case '+' => OneOrMore
      case _ => Once
  }

  /** Reads the atom at the head of s. */
  function ParseAtom(s: string): (r: Option<Atom>)
    ensures r.Some? ==> s != "" && 0 < |PrintAtom(r.value)| <= |s|
  {
    var escaped := s != "" && s[0] == '\\';
    var k := if escaped then 1 else 0;
    if k < |s| && IsAtomChar(escaped, s[k]) then Some(Atom(escaped, s[k], RepeatAt(s[k + 1..])))
    else None
  }

  /** Reads a regex without its leading '^'. */
  function ParseTail(s: string): Option<Regex>
    decreases |s|
  {
    if s == "" then Some(Regex(false, [], false))
    else if s == "$" then Some(Regex(false, [], true))
    else
      match ParseAtom(s)
      case None => None
      case Some(a) =>
        match ParseTail(s[|PrintAtom(a)|..])
        case None => None
        case Some(re) => Some(re.(atoms := [a] + re.atoms))
  }

  function Parse(s: string): Option<Regex> {
    if s != "" && s[0] == '^' then
      match ParseTail(s[1..])
      case None => None
      case Some(re) => Some(re.(start := true))
    else ParseTail(s)
  }

  lemma ParseAtomPrints(s: string)
    requires ParseAtom(s).Some?
    ensures var a := ParseAtom(s).value;
            IsAtomChar(a.escaped, a.c) && s == PrintAtom(a) + s[|PrintAtom(a)|..]
  {
  }

  lemma PrintAtomParses(a: Atom, t: string)
    requires IsAtomChar(a.escaped, a.c) && RepeatAt(t) == Once
    ensures PrintAtom(a) + t != "$"
    ensures ParseAtom(PrintAtom(a) + t) == Some(a)
  {
    var s := PrintAtom(a) + t;
    var k := if a.escaped then 1 else 0;
    assert s[k] == a.c;
    assert s[k + 1..] == PrintRepeat(a.repeat) + t;
  }

  lemma ConsPrints(a: Atom, atoms: seq<Atom>, end: bool)
    requires IsAtomChar(a.escaped, a.c) && AllAtoms(atoms)
    ensures AllAtoms([a] + atoms)
    ensures PrintTail([a] + atoms, end) == PrintAtom(a) + PrintTail(atoms, end)
  {
    assert ([a] + atoms)[1..] == atoms;
  }

  lemma {:induction false} ParseTailPrints(s: string)
    requires ParseTail(s).Some?
    ensures var re := ParseTail(s).value;
            !re.start && AllAtoms(re.atoms) && PrintTail(re.atoms, re.end) == s
    decreases |s|
  {
    if s != "" && s != "$" {
      ParseAtomPrints(s);
      var a := ParseAtom(s).value;
      var rest := s[|PrintAtom(a)|..];
      ParseTailPrints(rest);
      ConsPrints(a, ParseTail(rest).value.atoms, ParseTail(rest).value.end);
    }
  }

  /** What follows an atom never looks like a repeat of it. */
  lemma PrintTailHead(atoms: seq<Atom>, end: bool)
    requires AllAtoms(atoms)
    ensures RepeatAt(PrintTail(atoms, end)) == Once
    ensures PrintTail(atoms, end) == "" || PrintTail(atoms, end)[0] != '^'
  {
    if atoms != [] { assert IsAtomChar(atoms[0].escaped, atoms[0].c); }
  }

  lemma ParseTailStep(a: Atom, t: string)
    requires IsAtomChar(a.escaped, a.c) && RepeatAt(t) == Once
    ensures ParseTail(t).Some? ==>
      var re := ParseTail(t).value;
      ParseTail(PrintAtom(a) + t) == Some(re.(atoms := [a] + re.atoms))
  {
    PrintAtomParses(a, t);
    assert (PrintAtom(a) + t)[|PrintAtom(a)|..] == t;
  }

  lemma {:induction false} PrintTailParses(atoms: seq<Atom>, end: bool)
    requires AllAtoms(atoms)
    ensures ParseTail(PrintTail(atoms, end)) == Some(Regex(false, atoms, end))
  {
    if atoms != [] {
      PrintTailParses(atoms[1..], end);
      PrintTailHead(atoms[1..], end);
      assert IsAtomChar(atoms[0].escaped, atoms[0].c);
      ParseTailStep(atoms[0], PrintTail(atoms[1..], end));
      assert [atoms[0]] + atoms[1..] == atoms;
    }
  }

  /** Printing and parsing are inverse: a pattern has at most one tree. */
  lemma ParsePrint(re: Regex)
    requires WellFormed(re)
    ensures Parse(Print(re)) == Some(re)
  {
    var tail := PrintTail(re.atoms, re.end);
    PrintTailParses(re.atoms, re.end);
    PrintTailHead(re.atoms, re.end);
    if re.start {
      assert Print(re)[1..] == tail;
    } else {
      assert Print(re) == tail;
    }
  }

  lemma ParseSound(s: string)
    ensures var r := Parse(s); r.Some? ==> WellFormed(r.value) && Print(r.value) == s
  {
    if Parse(s).Some? {
      ParseTailPrints(if s != "" && s[0] == '^' then s[1..] else s);
    }
  }

  // ----- Validation ---------------------------------------------------------

  /** The scan of the validator from s on: first says that nothing precedes s,
      repeatable that a repeat may come next. */
  predicate ScanAccepts(s: string, first: bool, repeatable: bool)
    decreases |s|
  {
    if s == "" then true
    else if s[0] == '\\' then
      |s| > 1 && IsValidEscape(s[1]) && ScanAccepts(s[2..], false, true)
    else
      && (s[0] == '^' ==> first)
      && (s[0] == '$' ==> |s| == 1)
      && !IsUnsupported(s[0])
      && (IsRepeat(s[0]) ==> repeatable)
      && ScanAccepts(s[1..], false, s[0] !in {'^', '$'} && !IsRepeat(s[0]))
  }

  function SkipRepeat(s: string): string {
    if s != "" && IsRepeat(s[0]) then s[1..] else s
  }

  lemma ScanAtom(s: CString)
    requires ParseAtom(s).Some?
    ensures var k := if s[0] == '\\' then 2 else 1;
            && s != "$" && k <= |s|
            && s[|PrintAtom(ParseAtom(s).value)|..] == SkipRepeat(s[k..])
            && (forall r :: ScanAccepts(s, false, r) <==> ScanAccepts(s[k..], false, true))
  {
  }

  lemma ScanNoAtom(s: CString)
    requires ParseAtom(s).None? && s != "" && s != "$"
    ensures !ScanAccepts(s, false, false)
  {
  }

  lemma {:induction false} ScanIsParse(s: CString)
    ensures ScanAccepts(s, false, false) <==> ParseTail(s).Some?
    ensures ScanAccepts(s, false, true) <==> ParseTail(SkipRepeat(s)).Some?
    decreases |s|
  {
    if s == "" || s == "$" {
    } else if ParseAtom(s).Some? {
      ScanAtom(s);
      ScanIsParse(s[if s[0] == '\\' then 2 else 1..]);
      assert SkipRepeat(s) == s;
    } else {
      ScanNoAtom(s);
      if IsRepeat(s[0]) {
        ScanIsParse(s[1..]);
      } else {
        assert !ScanAccepts(s, false, true);
      }
    }
  }

  lemma ScanIsParseFromStart(s: CString)
    ensures ScanAccepts(s, true, false) <==> Parse(s).Some?
  {
    ScanIsParse(s);
    if s != "" { ScanIsParse(s[1..]); }
  }

  method ValidateRegex(regex: Option<CString>) returns (isValid: bool)
    ensures isValid <==> regex.Some? && Parse(regex.value).Some?
  {
    if regex == None {
      return false;
    }
    var re := regex.value;
    isValid := true;
    ScanIsParseFromStart(re);
    var prevRepeatable := false;
    var i := 0;
    while At(re, i) != '\0'
      invariant i <= |re|
      invariant ScanAccepts(re, true, false) <==> isValid && ScanAccepts(re[i..], i == 0, prevRepeatable)
      decreases |re| - i
    {
      var rest := re[i..];
      if At(re, i) == '\\' {
        i := i + 1;
        if At(re, i) == '\0' {
          return false;
        }
        if !IsValidEscape(At(re, i)) {
          isValid := false;
        }
        prevRepeatable := true;
        assert rest[2..] == re[i + 1..];
      } else {
        var ch := At(re, i);
        if ch == '^' && i > 0 {
          isValid := false;
        } else if ch == '$' && At(re, i + 1) != '\0' {
          isValid := false;
        } else if IsUnsupported(ch) {
          isValid := false;
        } else if IsRepeat(ch) && !prevRepeatable {
          isValid := false;
        }
        prevRepeatable := ch !in {'^', '$', '?', '*', '+'};
        assert rest[1..] == re[i + 1..];
      }
      i := i + 1;
    }
  }

  /** Validation accepts exactly the printed forms of syntax trees, and a
      pattern is the printed form of at most one. */
  lemma AcceptedIffPrintedForm(s: CString)
    ensures Parse(s).Some? <==> exists re :: WellFormed(re) && Print(re) == s
    ensures forall re, re' ::
      WellFormed(re) && WellFormed(re') && Print(re) == s && Print(re') == s ==> re == re'
  {
    ParseSound(s);
    forall re | WellFormed(re) && Print(re) == s
      ensures Parse(s) == Some(re)
    {
      ParsePrint(re);
    }
  }

  // ----- The documented syntax ----------------------------------------------

  /** The characters that stand for themselves, and those that a backslash may
      precede. */
  lemma AtomChars(c: char)
    ensures IsAtomChar(false, c) <==> c !in {'\0', '\\', '^', '$', '?', '*', '+', '(', ')', '[', ']', '{', '}', '|'}
    ensures IsAtomChar(true, c) <==>
      IsPunctuation(c) || c in {'d', 'D', 'f', 'n', 'r', 's', 'S', 't', 'v', 'w', 'W'}
  {
    PunctuationEnumerated(c);
  }

  /** The three repetitions, the two anchors, and sequences of atoms. */
  lemma Syntax(a: Atom, atoms: seq<Atom>, start: bool, end: bool)
    requires IsAtomChar(a.escaped, a.c) && AllAtoms(atoms)
    ensures var once := if a.escaped then ['\\', a.c] else [a.c];
      PrintAtom(a) ==
        match a.repeat
        case Once => once
        case ZeroOrOne => once + ['?']
        case ZeroOrMore => once + ['*']
        case OneOrMore => once + ['+']
    ensures Print(Regex(true, [], false)) == "^" && Print(Regex(false, [], true)) == "$"
    ensures Print(Regex(start, atoms, end))
      == (if start then "^" else "") + PrintTail(atoms, false) + (if end then "$" else "")
    ensures PrintTail([a] + atoms, false) == PrintAtom(a) + PrintTail(atoms, false) && PrintTail([], false) == ""
  {
    PrintTailEnd(atoms);
    ConsPrints(a, atoms, false);
  }

  /** The classes that are complements of each other, and the dot. */
  lemma ClassLaws(ch: char)
    ensures InClass(true, 'D', ch) <==> !InClass(true, 'd', ch)
    ensures InClass(true, 'S', ch) <==> !InClass(true, 's', ch)
    ensures InClass(true, 'W', ch) <==> !InClass(true, 'w', ch)
    ensures InClass(false, '.', ch) <==> ch != '\n'
    ensures InClass(true, '.', ch) <==> ch == '.'
  {
    assert IsPunctuation('.');
  }

  // ----- Meaning ------------------------------------------------------------

  ghost predicate Allows(r: Repeat, n: nat) {
    match r
    case Once => n == 1
    case ZeroOrOne => n <= 1
    case ZeroOrMore => true
    case OneOrMore => 1 <= n
  }

  ghost predicate AtomLanguage(a: Atom, w: string) {
    Allows(a.repeat, |w|) && forall i :: 0 <= i < |w| ==> InClass(a.escaped, a.c, w[i])
  }

  /** The words a sequence of atoms stands for. */
  ghost predicate Language(atoms: seq<Atom>, w: string) {
    if atoms == [] then w == ""
    else exists j :: 0 <= j <= |w| && AtomLanguage(atoms[0], w[..j]) && Language(atoms[1..], w[j..])
  }

  /** Some prefix of str is in the language; all of str if '$' follows. */
  ghost predicate MatchesHead(atoms: seq<Atom>, end: bool, str: string) {
    exists k :: 0 <= k <= |str| && Language(atoms, str[..k]) && (end ==> k == |str|)
  }

  /** Some substring of str is in the language, at the start if '^' precedes
      it and at the end if '$' follows. */
  ghost predicate MatchesSubstring(re: Regex, str: string) {
    exists i, k :: 0 <= i <= k <= |str| && Language(re.atoms, str[i..k])
      && (re.start ==> i == 0) && (re.end ==> k == |str|)
  }

  lemma MatchesHeadStep(atoms: seq<Atom>, end: bool, str: string)
    requires atoms != []
    ensures MatchesHead(atoms, end, str) <==>
      exists j :: 0 <= j <= |str| && AtomLanguage(atoms[0], str[..j]) && MatchesHead(atoms[1..], end, str[j..])
  {
    if MatchesHead(atoms, end, str) {
      var k :| 0 <= k <= |str| && Language(atoms, str[..k]) && (end ==> k == |str|);
      var j :| 0 <= j <= |str[..k]| && AtomLanguage(atoms[0], str[..k][..j]) && Language(atoms[1..], str[..k][j..]);
      assert str[..k][..j] == str[..j] && str[..k][j..] == str[j..][..k - j];
    }
    if j :| 0 <= j <= |str| && AtomLanguage(atoms[0], str[..j]) && MatchesHead(atoms[1..], end, str[j..]) {
      var k :| 0 <= k <= |str[j..]| && Language(atoms[1..], str[j..][..k]) && (end ==> k == |str[j..]|);
      assert str[..j + k][..j] == str[..j] && str[..j + k][j..] == str[j..][..k];
      assert Language(atoms, str[..j + k]);
    }
  }

  lemma MatchesSubstringByHead(re: Regex, str: string)
    ensures MatchesSubstring(re, str) <==>
      exists i :: 0 <= i <= |str| && (re.start ==> i == 0) && MatchesHead(re.atoms, re.end, str[i..])
  {
    if MatchesSubstring(re, str) {
      var i, k :| 0 <= i <= k <= |str| && Language(re.atoms, str[i..k])
        && (re.start ==> i == 0) && (re.end ==> k == |str|);
      assert str[i..][..k - i] == str[i..k];
      assert MatchesHead(re.atoms, re.end, str[i..]);
    }
    if i :| 0 <= i <= |str| && (re.start ==> i == 0) && MatchesHead(re.atoms, re.end, str[i..]) {
      var k :| 0 <= k <= |str[i..]| && Language(re.atoms, str[i..][..k]) && (re.end ==> k == |str[i..]|);
      assert str[i..][..k] == str[i..i + k];
    }
  }

  // ----- Matching -----------------------------------------------------------

  /** The first atom of a regex that is neither empty nor "$", and the regex
      behind it. */
  lemma HeadOfTail(regex: CString)
    requires ParseTail(regex).Some? && regex != ""
    ensures regex[0] == '$' ==> ParseTail(regex).value == Regex(false, [], true)
    ensures regex[0] != '$' ==>
      var tail := ParseTail(regex).value;
      var re: CString := if regex[0] == '\\' then regex[1..] else regex;
      && re != "" && tail.atoms != []
      && tail.atoms[0].escaped == (regex[0] == '\\') && tail.atoms[0].c == re[0]
      && tail.atoms[0].repeat == RepeatAt([At(re, 1)])
      && var k := if IsRepeat(At(re, 1)) then 2 else 1;
         ParseTail(re[k..]) == Some(tail.(atoms := tail.atoms[1..]))
  {
    if regex[0] != '$' {
      ScanAtom(regex);
      var k := if regex[0] == '\\' then 2 else 1;
      assert SkipRepeat(regex[k..]) == if IsRepeat(At(regex, k)) then regex[k + 1..] else regex[k..];
    }
  }

  lemma MatchesHeadOnce(atoms: seq<Atom>, end: bool, str: string)
    requires atoms != [] && atoms[0].repeat == Once
    ensures MatchesHead(atoms, end, str) <==>
      str != "" && AtomMatchesChar(atoms[0].escaped, atoms[0].c, str[0]) && MatchesHead(atoms[1..], end, str[1..])
  {
    MatchesHeadStep(atoms, end, str);
    if str != "" {
      AtomMatchesItsClass(atoms[0].escaped, atoms[0].c, str[0]);
      assert InClass(atoms[0].escaped, atoms[0].c, str[0]) ==> AtomLanguage(atoms[0], str[..1]);
    }
  }

  /** A word of a, then a match of the regex. */
  ghost predicate MatchesRepetition(a: Atom, regex: CString, str: CString)
    requires ParseTail(regex).Some?
  {
    var tail := ParseTail(regex).value;
    exists j :: 0 <= j <= |str| && AtomLanguage(a, str[..j]) && MatchesHead(tail.atoms, tail.end, str[j..])
  }

  ghost predicate MatchesTail(regex: CString, str: CString)
    requires ParseTail(regex).Some?
  {
    MatchesHead(ParseTail(regex).value.atoms, ParseTail(regex).value.end, str)
  }

  lemma RepeatedWord(escaped: bool, c: char, repeat: char, str: CString, i: nat)
    requires IsRepeat(repeat) && i <= |str| && (repeat == '?' ==> i <= 1) && (repeat == '+' ==> i >= 1)
    requires forall k :: 0 <= k < i ==> AtomMatchesChar(escaped, c, str[k])
    ensures AtomLanguage(Atom(escaped, c, RepeatAt([repeat])), str[..i])
  {
    forall k | 0 <= k < i
      ensures InClass(escaped, c, str[..i][k])
    {
      AtomMatchesItsClass(escaped, c, str[k]);
    }
  }

  /** No word of a repeated atom reaches past a character it does not match. */
  lemma NoLongerWord(a: Atom, str: CString, i: nat, j: nat)
    requires i < j <= |str| && !AtomMatchesChar(a.escaped, a.c, str[i])
    ensures !AtomLanguage(a, str[..j])
  {
    AtomMatchesItsClass(a.escaped, a.c, str[i]);
    assert str[..j][i] == str[i];
  }

  method MatchRepetitionAndRegexAtHead(escaped: bool, c: char, repeat: char, regex: CString, str: CString)
    returns (r: bool)
    requires IsRepeat(repeat) && ParseTail(regex).Some?
    ensures r <==> MatchesRepetition(Atom(escaped, c, RepeatAt([repeat])), regex, str)
    decreases |regex|, 1
  {
    ghost var a := Atom(escaped, c, RepeatAt([repeat]));
    var minCount := if repeat == '+' then 1 else 0;
    var i := 0;
    while repeat == '?' ==> i <= 1
      invariant i <= |str| && (repeat == '?' ==> i <= 2)
      invariant forall k :: 0 <= k < i ==> AtomMatchesChar(escaped, c, str[k])
      invariant forall k :: minCount <= k < i ==> !MatchesTail(regex, str[k..])
      decreases |str| - i
    {
      if i >= minCount {
        var matched := MatchRegexAtHead(regex, str[i..]);
        if matched {
          RepeatedWord(escaped, c, repeat, str, i);
          return true;
        }
      }
      if At(str, i) == '\0' || !AtomMatchesChar(escaped, c, At(str, i)) {
        forall j | i < j <= |str|
          ensures !AtomLanguage(a, str[..j])
        {
          NoLongerWord(a, str, i, j);
        }
        return false;
      }
      i := i + 1;
    }
    return false;
  }

  lemma MatchesHeadNothing(end: bool, str: string)
    ensures MatchesHead([], end, str) <==> (end ==> str == "")
  {
    assert Language([], str[..0]);
  }

  lemma EmptyRegex(str: CString)
    ensures MatchesTail("", str)
  {
    MatchesHeadNothing(false, str);
  }

  lemma EndOfRegex(regex: CString, str: CString)
    requires ParseTail(regex).Some? && At(regex, 0) == '$'
    ensures MatchesTail(regex, str) <==> str == ""
  {
    HeadOfTail(regex);
    MatchesHeadNothing(true, str);
  }

  lemma RepeatedAtom(regex: CString, re: CString, str: CString)
    requires ParseTail(regex).Some? && regex != "" && regex[0] != '$'
    requires re == if regex[0] == '\\' then regex[1..] else regex
    requires IsRepeat(At(regex, |regex| - |re| + 1))
    ensures 2 <= |re| && ParseTail(re[2..]).Some?
    ensures MatchesTail(regex, str)
      <==> MatchesRepetition(Atom(regex[0] == '\\', re[0], RepeatAt([re[1]])), re[2..], str)
  {
    HeadOfTail(regex);
    var tail := ParseTail(regex).value;
    MatchesHeadStep(tail.atoms, tail.end, str);
  }

  lemma SingleAtom(regex: CString, re: CString, str: CString)
    requires ParseTail(regex).Some? && regex != "" && regex[0] != '$'
    requires re == if regex[0] == '\\' then regex[1..] else regex
    requires !IsRepeat(At(regex, |regex| - |re| + 1))
    ensures re != "" && ParseTail(re[1..]).Some?
    ensures MatchesTail(regex, str)
      <==> str != "" && AtomMatchesChar(regex[0] == '\\', re[0], str[0]) && MatchesTail(re[1..], str[1..])
  {
    HeadOfTail(regex);
    var tail := ParseTail(regex).value;
    MatchesHeadOnce(tail.atoms, tail.end, str);
  }

  method MatchRegexAtHead(regex: CString, str: CString) returns (r: bool)
    requires ParseTail(regex).Some?
    ensures r <==> MatchesTail(regex, str)
    decreases |regex|, 0
  {
    if At(regex, 0) == '\0' {
      EmptyRegex(str);
      return true;
    }
    if At(regex, 0) == '$' {
      EndOfRegex(regex, str);
      return At(str, 0) == '\0';
    }
    var escaped := At(regex, 0) == '\\';
    var re: CString := if escaped then regex[1..] else regex;
    HeadOfTail(regex);
    if IsRepeat(At(re, 1)) {
      RepeatedAtom(regex, re, str);
      r := MatchRepetitionAndRegexAtHead(escaped, At(re, 0), At(re, 1), re[2..], str);
    } else {
      SingleAtom(regex, re, str);
      if At(str, 0) != '\0' && AtomMatchesChar(escaped, At(re, 0), At(str, 0)) {
        r := MatchRegexAtHead(re[1..], str[1..]);
      } else {
        r := false;
      }
    }
  }

  method MatchRegexAnywhere(regex: Option<CString>, str: Option<CString>) returns (r: bool)
    requires regex.Some? ==> Parse(regex.value).Some?
    ensures r <==> regex.Some? && str.Some? && MatchesSubstring(Parse(regex.value).value, str.value)
  {
    if regex == None || str == None {
      return false;
    }
    var re, s := regex.value, str.value;
    ghost var tree := Parse(re).value;
    MatchesSubstringByHead(tree, s);
    if At(re, 0) == '^' {
      assert tree.start && s[0..] == s;
      r := MatchRegexAtHead(re[1..], s);
      return;
    }
    ParseSound(re);
    assert !tree.start;
    var i := 0;
    while true
      invariant i <= |s|
      invariant forall k :: 0 <= k < i ==> !MatchesHead(tree.atoms, tree.end, s[k..])
      decreases |s| - i
    {
      r := MatchRegexAtHead(re, s[i..]);
      if r {
        return;
      }
      if At(s, i) == '\0' {
        return false;
      }
      i := i + 1;
    }
  }

  /** The pattern RE::Init builds for full matches: a '^' in front unless there
      is one, a '$' behind unless the last character is one. */
  function FullPattern(regex: CString): (p: CString)
  {
    (if At(regex, 0) == '^' then "" else "^") + regex +
    (if regex != "" && regex[|regex| - 1] == '$' then "" else "$")
  }

  /** The second half of RE::Init; fills a buffer of len + 3 characters. */
  method FillBuffer(regex: CString) returns (full: CString)
    ensures full == FullPattern(regex)
  {
    var len := |regex|;
    var buffer := new char[len + 3];
    var pos := 0;
    if At(regex, 0) != '^' {
      buffer[pos] := '^';
      pos := pos + 1;
    }
    ghost var head := buffer[..pos];
    for i := 0 to len
      invariant buffer[..pos + i] == head + regex[..i]
    {
      buffer[pos + i] := regex[i];
    }
    pos := pos + len;
    assert buffer[..pos] == head + regex;
    if len == 0 || regex[len - 1] != '$' {
      buffer[pos] := '$';
      pos := pos + 1;
    }
    buffer[pos] := '\0';
    assert buffer[..pos] == FullPattern(regex);
    full := buffer[..pos];
  }

  class RE {
    var pattern: Option<CString>
    var fullPattern: Option<CString>
    var isValid: bool

    ghost predicate Valid()
      reads this
    {
      && (isValid <==> pattern.Some? && Parse(pattern.value).Some?)
      && fullPattern == if isValid then Some(FullPattern(pattern.value)) else None
    }

    /** RE::Init. */
    constructor (regex: Option<CString>)
      ensures Valid() && pattern == regex
    {
      pattern, fullPattern := regex, None;
      new;
      isValid := ValidateRegex(regex);
      if !isValid {
        return;
      }
      var full := FillBuffer(regex.value);
      fullPattern := Some(full);
    }

    static method PartialMatch(str: Option<CString>, re: RE) returns (r: bool)
      requires re.Valid()
      ensures r <==> re.isValid && str.Some? && MatchesSubstring(Parse(re.pattern.value).value, str.value)
    {
      if re.isValid {
        r := MatchRegexAnywhere(re.pattern, str);
      } else {
        r := false;
      }
    }

    static method FullMatch(str: Option<CString>, re: RE) returns (r: bool)
      requires re.Valid()
      ensures re.isValid && str.Some? ==>
        var tree := Parse(re.pattern.value).value;
        r <==> if EndsInEscapedDollar(tree) then MatchesHead(tree.atoms, false, str.value)
               else Language(tree.atoms, str.value)
      ensures !re.isValid || str == None ==> !r
    {
      if re.isValid {
        FullPatternTree(re.pattern.value);
        r := MatchRegexAnywhere(re.fullPattern, str);
        if str.Some? {
          MatchesSubstringAnchored(Parse(re.fullPattern.value).value, str.value);
        }
      } else {
        r := false;
      }
    }
  }

  // ----- What full matches mean ---------------------------------------------

  /** The pattern ends in '\$', so its last character is not an anchor. */
  predicate EndsInEscapedDollar(re: Regex) {
    !re.end && re.atoms != [] && re.atoms[|re.atoms| - 1] == Atom(true, '$', Once)
  }

  lemma {:induction false} PrintTailLast(atoms: seq<Atom>, end: bool)
    requires AllAtoms(atoms)
    ensures var p := PrintTail(atoms, end);
            p != "" && p[|p| - 1] == '$' <==> end || EndsInEscapedDollar(Regex(false, atoms, end))
  {
    if atoms != [] {
      var rest := PrintTail(atoms[1..], end);
      PrintTailLast(atoms[1..], end);
      assert IsAtomChar(atoms[0].escaped, atoms[0].c);
      assert |atoms| > 1 ==> PrintAtom(atoms[1]) <= rest;
    }
  }

  /** The tree of the full pattern: both anchors are there, except that a
      pattern ending in an escaped '$' gets no '$' behind it. */
  lemma FullPatternTree(regex: CString)
    requires Parse(regex).Some?
    ensures var re := Parse(regex).value;
            Parse(FullPattern(regex)) == Some(Regex(true, re.atoms, !EndsInEscapedDollar(re)))
  {
    var re := Parse(regex).value;
    ParseSound(regex);
    PrintFull(re);
    ParsePrint(Regex(true, re.atoms, !EndsInEscapedDollar(re)));
  }

  lemma PrintFull(re: Regex)
    requires WellFormed(re) && '\0' !in Print(re)
    ensures FullPattern(Print(re)) == Print(Regex(true, re.atoms, !EndsInEscapedDollar(re)))
  {
    var p, tail := Print(re), PrintTail(re.atoms, re.end);
    PrintFront(re);
    PrintLast(re);
    PrintTailEnd(re.atoms);
    var front := if At(p, 0) == '^' then "" else "^";
    var back := if re.end || EndsInEscapedDollar(re) then "" else "$";
    assert FullPattern(p) == front + p + back;
    Associative("^", tail, back);
    if back == "" { assert tail + back == tail; }
  }

  lemma PrintLast(re: Regex)
    requires WellFormed(re)
    ensures var p := Print(re);
            p != "" && p[|p| - 1] == '$' <==> re.end || EndsInEscapedDollar(re)
  {
    PrintTailLast(re.atoms, re.end);
    var p, tail := Print(re), PrintTail(re.atoms, re.end);
    assert tail != "" ==> p[|p| - 1] == tail[|tail| - 1];
  }

  lemma PrintFront(re: Regex)
    requires WellFormed(re) && '\0' !in Print(re)
    ensures (if At(Print(re), 0) == '^' then "" else "^") + Print(re) == "^" + PrintTail(re.atoms, re.end)
  {
    PrintTailHead(re.atoms, re.end);
  }

  lemma {:induction false} PrintTailEnd(atoms: seq<Atom>)
    ensures PrintTail(atoms, true) == PrintTail(atoms, false) + "$"
  {
    if atoms != [] { PrintTailEnd(atoms[1..]); }
  }

  lemma MatchesSubstringAnchored(re: Regex, str: string)
    requires re.start
    ensures MatchesSubstring(re, str) <==> MatchesHead(re.atoms, re.end, str)
    ensures MatchesHead(re.atoms, true, str) <==> Language(re.atoms, str)
  {
    MatchesSubstringByHead(re, str);
    assert str[0..] == str && str[..|str|] == str;
  }

  /** What RE::FullMatch answers on a valid pattern. */
  ghost predicate FullMatches(regex: CString, str: CString)
    requires Parse(regex).Some? && Parse(FullPattern(regex)).Some?
  {
    MatchesSubstring(Parse(FullPattern(regex)).value, str)
  }

  /** A character the atom matches. */
  function WitnessChar(a: Atom): char {
    if a.escaped then
      match a.c
      case 'd' => '0'
      case 'D' | 'S' | 'w' => 'a'
      case 's' | 'W' => ' '
      case 'f' => FF
      case 'n' => '\n'
      case 'r' => '\r'
      case 't' => '\t'
      case 'v' => VT
      case _ => a.c
    else a.c
  }

  lemma WitnessCharMatches(a: Atom)
    requires IsAtomChar(a.escaped, a.c)
    ensures AtomMatchesChar(a.escaped, a.c, WitnessChar(a)) && WitnessChar(a) != '\0'
  {
  }

  /** Every regex has a word. */
  lemma {:induction false} HasWord(atoms: seq<Atom>) returns (w: CString)
    requires AllAtoms(atoms)
    ensures Language(atoms, w)
  {
    if atoms == [] {
      w := "";
    } else {
      var v := HasWord(atoms[1..]);
      var a := atoms[0];
      assert IsAtomChar(a.escaped, a.c);
      WitnessCharMatches(a);
      w := [WitnessChar(a)] + v;
      assert AtomLanguage(a, w[..1]) && w[1..] == v;
    }
  }

  lemma {:induction false} WordsEndLikeLastAtom(atoms: seq<Atom>, w: string)
    requires EndsInEscapedDollar(Regex(false, atoms, false)) && Language(atoms, w)
    ensures w != "" && w[|w| - 1] == '$'
  {
    var j :| 0 <= j <= |w| && AtomLanguage(atoms[0], w[..j]) && Language(atoms[1..], w[j..]);
    if |atoms| == 1 {
      assert w == w[..j] && AtomMatchesChar(true, '$', w[..j][0]);
    } else {
      WordsEndLikeLastAtom(atoms[1..], w[j..]);
    }
  }

  lemma FullMatchMeaning(regex: CString, str: CString)
    requires Parse(regex).Some?
    ensures Parse(FullPattern(regex)).Some?
    ensures var re := Parse(regex).value;
      FullMatches(regex, str) <==>
        if EndsInEscapedDollar(re) then MatchesHead(re.atoms, false, str) else Language(re.atoms, str)
  {
    FullPatternTree(regex);
    MatchesSubstringAnchored(Parse(FullPattern(regex)).value, str);
  }

  lemma EscapedDollarCounterexample(atoms: seq<Atom>) returns (str: CString)
    requires AllAtoms(atoms) && EndsInEscapedDollar(Regex(false, atoms, false))
    ensures MatchesHead(atoms, false, str) && !Language(atoms, str)
  {
    var w := HasWord(atoms);
    str := w + "x";
    assert str[..|w|] == w;
    if Language(atoms, str) {
      WordsEndLikeLastAtom(atoms, str);
      assert false;
    }
  }

  /** A string on which FullMatch and the language disagree. */
  lemma EscapedDollarFails(regex: CString) returns (str: CString)
    requires Parse(regex).Some? && EndsInEscapedDollar(Parse(regex).value)
    ensures Parse(FullPattern(regex)).Some?
    ensures FullMatches(regex, str) && !Language(Parse(regex).value.atoms, str)
  {
    ParseSound(regex);
    str := EscapedDollarCounterexample(Parse(regex).value.atoms);
    FullMatchMeaning(regex, str);
  }

  /** FullMatch decides the language of a valid pattern on every string exactly
      if the pattern does not end in an escaped '$'. */
  lemma FullMatchIffWholeString(regex: CString)
    requires Parse(regex).Some?
    ensures Parse(FullPattern(regex)).Some?
    ensures (forall str: CString :: FullMatches(regex, str) <==> Language(Parse(regex).value.atoms, str))
      <==> !EndsInEscapedDollar(Parse(regex).value)
  {
    var re := Parse(regex).value;
    FullPatternTree(regex);
    if EndsInEscapedDollar(re) {
      var str := EscapedDollarFails(regex);
    } else {
      forall str: CString
        ensures FullMatches(regex, str) <==> Language(re.atoms, str)
      {
        FullMatchMeaning(regex, str);
      }
    }
  }

  /** The pattern '\$' (an escaped dollar) is one that fails. */
  lemma EscapedDollarMatchesTooMuch()
    ensures Parse("\\$").Some? && Parse(FullPattern("\\$")).Some?
    ensures FullMatches("\\$", "$x") && !Language(Parse("\\$").value.atoms, "$x")
  {
    var re := Regex(false, [Atom(true, '$', Once)], false);
    ParsePrint(re);
    assert Print(re) == "\\$";
    FullMatchMeaning("\\$", "$x");
    assert "$x"[..1] == "$" && Language(re.atoms, "$") by {
      assert AtomLanguage(re.atoms[0], "$"[..1]) && Language(re.atoms[1..], "$"[1..]);
    }
    assert MatchesHead(re.atoms, false, "$x");
    if Language(re.atoms, "$x") {
      WordsEndLikeLastAtom(re.atoms, "$x");
      assert false;
    }
  }
}
