/**
  The events of a test run: scopes that open and close, sent to listeners in
  order when they open and in reverse order when they close.
 */
module Events {
  import opened Basics

  datatype Scope<C, T> =
    | Program
    | Iteration(i: nat)
    | SetUp
    | TearDown
    | Case(c: C)
    | Test(t: T)

  datatype Severity = Success | NonFatalFailure | FatalFailure

  /** What an assertion reports. */
  datatype PartResult = PartResult(severity: Severity, message: string)

  datatype Event<C, T> =
    | Start(scope: Scope<C, T>)
    | End(scope: Scope<C, T>)
    | Part(result: PartResult)

  type Listener = nat

  type Entry<C, T> = (Listener, Event<C, T>)

  // ----- Sending to the listeners -------------------------------------------

  /** One event, to the listeners in order. */
  function InOrder<C, T>(ls: seq<Listener>, e: Event<C, T>): seq<Entry<C, T>> {
    if ls == [] then [] else InOrder(ls[..|ls| - 1], e) + [(ls[|ls| - 1], e)]
  }

  /** One event, to the listeners in reverse order. */
  function InReverse<C, T>(ls: seq<Listener>, e: Event<C, T>): seq<Entry<C, T>> {
    if ls == [] then [] else [(ls[|ls| - 1], e)] + InReverse(ls[..|ls| - 1], e)
  }

  function Broadcast<C, T>(ls: seq<Listener>, e: Event<C, T>): seq<Entry<C, T>> {
    if e.End? then InReverse(ls, e) else InOrder(ls, e)
  }

  function Trace<C, T>(ls: seq<Listener>, events: seq<Event<C, T>>): seq<Entry<C, T>> {
    if events == [] then []
    else Trace(ls, events[..|events| - 1]) + Broadcast(ls, events[|events| - 1])
  }

  lemma TraceAppend<C, T>(ls: seq<Listener>, a: seq<Event<C, T>>, e: Event<C, T>)
    ensures Trace(ls, a + [e]) == Trace(ls, a) + Broadcast(ls, e)
  {
    assert (a + [e])[..|a|] == a;
  }

  // ----- What a run sends ---------------------------------------------------

  datatype TestRun<T> = TestRun(t: T, shouldRun: bool, parts: seq<PartResult>)

  /** A test case and its tests, in the order they run in, with what is
      reported while the case is set up and torn down. */
  datatype CaseRun<C, T> =
    CaseRun(c: C, shouldRun: bool, setUp: seq<PartResult>, tests: seq<TestRun<T>>, tearDown: seq<PartResult>)

  /** One iteration: is there anything to run, what do the environments report
      when they are set up, does that let the tests run, the test cases in the
      order they run in, and what do the environments report in the end. */
  datatype IterationRun<C, T> =
    IterationRun(hasTests: bool, setUp: seq<PartResult>, setUpOk: bool, cases: seq<CaseRun<C, T>>,
                 tearDown: seq<PartResult>)

  function PartEvents<C, T>(parts: seq<PartResult>): (r: seq<Event<C, T>>) {
    seq(|parts|, i requires 0 <= i < |parts| => Part(parts[i]))
  }

  function ScopeEvents<C, T>(s: Scope<C, T>, parts: seq<PartResult>): seq<Event<C, T>> {
    [Start(s)] + PartEvents(parts) + [End(s)]
  }

  function TestEvents<C, T>(t: TestRun<T>): seq<Event<C, T>> {
    if !t.shouldRun then [] else ScopeEvents(Test(t.t), t.parts)
  }

  function TestsEvents<C, T>(ts: seq<TestRun<T>>): seq<Event<C, T>> {
    if ts == [] then [] else TestsEvents(ts[..|ts| - 1]) + TestEvents(ts[|ts| - 1])
  }

  function CaseBody<C, T>(c: CaseRun<C, T>): seq<Event<C, T>> {
    PartEvents(c.setUp) + TestsEvents(c.tests) + PartEvents(c.tearDown)
  }

  function CaseEvents<C, T>(c: CaseRun<C, T>): seq<Event<C, T>> {
    if !c.shouldRun then []
    else [Start(Case(c.c))] + CaseBody(c) + [End(Case(c.c))]
  }

  function CasesEvents<C, T>(cs: seq<CaseRun<C, T>>): seq<Event<C, T>> {
    if cs == [] then [] else CasesEvents(cs[..|cs| - 1]) + CaseEvents(cs[|cs| - 1])
  }

  function BodyEvents<C, T>(r: IterationRun<C, T>): seq<Event<C, T>> {
    if !r.hasTests then []
    else
      ScopeEvents(SetUp, r.setUp) + (if r.setUpOk then CasesEvents(r.cases) else [])
      + ScopeEvents(TearDown, r.tearDown)
  }

  function IterationEvents<C, T>(i: nat, r: IterationRun<C, T>): seq<Event<C, T>> {
    [Start(Iteration(i))] + BodyEvents(r) + [End(Iteration(i))]
  }

  function IterationsEvents<C, T>(rs: seq<IterationRun<C, T>>): seq<Event<C, T>> {
    if rs == [] then []
    else IterationsEvents(rs[..|rs| - 1]) + IterationEvents(|rs| - 1, rs[|rs| - 1])
  }

  /** What has been sent after these iterations, if there are more to come. */
  function OpenEvents<C, T>(rs: seq<IterationRun<C, T>>): seq<Event<C, T>> {
    [Start(Program)] + IterationsEvents(rs)
  }

  function ProgramEvents<C, T>(rs: seq<IterationRun<C, T>>): seq<Event<C, T>> {
    OpenEvents(rs) + [End(Program)]
  }

  // Extending what has been sent by one more test, case or iteration.

  lemma TestsEventsStep<C, T>(base: seq<Event<C, T>>, ts: seq<TestRun<T>>, k: nat)
    requires k < |ts|
    ensures base + TestsEvents(ts[..k]) + TestEvents(ts[k]) == base + TestsEvents(ts[..k + 1])
  {
    assert ts[..k + 1][..k] == ts[..k];
    Associative(base, TestsEvents(ts[..k]), TestEvents(ts[k]));
  }

  lemma CasesEventsStep<C, T>(base: seq<Event<C, T>>, cs: seq<CaseRun<C, T>>, k: nat)
    requires k < |cs|
    ensures base + CasesEvents(cs[..k]) + CaseEvents(cs[k]) == base + CasesEvents(cs[..k + 1])
  {
    assert cs[..k + 1][..k] == cs[..k];
    Associative(base, CasesEvents(cs[..k]), CaseEvents(cs[k]));
  }

  lemma IterationsEventsStep<C, T>(base: seq<Event<C, T>>, rs: seq<IterationRun<C, T>>, k: nat)
    requires k < |rs|
    ensures base + IterationsEvents(rs[..k]) + IterationEvents(k, rs[k]) == base + IterationsEvents(rs[..k + 1])
  {
    assert rs[..k + 1][..k] == rs[..k];
    Associative(base, IterationsEvents(rs[..k]), IterationEvents(k, rs[k]));
  }

  // ----- Brackets -----------------------------------------------------------

  datatype Stack<+S> = Bad | Open(scopes: seq<S>)

  /** What may open directly inside what: tests in cases, cases and the
      environments in iterations, iterations in the program. */
  predicate MayOpen<C, T>(scopes: seq<Scope<C, T>>, s: Scope<C, T>) {
    match s
    case Program => scopes == []
    case Iteration(_) => scopes != [] && scopes[|scopes| - 1].Program?
    case SetUp | TearDown | Case(_) => scopes != [] && scopes[|scopes| - 1].Iteration?
    case Test(_) => scopes != [] && scopes[|scopes| - 1].Case?
  }

  /** Where assertions may report: in tests, test cases and environments. */
  predicate MayReport<C, T>(scopes: seq<Scope<C, T>>) {
    && scopes != []
    && var s := scopes[|scopes| - 1]; s.Test? || s.Case? || s.SetUp? || s.TearDown?
  }

  /** Reads one event with the given scopes open: a scope opens only where it
      may, only the innermost scope closes, and results come where they may. */
  function NestStep<C(==), T(==)>(st: Stack<Scope<C, T>>, e: Event<C, T>): Stack<Scope<C, T>> {
    match st
    case Bad => Bad
    case Open(scopes) =>
      var n := |scopes|;
      match e
      case Start(s) => if MayOpen(scopes, s) then Open(scopes + [s]) else Bad
      case End(s) => if n > 0 && scopes[n - 1] == s then Open(scopes[..n - 1]) else Bad
      case Part(_) => if MayReport(scopes) then st else Bad
  }

  function Nest<C(==), T(==)>(st: Stack<Scope<C, T>>, events: seq<Event<C, T>>): Stack<Scope<C, T>> {
    if events == [] then st else NestStep(Nest(st, events[..|events| - 1]), events[|events| - 1])
  }

  /** Reads one entry of a trace, where every listener opens and closes its
      own scope: only the innermost of all may close. */
  function BracketStep<C(==), T(==)>(st: Stack<(Listener, Scope<C, T>)>, e: Entry<C, T>)
    : Stack<(Listener, Scope<C, T>)>
  {
    match st
    case Bad => Bad
    case Open(scopes) =>
      var n := |scopes|;
      match e.1
      case Start(s) => Open(scopes + [(e.0, s)])
      case End(s) => if n > 0 && scopes[n - 1] == (e.0, s) then Open(scopes[..n - 1]) else Bad
      case Part(_) => st
  }

  function Brackets<C(==), T(==)>(st: Stack<(Listener, Scope<C, T>)>, trace: seq<Entry<C, T>>)
    : Stack<(Listener, Scope<C, T>)>
  {
    if trace == [] then st else BracketStep(Brackets(st, trace[..|trace| - 1]), trace[|trace| - 1])
  }

  lemma {:induction false} NestConcat<C, T>(st: Stack<Scope<C, T>>, a: seq<Event<C, T>>, b: seq<Event<C, T>>)
    ensures Nest(st, a + b) == Nest(Nest(st, a), b)
  {
    if b == [] {
      assert a + b == a;
    } else {
      NestConcat(st, a, b[..|b| - 1]);
      assert (a + b)[..|a + b| - 1] == a + b[..|b| - 1];
    }
  }

  lemma {:induction false} BracketsConcat<C, T>(st: Stack<(Listener, Scope<C, T>)>,
                                                a: seq<Entry<C, T>>, b: seq<Entry<C, T>>)
    ensures Brackets(st, a + b) == Brackets(Brackets(st, a), b)
  {
    if b == [] {
      assert a + b == a;
    } else {
      BracketsConcat(st, a, b[..|b| - 1]);
      assert (a + b)[..|a + b| - 1] == a + b[..|b| - 1];
    }
  }

  // ----- The events of a run nest -------------------------------------------

  /** Events that leave the open scopes as they found them. */
  ghost predicate Closed<C, T>(scopes: seq<Scope<C, T>>, events: seq<Event<C, T>>) {
    Nest(Open(scopes), events) == Open(scopes)
  }

  lemma ClosedConcat<C, T>(scopes: seq<Scope<C, T>>, a: seq<Event<C, T>>, b: seq<Event<C, T>>)
    requires Closed(scopes, a) && Closed(scopes, b)
    ensures Closed(scopes, a + b)
  {
    NestConcat(Open(scopes), a, b);
  }

  /** Closed events stay closed when wrapped in a scope that may open here. */
  lemma ClosedWrap<C, T>(scopes: seq<Scope<C, T>>, s: Scope<C, T>, inner: seq<Event<C, T>>)
    requires MayOpen(scopes, s) && Closed(scopes + [s], inner)
    ensures Closed(scopes, [Start(s)] + inner + [End(s)])
  {
    var all := [Start(s)] + inner;
    assert [Start(s)][..0] == [];
    assert Nest(Open(scopes), [Start(s)]) == Open(scopes + [s]);
    NestConcat(Open(scopes), [Start(s)], inner);
    assert (all + [End(s)])[..|all|] == all;
    assert (scopes + [s])[..|scopes|] == scopes;
  }

  lemma {:induction false} PartsClosed<C, T>(scopes: seq<Scope<C, T>>, parts: seq<PartResult>)
    requires MayReport(scopes)
    ensures Closed(scopes, PartEvents<C, T>(parts))
    decreases |parts|
  {
    if parts != [] {
      var n := |parts| - 1;
      PartsClosed(scopes, parts[..n]);
      assert PartEvents<C, T>(parts)[..n] == PartEvents<C, T>(parts[..n]);
    }
  }

  lemma ScopeClosed<C, T>(scopes: seq<Scope<C, T>>, s: Scope<C, T>, parts: seq<PartResult>)
    requires MayOpen(scopes, s) && MayReport([s])
    ensures Closed(scopes, ScopeEvents(s, parts))
  {
    PartsClosed(scopes + [s], parts);
    ClosedWrap(scopes, s, PartEvents<C, T>(parts));
  }

  lemma {:induction false} TestsClosed<C, T>(scopes: seq<Scope<C, T>>, ts: seq<TestRun<T>>)
    requires scopes != [] && scopes[|scopes| - 1].Case?
    ensures Closed(scopes, TestsEvents<C, T>(ts))
    decreases |ts|
  {
    if ts != [] {
      var n := |ts| - 1;
      TestsClosed(scopes, ts[..n]);
      ScopeClosed(scopes, Test(ts[n].t), ts[n].parts);
      ClosedConcat(scopes, TestsEvents<C, T>(ts[..n]), TestEvents<C, T>(ts[n]));
    }
  }

  lemma CaseBodyClosed<C, T>(scopes: seq<Scope<C, T>>, c: CaseRun<C, T>)
    requires scopes != [] && scopes[|scopes| - 1].Case?
    ensures Closed(scopes, CaseBody(c))
  {
    PartsClosed(scopes, c.setUp);
    TestsClosed(scopes, c.tests);
    PartsClosed(scopes, c.tearDown);
    ClosedConcat(scopes, PartEvents<C, T>(c.setUp), TestsEvents<C, T>(c.tests));
    ClosedConcat(scopes, PartEvents<C, T>(c.setUp) + TestsEvents<C, T>(c.tests), PartEvents<C, T>(c.tearDown));
  }

  lemma {:induction false} CasesClosed<C, T>(scopes: seq<Scope<C, T>>, cs: seq<CaseRun<C, T>>)
    requires scopes != [] && scopes[|scopes| - 1].Iteration?
    ensures Closed(scopes, CasesEvents(cs))
    decreases |cs|
  {
    if cs != [] {
      var n := |cs| - 1;
      CasesClosed(scopes, cs[..n]);
      CaseBodyClosed(scopes + [Case(cs[n].c)], cs[n]);
      ClosedWrap(scopes, Case(cs[n].c), CaseBody(cs[n]));
      ClosedConcat(scopes, CasesEvents(cs[..n]), CaseEvents(cs[n]));
    }
  }

  lemma BodyClosed<C, T>(scopes: seq<Scope<C, T>>, r: IterationRun<C, T>)
    requires scopes != [] && scopes[|scopes| - 1].Iteration?
    ensures Closed(scopes, BodyEvents(r))
  {
    if r.hasTests {
      var up, down := ScopeEvents<C, T>(SetUp, r.setUp), ScopeEvents<C, T>(TearDown, r.tearDown);
      var cases := if r.setUpOk then CasesEvents(r.cases) else [];
      CasesClosed(scopes, r.cases);
      ScopeClosed(scopes, SetUp, r.setUp);
      ScopeClosed(scopes, TearDown, r.tearDown);
      ClosedConcat(scopes, up, cases);
      ClosedConcat(scopes, up + cases, down);
    }
  }

  lemma {:induction false} IterationsClosed<C, T>(rs: seq<IterationRun<C, T>>)
    ensures Closed([Program], IterationsEvents(rs))
    decreases |rs|
  {
    if rs != [] {
      var n := |rs| - 1;
      var scopes: seq<Scope<C, T>> := [Program];
      IterationsClosed(rs[..n]);
      BodyClosed(scopes + [Iteration(n)], rs[n]);
      ClosedWrap(scopes, Iteration(n), BodyEvents(rs[n]));
      ClosedConcat(scopes, IterationsEvents(rs[..n]), IterationEvents(n, rs[n]));
    }
  }

  /** The whole run nests: program, iterations, environments and test cases,
      tests, and results, every scope closed in its place. */
  lemma ProgramNests<C, T>(rs: seq<IterationRun<C, T>>)
    ensures Closed([], ProgramEvents(rs))
  {
    IterationsClosed(rs);
    assert [] + [Scope<C, T>.Program] == [Program];
    ClosedWrap([], Program, IterationsEvents(rs));
  }

  // ----- So does the trace of every listener list ---------------------------

  /** The listeners' scopes when the given scopes are open. */
  ghost function Opened<C, T>(ls: seq<Listener>, scopes: seq<Scope<C, T>>): seq<(Listener, Scope<C, T>)> {
    if scopes == [] then [] else Opened(ls, scopes[..|scopes| - 1]) + Pairs(ls, scopes[|scopes| - 1])
  }

  ghost function Pairs<C, T>(ls: seq<Listener>, s: Scope<C, T>): (r: seq<(Listener, Scope<C, T>)>)
    ensures |r| == |ls| && forall i :: 0 <= i < |ls| ==> r[i] == (ls[i], s)
  {
    seq(|ls|, i requires 0 <= i < |ls| => (ls[i], s))
  }

  lemma {:induction false} StartsOpen<C, T>(ls: seq<Listener>, s: Scope<C, T>, base: seq<(Listener, Scope<C, T>)>)
    ensures Brackets(Open(base), InOrder(ls, Start(s))) == Open(base + Pairs(ls, s))
    decreases |ls|
  {
    if ls == [] {
      assert base + Pairs(ls, s) == base;
    } else {
      var n := |ls| - 1;
      StartsOpen(ls[..n], s, base);
      var head, e := InOrder(ls[..n], Start(s)), (ls[n], Event<C, T>.Start(s));
      assert (head + [e])[..|head|] == head;
      assert base + Pairs(ls[..n], s) + [(ls[n], s)] == base + Pairs(ls, s);
    }
  }

  lemma {:induction false} EndsClose<C, T>(ls: seq<Listener>, s: Scope<C, T>, base: seq<(Listener, Scope<C, T>)>)
    ensures Brackets(Open(base + Pairs(ls, s)), InReverse(ls, End(s))) == Open(base)
    decreases |ls|
  {
    if ls == [] {
      assert base + Pairs(ls, s) == base;
    } else {
      var n := |ls| - 1;
      var e := (ls[n], Event<C, T>.End(s));
      var open := base + Pairs(ls, s);
      assert open[|open| - 1] == (ls[n], s) && open[..|open| - 1] == base + Pairs(ls[..n], s);
      var one: seq<Entry<C, T>> := [e];
      assert one[..0] == [];
      assert Brackets(Open(open), one) == Open(base + Pairs(ls[..n], s));
      BracketsConcat(Open(open), one, InReverse(ls[..n], End(s)));
      EndsClose(ls[..n], s, base);
    }
  }

  lemma {:induction false} PartsKeep<C, T>(ls: seq<Listener>, r: PartResult, base: seq<(Listener, Scope<C, T>)>)
    ensures Brackets(Open(base), InOrder(ls, Event<C, T>.Part(r))) == Open(base)
    decreases |ls|
  {
    if ls != [] {
      var n := |ls| - 1;
      PartsKeep(ls[..n], r, base);
      var head := InOrder(ls[..n], Event<C, T>.Part(r));
      assert (head + [(ls[n], Part(r))])[..|head|] == head;
    }
  }

  /** Reading the trace opens and closes, per scope, all listeners in order. */
  lemma {:induction false} TraceFollowsNest<C, T>(ls: seq<Listener>, events: seq<Event<C, T>>)
    requires Nest(Open([]), events).Open?
    ensures Brackets(Open([]), Trace(ls, events)) == Open(Opened(ls, Nest(Open([]), events).scopes))
    decreases |events|
  {
    if events != [] {
      var n := |events| - 1;
      var scopes := Nest(Open([]), events[..n]).scopes;
      var e := events[n];
      TraceFollowsNest(ls, events[..n]);
      BracketsConcat(Open([]), Trace(ls, events[..n]), Broadcast(ls, e));
      match e
      case Start(s) =>
        StartsOpen(ls, s, Opened(ls, scopes));
        assert (scopes + [s])[..|scopes|] == scopes;
      case End(s) => EndsClose(ls, s, Opened(ls, scopes[..|scopes| - 1]));
      case Part(r) => PartsKeep(ls, r, Opened(ls, scopes));
    }
  }

  /** The trace of a whole run is well bracketed, whatever the listeners:
      among listeners, who hears first of an opening hears last of its end. */
  lemma RunIsWellBracketed<C, T>(ls: seq<Listener>, rs: seq<IterationRun<C, T>>)
    ensures Brackets(Open([]), Trace(ls, ProgramEvents(rs))) == Open([])
  {
    ProgramNests(rs);
    TraceFollowsNest(ls, ProgramEvents(rs));
  }

  /** Between iterations of a run that goes on, only the program is open, once
      for every listener. */
  lemma EndlessRunStaysOpen<C, T>(ls: seq<Listener>, rs: seq<IterationRun<C, T>>)
    ensures Brackets(Open([]), Trace(ls, OpenEvents(rs))) == Open(Pairs(ls, Scope<C, T>.Program))
  {
    var start := [Event<C, T>.Start(Program)];
    var program := [Scope<C, T>.Program];
    assert start[..0] == [] && [] + program == program;
    assert Nest(Open([]), start) == Open(program);
    IterationsClosed(rs);
    NestConcat(Open([]), start, IterationsEvents(rs));
    TraceFollowsNest(ls, OpenEvents(rs));
    assert program[..0] == [] && [] + Pairs(ls, Scope<C, T>.Program) == Pairs(ls, Scope<C, T>.Program);
  }

  // ----- Every listener hears everything ------------------------------------

  function HeardBy<C, T>(l: Listener, trace: seq<Entry<C, T>>): seq<Event<C, T>> {
    if trace == [] then []
    else
      var n := |trace| - 1;
      HeardBy(l, trace[..n]) + if trace[n].0 == l then [trace[n].1] else []
  }

  lemma {:induction false} HeardConcat<C, T>(l: Listener, a: seq<Entry<C, T>>, b: seq<Entry<C, T>>)
    ensures HeardBy(l, a + b) == HeardBy(l, a) + HeardBy(l, b)
  {
    if b == [] {
      assert a + b == a;
    } else {
      HeardConcat(l, a, b[..|b| - 1]);
      assert (a + b)[..|a + b| - 1] == a + b[..|b| - 1];
    }
  }

  /** What l hears of an event that goes to all of ls. */
  function Heard<C, T>(l: Listener, ls: seq<Listener>, e: Event<C, T>): seq<Event<C, T>> {
    if l in ls then [e] else []
  }

  lemma HeardLast<C, T>(l: Listener, ls: seq<Listener>, e: Event<C, T>)
    requires ls != [] && NoDuplicates(ls)
    ensures var n := |ls| - 1;
      && NoDuplicates(ls[..n])
      && HeardBy(l, [(ls[n], e)]) == (if ls[n] == l then [e] else [])
      && Heard(l, ls, e) == Heard(l, ls[..n], e) + HeardBy(l, [(ls[n], e)])
      && Heard(l, ls, e) == HeardBy(l, [(ls[n], e)]) + Heard(l, ls[..n], e)
  {
    var n := |ls| - 1;
    var last: seq<Entry<C, T>> := [(ls[n], e)];
    assert last[..0] == [];
    assert ls == ls[..n] + [ls[n]];
    assert l in ls <==> l in ls[..n] || l == ls[n];
  }

  lemma {:induction false} InOrderHeardOnce<C, T>(l: Listener, ls: seq<Listener>, e: Event<C, T>)
    requires NoDuplicates(ls)
    ensures HeardBy(l, InOrder(ls, e)) == Heard(l, ls, e)
    decreases |ls|
  {
    if ls != [] {
      var n := |ls| - 1;
      HeardLast(l, ls, e);
      InOrderHeardOnce(l, ls[..n], e);
      HeardConcat(l, InOrder(ls[..n], e), [(ls[n], e)]);
    }
  }

  lemma {:induction false} InReverseHeardOnce<C, T>(l: Listener, ls: seq<Listener>, e: Event<C, T>)
    requires NoDuplicates(ls)
    ensures HeardBy(l, InReverse(ls, e)) == Heard(l, ls, e)
    decreases |ls|
  {
    if ls != [] {
      var n := |ls| - 1;
      HeardLast(l, ls, e);
      InReverseHeardOnce(l, ls[..n], e);
      HeardConcat(l, [(ls[n], e)], InReverse(ls[..n], e));
    }
  }

  lemma BroadcastHeardOnce<C, T>(l: Listener, ls: seq<Listener>, e: Event<C, T>)
    requires NoDuplicates(ls)
    ensures HeardBy(l, Broadcast(ls, e)) == Heard(l, ls, e)
  {
    InOrderHeardOnce(l, ls, e);
    InReverseHeardOnce(l, ls, e);
  }

  /** Each listener hears every event of the run exactly once and in order;
      nobody else hears anything. */
  lemma {:induction false} ListenersHearTheRun<C, T>(l: Listener, ls: seq<Listener>, events: seq<Event<C, T>>)
    requires NoDuplicates(ls)
    ensures HeardBy(l, Trace(ls, events)) == if l in ls then events else []
    decreases |events|
  {
    if events != [] {
      var n := |events| - 1;
      var front, last := Trace(ls, events[..n]), Broadcast(ls, events[n]);
      ListenersHearTheRun(l, ls, events[..n]);
      BroadcastHeardOnce(l, ls, events[n]);
      HeardConcat(l, front, last);
      assert HeardBy(l, Trace(ls, events)) == HeardBy(l, front) + Heard(l, ls, events[n]);
      if l in ls { assert events == events[..n] + [events[n]]; }
    }
  }
}
