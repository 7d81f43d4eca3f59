/**
  Where the events of a run stand: what comes first, last, and in between.
 */
module EventOrder {
  import opened Basics
  import opened Events
  import opened Outcomes

  // ----- Which listener hears an event when ---------------------------------

  lemma {:induction false} InOrderAt<C, T>(ls: seq<Listener>, e: Event<C, T>)
    ensures |InOrder(ls, e)| == |ls| && forall k :: 0 <= k < |ls| ==> InOrder(ls, e)[k] == (ls[k], e)
    decreases |ls|
  {
    if ls != [] { InOrderAt(ls[..|ls| - 1], e); }
  }

  lemma {:induction false} InReverseAt<C, T>(ls: seq<Listener>, e: Event<C, T>)
    ensures |InReverse(ls, e)| == |ls|
    ensures forall k :: 0 <= k < |ls| ==> InReverse(ls, e)[k] == (ls[|ls| - 1 - k], e)
    decreases |ls|
  {
    if ls != [] { InReverseAt(ls[..|ls| - 1], e); }
  }

  /** Each event goes to every listener once: the first in the list hears of
      starts and results first, and of ends last. */
  lemma BroadcastAt<C, T>(ls: seq<Listener>, e: Event<C, T>, k: nat)
    requires k < |ls|
    ensures |Broadcast(ls, e)| == |ls|
    ensures Broadcast(ls, e)[k] == (if e.End? then ls[|ls| - 1 - k] else ls[k], e)
  {
    InOrderAt(ls, e);
    InReverseAt(ls, e);
  }

  // ----- One scope ----------------------------------------------------------

  /** These events stand in all from position at on. */
  ghost predicate StandsAt<E>(all: seq<E>, at: int, part: seq<E>) {
    0 <= at <= at + |part| <= |all| && all[at..at + |part|] == part
  }

  /** A test that runs: its start, its results in order, and its end. */
  lemma TestAt<C, T>(t: TestRun<T>)
    requires t.shouldRun
    ensures var ev := TestEvents<C, T>(t);
      && |ev| == |t.parts| + 2 && ev[0] == Start(Test(t.t)) && ev[|ev| - 1] == End(Test(t.t))
      && forall k :: 0 <= k < |t.parts| ==> ev[1 + k] == Part(t.parts[k])
  {
  }

  /** A case that runs: its start, what its set-up reports, all its tests, what
      its tear-down reports, and its end. */
  lemma CaseAt<C, T>(c: CaseRun<C, T>)
    requires c.shouldRun
    ensures var ev := CaseEvents(c);
      var n, up, down := |ev|, |c.setUp|, |c.tearDown|;
      && n == 2 + up + |TestsEvents<C, T>(c.tests)| + down
      && ev[0] == Start(Case(c.c)) && ev[n - 1] == End(Case(c.c))
      && (forall k :: 0 <= k < up ==> ev[1 + k] == Part(c.setUp[k]))
      && (forall k :: 0 <= k < down ==> ev[n - 1 - down + k] == Part(c.tearDown[k]))
      && ev[1 + up..n - 1 - down] == TestsEvents<C, T>(c.tests)
  {
    var up, tests, down := PartEvents<C, T>(c.setUp), TestsEvents<C, T>(c.tests), PartEvents<C, T>(c.tearDown);
    var start, end := [Event<C, T>.Start(Case(c.c))], [Event<C, T>.End(Case(c.c))];
    assert CaseEvents(c) == start + (up + tests + down) + end;
    FiveParts(start, up, tests, down, end);
  }

  lemma FiveParts<E>(a: seq<E>, b: seq<E>, c: seq<E>, d: seq<E>, e: seq<E>)
    ensures var all := a + (b + c + d) + e;
      && |all| == |a| + |b| + |c| + |d| + |e|
      && all[..|a|] == a
      && all[|a|..|a| + |b|] == b
      && all[|a| + |b|..|a| + |b| + |c|] == c
      && all[|a| + |b| + |c|..|a| + |b| + |c| + |d|] == d
      && all[|a| + |b| + |c| + |d|..] == e
  {
  }

  lemma NothingRunsOtherwise<C, T>(c: CaseRun<C, T>, t: TestRun<T>, r: IterationRun<C, T>)
    ensures !t.shouldRun ==> TestEvents<C, T>(t) == []
    ensures !c.shouldRun ==> CaseEvents(c) == []
    ensures !r.hasTests ==> BodyEvents(r) == []
  {
  }

  // ----- Many tests, cases and iterations -----------------------------------

  lemma PrefixOfConcat<E>(a: seq<E>, b: seq<E>, c: seq<E>)
    requires a <= b
    ensures a <= b + c
  {
  }

  lemma {:induction false} TestsPrefix<C, T>(xs: seq<TestRun<T>>, k: nat)
    requires k <= |xs|
    ensures TestsEvents<C, T>(xs[..k]) <= TestsEvents<C, T>(xs)
    decreases |xs|
  {
    if k < |xs| {
      var front := xs[..|xs| - 1];
      TestsPrefix<C, T>(front, k);
      assert front[..k] == xs[..k];
      PrefixOfConcat(TestsEvents<C, T>(xs[..k]), TestsEvents<C, T>(front), TestEvents<C, T>(xs[|xs| - 1]));
    } else {
      assert xs[..k] == xs;
    }
  }

  /** The tests of a case come one after the other. */
  lemma TestsAt<C, T>(xs: seq<TestRun<T>>, k: nat)
    requires k < |xs|
    ensures TestsEvents<C, T>(xs[..k]) + TestEvents<C, T>(xs[k]) <= TestsEvents<C, T>(xs)
  {
    TestsEventsStep<C, T>([], xs, k);
    TestsPrefix<C, T>(xs, k + 1);
    assert [] + TestsEvents<C, T>(xs[..k]) == TestsEvents<C, T>(xs[..k]);
    assert [] + TestsEvents<C, T>(xs[..k + 1]) == TestsEvents<C, T>(xs[..k + 1]);
  }

  lemma {:induction false} CasesPrefix<C, T>(xs: seq<CaseRun<C, T>>, k: nat)
    requires k <= |xs|
    ensures CasesEvents<C, T>(xs[..k]) <= CasesEvents<C, T>(xs)
    decreases |xs|
  {
    if k < |xs| {
      var front := xs[..|xs| - 1];
      CasesPrefix<C, T>(front, k);
      assert front[..k] == xs[..k];
      PrefixOfConcat(CasesEvents<C, T>(xs[..k]), CasesEvents<C, T>(front), CaseEvents<C, T>(xs[|xs| - 1]));
    } else {
      assert xs[..k] == xs;
    }
  }

  /** So do the cases of an iteration. */
  lemma CasesAt<C, T>(xs: seq<CaseRun<C, T>>, k: nat)
    requires k < |xs|
    ensures CasesEvents<C, T>(xs[..k]) + CaseEvents<C, T>(xs[k]) <= CasesEvents<C, T>(xs)
  {
    CasesEventsStep<C, T>([], xs, k);
    CasesPrefix<C, T>(xs, k + 1);
    assert [] + CasesEvents<C, T>(xs[..k]) == CasesEvents<C, T>(xs[..k]);
    assert [] + CasesEvents<C, T>(xs[..k + 1]) == CasesEvents<C, T>(xs[..k + 1]);
  }

  lemma {:induction false} IterationsPrefix<C, T>(xs: seq<IterationRun<C, T>>, k: nat)
    requires k <= |xs|
    ensures IterationsEvents<C, T>(xs[..k]) <= IterationsEvents<C, T>(xs)
    decreases |xs|
  {
    if k < |xs| {
      var front := xs[..|xs| - 1];
      IterationsPrefix<C, T>(front, k);
      assert front[..k] == xs[..k];
      PrefixOfConcat(IterationsEvents<C, T>(xs[..k]), IterationsEvents<C, T>(front),
                     IterationEvents<C, T>(|xs| - 1, xs[|xs| - 1]));
    } else {
      assert xs[..k] == xs;
    }
  }

  /** And the iterations, each with its number. */
  lemma IterationsAt<C, T>(xs: seq<IterationRun<C, T>>, k: nat)
    requires k < |xs|
    ensures IterationsEvents<C, T>(xs[..k]) + IterationEvents<C, T>(k, xs[k]) <= IterationsEvents<C, T>(xs)
  {
    IterationsEventsStep<C, T>([], xs, k);
    IterationsPrefix<C, T>(xs, k + 1);
    assert [] + IterationsEvents<C, T>(xs[..k]) == IterationsEvents<C, T>(xs[..k]);
    assert [] + IterationsEvents<C, T>(xs[..k + 1]) == IterationsEvents<C, T>(xs[..k + 1]);
  }

  /** The program's start and end are the first and the last event. */
  lemma ProgramAt<C, T>(rs: seq<IterationRun<C, T>>)
    ensures var ev := ProgramEvents(rs);
      && |ev| == |IterationsEvents(rs)| + 2
      && ev[0] == Start(Program) && ev[|ev| - 1] == End(Program)
      && ev[1..|ev| - 1] == IterationsEvents(rs) && OpenEvents(rs) == ev[..|ev| - 1]
  {
  }

  // ----- An iteration -------------------------------------------------------

  lemma ScopeLength<C, T>(s: Scope<C, T>, parts: seq<PartResult>)
    ensures |ScopeEvents(s, parts)| == |parts| + 2
    ensures ScopeEvents(s, parts)[0] == Start(s) && ScopeEvents(s, parts)[|parts| + 1] == End(s)
    ensures forall k :: 0 <= k < |parts| ==> ScopeEvents(s, parts)[1 + k] == Part(parts[k])
  {
  }

  function UpEvents<C, T>(r: IterationRun<C, T>): seq<Event<C, T>> {
    ScopeEvents(SetUp, r.setUp)
  }

  function DownEvents<C, T>(r: IterationRun<C, T>): seq<Event<C, T>> {
    ScopeEvents(TearDown, r.tearDown)
  }

  lemma IterationParts<C, T>(i: nat, r: IterationRun<C, T>)
    requires r.hasTests
    ensures IterationEvents(i, r)
      == [Start(Iteration(i))]
         + (UpEvents(r) + (if r.setUpOk then CasesEvents(r.cases) else []) + DownEvents(r)) + [End(Iteration(i))]
  {
  }

  /** An iteration with tests: its start, the environments' set-up, the cases if
      that went well, the environments' tear-down, and its end. */
  lemma IterationAt<C, T>(i: nat, r: IterationRun<C, T>)
    requires r.hasTests
    ensures var ev, up, down := IterationEvents(i, r), UpEvents(r), DownEvents(r);
      var n := |ev|;
      && n >= |up| + |down| + 2
      && ev[..1] == [Start(Iteration(i))] && ev[n - 1..] == [End(Iteration(i))]
      && ev[1..1 + |up|] == up && ev[n - 1 - |down|..n - 1] == down
      && ev[1 + |up|..n - 1 - |down|] == if r.setUpOk then CasesEvents(r.cases) else []
  {
    var start, end := [Event<C, T>.Start(Iteration(i))], [Event<C, T>.End(Iteration(i))];
    IterationParts(i, r);
    FiveParts(start, UpEvents(r), if r.setUpOk then CasesEvents(r.cases) else [], DownEvents(r), end);
  }

  // No case starts before the environments are set up, or once they are being
  // torn down.

  ghost predicate StartsCase<C, T>(e: Event<C, T>) {
    e.Start? && e.scope.Case?
  }

  ghost predicate NoneStartsCase<C, T>(events: seq<Event<C, T>>) {
    forall k :: 0 <= k < |events| ==> !StartsCase(events[k])
  }

  lemma ScopeStartsNoCase<C, T>(s: Scope<C, T>, parts: seq<PartResult>)
    requires !s.Case?
    ensures NoneStartsCase(ScopeEvents(s, parts))
  {
  }

  /** What none of four parts has must stand in the fifth. */
  lemma OnlyInTheMiddle<E>(a: seq<E>, up: seq<E>, middle: seq<E>, down: seq<E>, b: seq<E>, f: E -> bool, k: nat)
    requires forall x :: x in a || x in up || x in down || x in b ==> !f(x)
    requires var all := a + (up + middle + down) + b; k < |all| && f(all[k])
    ensures |a| + |up| <= k < |a| + |up| + |middle|
  {
    InWhichPart(a, up, middle, down, b, k);
  }

  lemma InWhichPart<E>(a: seq<E>, up: seq<E>, middle: seq<E>, down: seq<E>, b: seq<E>, k: nat)
    requires k < |a + (up + middle + down) + b|
    ensures var x := (a + (up + middle + down) + b)[k];
      if k < |a| then x in a
      else if k < |a| + |up| then x in up
      else if k < |a| + |up| + |middle| then x in middle
      else if k < |a| + |up| + |middle| + |down| then x in down
      else x in b
  {
  }

  lemma CasesBetweenEnvironments<C, T>(i: nat, r: IterationRun<C, T>, k: nat)
    requires r.hasTests && k < |IterationEvents(i, r)| && StartsCase(IterationEvents(i, r)[k])
    ensures var ev := IterationEvents(i, r);
      var up, down := |UpEvents(r)|, |ev| - 1 - |DownEvents(r)|;
      0 < up < k < down < |ev| && ev[up] == End(SetUp) && ev[down] == Start(TearDown)
  {
    var start, end := [Event<C, T>.Start(Iteration(i))], [Event<C, T>.End(Iteration(i))];
    var up, down := UpEvents(r), DownEvents(r);
    var cases := if r.setUpOk then CasesEvents(r.cases) else [];
    IterationParts(i, r);
    ScopeLength<C, T>(SetUp, r.setUp);
    ScopeLength<C, T>(TearDown, r.tearDown);
    ScopeStartsNoCase<C, T>(SetUp, r.setUp);
    ScopeStartsNoCase<C, T>(TearDown, r.tearDown);
    OnlyInTheMiddle(start, up, cases, down, end, (e: Event<C, T>) => e.Start? && e.scope.Case?, k);
    EnvironmentEnds(start, up, cases, down, end);
  }

  lemma EnvironmentEnds<E>(a: seq<E>, up: seq<E>, middle: seq<E>, down: seq<E>, b: seq<E>)
    requires |a| == 1 && up != [] && down != []
    ensures var all := a + (up + middle + down) + b;
      && all[|up|] == up[|up| - 1]
      && all[|all| - |b| - |down|] == down[0]
  {
    var all := a + (up + middle + down) + b;
    FiveParts(a, up, middle, down, b);
    PartAt(all, 1, up);
    PartAt(all, 1 + |up| + |middle|, down);
  }

  lemma PartAt<E>(all: seq<E>, at: nat, part: seq<E>)
    requires StandsAt(all, at, part)
    ensures forall k :: 0 <= k < |part| ==> all[at + k] == part[k]
  {
    forall k | 0 <= k < |part|
      ensures all[at + k] == part[k]
    {
      assert all[at..at + |part|][k] == part[k];
    }
  }

  // ----- What is reported outside the tests ---------------------------------

  function InTestAfter<C, T>(events: seq<Event<C, T>>, inTest: bool): bool {
    if events == [] then inTest
    else
      var before := InTestAfter(events[..|events| - 1], inTest);
      match events[|events| - 1]
      case Start(s) => before || s.Test?
      case End(s) => before && !s.Test?
      case Part(_) => before
  }

  /** The results among the events that come while no test is open. */
  function OutsideParts<C, T>(events: seq<Event<C, T>>, inTest: bool): seq<PartResult> {
    if events == [] then []
    else
      var front, e := events[..|events| - 1], events[|events| - 1];
      OutsideParts(front, inTest) + if e.Part? && !InTestAfter(front, inTest) then [e.result] else []
  }

  lemma {:induction false} OutsideConcat<C, T>(a: seq<Event<C, T>>, b: seq<Event<C, T>>, inTest: bool)
    ensures InTestAfter(a + b, inTest) == InTestAfter(b, InTestAfter(a, inTest))
    ensures OutsideParts(a + b, inTest) == OutsideParts(a, inTest) + OutsideParts(b, InTestAfter(a, inTest))
    decreases |b|
  {
    if b == [] {
      assert a + b == a;
    } else {
      var c := b[..|b| - 1];
      OutsideConcat(a, c, inTest);
      LastOfConcat(a, b);
    }
  }

  lemma LastOfConcat<E>(a: seq<E>, b: seq<E>)
    requires b != []
    ensures var all := a + b;
      all != [] && all[..|all| - 1] == a + b[..|b| - 1] && all[|all| - 1] == b[|b| - 1]
  {
  }

  lemma {:induction false} OutsideOfParts<C, T>(parts: seq<PartResult>, inTest: bool)
    ensures InTestAfter(PartEvents<C, T>(parts), inTest) == inTest
    ensures OutsideParts(PartEvents<C, T>(parts), inTest) == if inTest then [] else parts
    decreases |parts|
  {
    if parts != [] {
      var n := |parts| - 1;
      OutsideOfParts<C, T>(parts[..n], inTest);
      assert PartEvents<C, T>(parts)[..n] == PartEvents<C, T>(parts[..n]);
      assert parts == parts[..n] + [parts[n]];
    }
  }

  lemma OutsideOfOne<C, T>(e: Event<C, T>, inTest: bool)
    requires !e.Part?
    ensures OutsideParts([e], inTest) == []
    ensures InTestAfter([e], inTest) == if e.Start? then inTest || e.scope.Test? else inTest && !e.scope.Test?
  {
    var one := [e];
    assert one[..0] == [];
  }

  /** A scope reports what is reported in it, unless it is a test. */
  lemma OutsideOfScope<C, T>(s: Scope<C, T>, inner: seq<Event<C, T>>)
    requires InTestAfter(inner, s.Test?) == s.Test?
    ensures !InTestAfter([Start(s)] + inner + [End(s)], false)
    ensures OutsideParts([Start(s)] + inner + [End(s)], false) == OutsideParts(inner, s.Test?)
  {
    var start, end := [Event<C, T>.Start(s)], [Event<C, T>.End(s)];
    OutsideOfOne(start[0], false);
    OutsideOfOne(end[0], s.Test?);
    OutsideConcat(start, inner, false);
    OutsideConcat(start + inner, end, false);
    assert [] + OutsideParts(inner, s.Test?) + [] == OutsideParts(inner, s.Test?);
  }

  lemma OutsideOfScopeEvents<C, T>(s: Scope<C, T>, parts: seq<PartResult>)
    ensures !InTestAfter(ScopeEvents(s, parts), false)
    ensures OutsideParts(ScopeEvents(s, parts), false) == if s.Test? then [] else parts
  {
    OutsideOfParts<C, T>(parts, s.Test?);
    OutsideOfScope(s, PartEvents<C, T>(parts));
  }

  lemma {:induction false} OutsideOfTests<C, T>(ts: seq<TestRun<T>>)
    ensures !InTestAfter(TestsEvents<C, T>(ts), false) && OutsideParts(TestsEvents<C, T>(ts), false) == []
    decreases |ts|
  {
    if ts != [] {
      var n := |ts| - 1;
      OutsideOfTests<C, T>(ts[..n]);
      OutsideOfScopeEvents<C, T>(Test(ts[n].t), ts[n].parts);
      OutsideConcat(TestsEvents<C, T>(ts[..n]), TestEvents<C, T>(ts[n]), false);
    }
  }

  lemma OutsideOfCase<C, T>(c: CaseRun<C, T>)
    ensures !InTestAfter(CaseEvents(c), false) && OutsideParts(CaseEvents(c), false) == AdHocOfCase(c)
  {
    if c.shouldRun {
      var up, tests, down := PartEvents<C, T>(c.setUp), TestsEvents<C, T>(c.tests), PartEvents<C, T>(c.tearDown);
      OutsideOfParts<C, T>(c.setUp, false);
      OutsideOfTests<C, T>(c.tests);
      OutsideOfParts<C, T>(c.tearDown, false);
      OutsideConcat(up, tests, false);
      OutsideConcat(up + tests, down, false);
      assert c.setUp + [] + c.tearDown == c.setUp + c.tearDown;
      OutsideOfScope(Case(c.c), CaseBody(c));
    }
  }

  lemma {:induction false} OutsideOfCases<C, T>(cs: seq<CaseRun<C, T>>)
    ensures !InTestAfter(CasesEvents(cs), false) && OutsideParts(CasesEvents(cs), false) == AdHocOfCases(cs)
    decreases |cs|
  {
    if cs != [] {
      var n := |cs| - 1;
      OutsideOfCases(cs[..n]);
      OutsideOfCase(cs[n]);
      OutsideConcat(CasesEvents(cs[..n]), CaseEvents(cs[n]), false);
    }
  }

  /** What an iteration leaves in the result outside all tests is what the
      listeners hear while no test is open, in that order. */
  lemma OutsideOfIteration<C, T>(i: nat, r: IterationRun<C, T>)
    ensures OutsideParts(IterationEvents(i, r), false) == AdHocOfIteration(r)
  {
    if r.hasTests {
      var cases := if r.setUpOk then CasesEvents(r.cases) else [];
      OutsideOfScopeEvents<C, T>(SetUp, r.setUp);
      OutsideOfCases(r.cases);
      OutsideOfScopeEvents<C, T>(TearDown, r.tearDown);
      OutsideConcat(UpEvents(r), cases, false);
      OutsideConcat(UpEvents(r) + cases, DownEvents(r), false);
    }
    OutsideOfScope(Iteration(i), BodyEvents(r));
  }
}
