/**
  Failures: where assertions report to, and what the results of a run say
  about the events its listeners hear.
 */
module Outcomes {
  import opened Basics
  import opened Events

  // ----- Results ------------------------------------------------------------

  ghost predicate HasFailure(parts: seq<PartResult>) {
    exists i :: 0 <= i < |parts| && parts[i].severity != Success
  }

  ghost predicate HasFatal(parts: seq<PartResult>) {
    exists i :: 0 <= i < |parts| && parts[i].severity == FatalFailure
  }

  /** What has been reported in one test, or outside all tests. */
  class TestResult {
    var parts: seq<PartResult>

    constructor ()
      ensures parts == []
    {
      parts := [];
    }

    method AddTestPartResult(part: PartResult)
      modifies this
      ensures parts == old(parts) + [part]
    {
      parts := parts + [part];
    }

    method Failed() returns (r: bool)
      ensures r <==> HasFailure(parts)
    {
      for i := 0 to |parts|
        invariant !HasFailure(parts[..i])
      {
        if parts[i].severity != Success {
          return true;
        }
      }
      assert parts[..|parts|] == parts;
      return false;
    }

    method HasFatalFailure() returns (r: bool)
      ensures r <==> HasFatal(parts)
    {
      var count := 0;
      for i := 0 to |parts|
        invariant 0 <= count && (count > 0 <==> HasFatal(parts[..i]))
      {
        FatalAppend(parts[..i], parts[i]);
        assert parts[..i + 1] == parts[..i] + [parts[i]];
        if parts[i].severity == FatalFailure {
          count := count + 1;
        }
      }
      assert parts[..|parts|] == parts;
      return count > 0;
    }
  }

  lemma FatalAppend(parts: seq<PartResult>, part: PartResult)
    ensures HasFatal(parts + [part]) <==> HasFatal(parts) || part.severity == FatalFailure
  {
    var all := parts + [part];
    assert all[|parts|] == part;
    if HasFatal(parts) {
      var i :| 0 <= i < |parts| && parts[i].severity == FatalFailure;
      assert all[i] == parts[i];
    }
  }

  lemma FatalConcat(a: seq<PartResult>, b: seq<PartResult>)
    ensures HasFatal(a + b) <==> HasFatal(a) || HasFatal(b)
  {
    var all := a + b;
    if HasFatal(a) {
      var i :| 0 <= i < |a| && a[i].severity == FatalFailure;
      assert all[i] == a[i];
    }
    if HasFatal(b) {
      var i :| 0 <= i < |b| && b[i].severity == FatalFailure;
      assert all[|a| + i] == b[i];
    }
  }

  lemma FatalPrefix(a: seq<PartResult>, b: seq<PartResult>)
    requires a <= b && HasFatal(a)
    ensures HasFatal(b)
  {
    var i :| 0 <= i < |a| && a[i].severity == FatalFailure;
    assert b[i] == a[i];
  }

  // ----- Outside all tests --------------------------------------------------

  function AdHocOfCase<C, T>(c: CaseRun<C, T>): seq<PartResult> {
    if c.shouldRun then c.setUp + c.tearDown else []
  }

  function AdHocOfCases<C, T>(cs: seq<CaseRun<C, T>>): seq<PartResult> {
    if cs == [] then [] else AdHocOfCases(cs[..|cs| - 1]) + AdHocOfCase(cs[|cs| - 1])
  }

  /** What is reported outside all tests in an iteration. */
  function AdHocOfIteration<C, T>(r: IterationRun<C, T>): seq<PartResult> {
    if !r.hasTests then []
    else r.setUp + (if r.setUpOk then AdHocOfCases(r.cases) else []) + r.tearDown
  }

  /** What has been reported outside all tests after these iterations, when
      there was start before them. */
  function AdHocAfter<C, T>(start: seq<PartResult>, rs: seq<IterationRun<C, T>>): seq<PartResult> {
    if rs == [] then start
    else AdHocAfter(start, rs[..|rs| - 1]) + AdHocOfIteration(rs[|rs| - 1])
  }

  lemma AdHocOfCasesStep<C, T>(start: seq<PartResult>, cs: seq<CaseRun<C, T>>, k: nat)
    requires k < |cs|
    ensures start + AdHocOfCases(cs[..k]) + AdHocOfCase(cs[k]) == start + AdHocOfCases(cs[..k + 1])
  {
    assert cs[..k + 1][..k] == cs[..k];
    Associative(start, AdHocOfCases(cs[..k]), AdHocOfCase(cs[k]));
  }

  // ----- In tests -----------------------------------------------------------

  ghost predicate TestFails<T>(t: TestRun<T>) {
    t.shouldRun && HasFailure(t.parts)
  }

  ghost predicate TestsFail<T>(ts: seq<TestRun<T>>) {
    exists k :: 0 <= k < |ts| && TestFails(ts[k])
  }

  ghost predicate CaseFails<C, T>(c: CaseRun<C, T>) {
    c.shouldRun && TestsFail(c.tests)
  }

  ghost predicate CasesFail<C, T>(cs: seq<CaseRun<C, T>>) {
    exists k :: 0 <= k < |cs| && CaseFails(cs[k])
  }

  ghost predicate IterationFails<C, T>(r: IterationRun<C, T>) {
    r.hasTests && r.setUpOk && CasesFail(r.cases)
  }

  /** A case fails exactly if one of its tests that run reports a failure; what
      its set-up and tear-down report is not counted. */
  lemma CaseFailsIff<C, T>(c: CaseRun<C, T>)
    ensures CaseFails(c)
      <==> c.shouldRun && exists k, j ::
             && 0 <= k < |c.tests| && c.tests[k].shouldRun
             && 0 <= j < |c.tests[k].parts| && c.tests[k].parts[j].severity != Success
  {
    if CaseFails(c) {
      var k :| 0 <= k < |c.tests| && TestFails(c.tests[k]);
    }
    if c.shouldRun {
      if k, j :| && 0 <= k < |c.tests| && c.tests[k].shouldRun
                 && 0 <= j < |c.tests[k].parts| && c.tests[k].parts[j].severity != Success {
        assert TestFails(c.tests[k]);
      }
    }
  }

  lemma TestsFailStep<T>(ts: seq<TestRun<T>>, k: nat)
    requires k < |ts|
    ensures TestsFail(ts[..k + 1]) <==> TestsFail(ts[..k]) || TestFails(ts[k])
  {
    assert ts[..k + 1][k] == ts[k];
    assert forall i :: 0 <= i < k ==> ts[..k + 1][i] == ts[..k][i];
  }

  lemma CasesFailStep<C, T>(cs: seq<CaseRun<C, T>>, k: nat)
    requires k < |cs|
    ensures CasesFail(cs[..k + 1]) <==> CasesFail(cs[..k]) || CaseFails(cs[k])
  {
    assert cs[..k + 1][k] == cs[k];
    assert forall i :: 0 <= i < k ==> cs[..k + 1][i] == cs[..k][i];
  }

  // ----- What the listeners hear of failures --------------------------------

  ghost predicate Reports<C, T>(e: Event<C, T>) {
    e.Part? && e.result.severity != Success
  }

  /** Some assertion reports a failure among these events. */
  ghost predicate FailureIn<C, T>(events: seq<Event<C, T>>) {
    exists i :: 0 <= i < |events| && Reports(events[i])
  }

  lemma FailureConcat<C, T>(a: seq<Event<C, T>>, b: seq<Event<C, T>>)
    ensures FailureIn(a + b) <==> FailureIn(a) || FailureIn(b)
  {
    var all := a + b;
    if FailureIn(a) {
      var i :| 0 <= i < |a| && Reports(a[i]);
      assert Reports(all[i]);
    }
    if FailureIn(b) {
      var i :| 0 <= i < |b| && Reports(b[i]);
      assert Reports(all[|a| + i]);
    }
    if FailureIn(all) {
      var i :| 0 <= i < |all| && Reports(all[i]);
      assert if i < |a| then Reports(a[i]) else Reports(b[i - |a|]);
    }
  }

  lemma HasFailureConcat(a: seq<PartResult>, b: seq<PartResult>)
    ensures HasFailure(a + b) <==> HasFailure(a) || HasFailure(b)
  {
    var all := a + b;
    if HasFailure(a) {
      var i :| 0 <= i < |a| && a[i].severity != Success;
      assert all[i] == a[i];
    }
    if HasFailure(b) {
      var i :| 0 <= i < |b| && b[i].severity != Success;
      assert all[|a| + i] == b[i];
    }
  }

  lemma PartFailures<C, T>(parts: seq<PartResult>)
    ensures FailureIn(PartEvents<C, T>(parts)) <==> HasFailure(parts)
  {
    var events := PartEvents<C, T>(parts);
    if HasFailure(parts) {
      var i :| 0 <= i < |parts| && parts[i].severity != Success;
      assert Reports(events[i]);
    }
  }

  /** Starting and ending a scope reports nothing. */
  lemma WrapFailures<C, T>(s: Scope<C, T>, inner: seq<Event<C, T>>)
    ensures FailureIn([Start(s)] + inner + [End(s)]) <==> FailureIn(inner)
  {
    var start, end := [Event<C, T>.Start(s)], [Event<C, T>.End(s)];
    FailureConcat(start, inner);
    FailureConcat(start + inner, end);
  }

  lemma ScopeFailures<C, T>(s: Scope<C, T>, parts: seq<PartResult>)
    ensures FailureIn(ScopeEvents(s, parts)) <==> HasFailure(parts)
  {
    WrapFailures(s, PartEvents<C, T>(parts));
    PartFailures<C, T>(parts);
  }

  lemma {:induction false} TestsFailures<C, T>(ts: seq<TestRun<T>>)
    ensures FailureIn(TestsEvents<C, T>(ts)) <==> TestsFail(ts)
  {
    if ts != [] {
      var n := |ts| - 1;
      TestsFailures<C, T>(ts[..n]);
      ScopeFailures<C, T>(Test(ts[n].t), ts[n].parts);
      FailureConcat(TestsEvents<C, T>(ts[..n]), TestEvents<C, T>(ts[n]));
      TestsFailStep(ts, n);
      assert ts[..n + 1] == ts;
    }
  }

  lemma CaseFailures<C, T>(c: CaseRun<C, T>)
    ensures FailureIn(CaseEvents(c)) <==> CaseFails(c) || HasFailure(AdHocOfCase(c))
  {
    if c.shouldRun {
      var up, tests, down := PartEvents<C, T>(c.setUp), TestsEvents<C, T>(c.tests), PartEvents<C, T>(c.tearDown);
      WrapFailures(Case(c.c), CaseBody(c));
      FailureConcat(up, tests);
      FailureConcat(up + tests, down);
      PartFailures<C, T>(c.setUp);
      PartFailures<C, T>(c.tearDown);
      TestsFailures<C, T>(c.tests);
      HasFailureConcat(c.setUp, c.tearDown);
    }
  }

  lemma {:induction false} CasesFailures<C, T>(cs: seq<CaseRun<C, T>>)
    ensures FailureIn(CasesEvents(cs)) <==> CasesFail(cs) || HasFailure(AdHocOfCases(cs))
  {
    if cs != [] {
      var n := |cs| - 1;
      CasesFailures(cs[..n]);
      CaseFailures(cs[n]);
      FailureConcat(CasesEvents(cs[..n]), CaseEvents(cs[n]));
      HasFailureConcat(AdHocOfCases(cs[..n]), AdHocOfCase(cs[n]));
      CasesFailStep(cs, n);
      assert cs[..n + 1] == cs;
    }
  }

  lemma IterationFailures<C, T>(i: nat, r: IterationRun<C, T>)
    ensures FailureIn(IterationEvents(i, r)) <==> IterationFails(r) || HasFailure(AdHocOfIteration(r))
  {
    WrapFailures(Iteration(i), BodyEvents(r));
    if r.hasTests {
      var up, down := ScopeEvents<C, T>(SetUp, r.setUp), ScopeEvents<C, T>(TearDown, r.tearDown);
      var cases := if r.setUpOk then CasesEvents(r.cases) else [];
      var adHoc := if r.setUpOk then AdHocOfCases(r.cases) else [];
      ScopeFailures<C, T>(SetUp, r.setUp);
      ScopeFailures<C, T>(TearDown, r.tearDown);
      CasesFailures(r.cases);
      FailureConcat(up, cases);
      FailureConcat(up + cases, down);
      HasFailureConcat(r.setUp, adHoc);
      HasFailureConcat(r.setUp + adHoc, r.tearDown);
    }
  }

  /** Passed(), after iteration i: no test of the iteration has failed, and
      nothing outside the tests since the program began. */
  ghost predicate IterationPasses<C, T>(start: seq<PartResult>, rs: seq<IterationRun<C, T>>, i: nat)
    requires i < |rs|
  {
    !IterationFails(rs[i]) && !HasFailure(AdHocAfter(start, rs[..i + 1]))
  }

  ghost predicate AllPass<C, T>(start: seq<PartResult>, rs: seq<IterationRun<C, T>>) {
    forall i :: 0 <= i < |rs| ==> IterationPasses(start, rs, i)
  }

  lemma {:induction false} AdHocGrows<C, T>(start: seq<PartResult>, rs: seq<IterationRun<C, T>>, i: nat, j: nat)
    requires i <= j <= |rs|
    ensures AdHocAfter(start, rs[..i]) <= AdHocAfter(start, rs[..j])
    decreases j
  {
    if i < j {
      AdHocGrows(start, rs, i, j - 1);
      assert rs[..j][..j - 1] == rs[..j - 1];
    }
  }

  ghost predicate SomeIterationFails<C, T>(rs: seq<IterationRun<C, T>>) {
    exists i :: 0 <= i < |rs| && IterationFails(rs[i])
  }

  lemma SomeIterationFailsStep<C, T>(rs: seq<IterationRun<C, T>>, n: nat)
    requires |rs| == n + 1
    ensures SomeIterationFails(rs) <==> SomeIterationFails(rs[..n]) || IterationFails(rs[n])
  {
    assert forall i :: 0 <= i < n ==> rs[..n][i] == rs[i];
  }

  lemma HeardStep<C, T>(rs: seq<IterationRun<C, T>>, n: nat)
    requires |rs| == n + 1
    ensures FailureIn(IterationsEvents(rs)) <==>
      FailureIn(IterationsEvents(rs[..n])) || IterationFails(rs[n]) || HasFailure(AdHocOfIteration(rs[n]))
  {
    IterationFailures(n, rs[n]);
    FailureConcat(IterationsEvents(rs[..n]), IterationEvents(n, rs[n]));
  }

  lemma AdHocStep<C, T>(start: seq<PartResult>, rs: seq<IterationRun<C, T>>, n: nat)
    requires |rs| == n + 1
    ensures HasFailure(AdHocAfter(start, rs)) <==>
      HasFailure(AdHocAfter(start, rs[..n])) || HasFailure(AdHocOfIteration(rs[n]))
  {
    HasFailureConcat(AdHocAfter(start, rs[..n]), AdHocOfIteration(rs[n]));
  }

  lemma {:induction false} IterationsFailures<C, T>(start: seq<PartResult>, rs: seq<IterationRun<C, T>>)
    ensures HasFailure(start) || FailureIn(IterationsEvents(rs))
      <==> HasFailure(AdHocAfter(start, rs)) || SomeIterationFails(rs)
  {
    if rs != [] {
      var n := |rs| - 1;
      IterationsFailures(start, rs[..n]);
      HeardStep(rs, n);
      AdHocStep(start, rs, n);
      SomeIterationFailsStep(rs, n);
    }
  }

  /** All iterations pass exactly if no assertion failed before the run, and
      no listener is told of a failure during it. */
  lemma PassesIffNoFailureHeard<C, T>(start: seq<PartResult>, rs: seq<IterationRun<C, T>>)
    requires rs != []
    ensures AllPass(start, rs) <==> !HasFailure(start) && !FailureIn(ProgramEvents(rs))
  {
    var n := |rs|;
    WrapFailures(Program, IterationsEvents(rs));
    IterationsFailures(start, rs);
    assert rs[..n] == rs;
    if HasFailure(AdHocAfter(start, rs)) {
      assert !IterationPasses(start, rs, n - 1);
    } else {
      PassUnlessTestsFail(start, rs);
    }
  }

  lemma PassUnlessTestsFail<C, T>(start: seq<PartResult>, rs: seq<IterationRun<C, T>>)
    requires !HasFailure(AdHocAfter(start, rs))
    ensures forall i :: 0 <= i < |rs| ==> (IterationPasses(start, rs, i) <==> !IterationFails(rs[i]))
  {
    forall i | 0 <= i < |rs|
      ensures IterationPasses(start, rs, i) <==> !IterationFails(rs[i])
    {
      assert rs[..|rs|] == rs;
      AdHocGrows(start, rs, i + 1, |rs|);
      if HasFailure(AdHocAfter(start, rs[..i + 1])) {
        PrefixFailure(AdHocAfter(start, rs[..i + 1]), AdHocAfter(start, rs));
      }
    }
  }

  lemma PrefixFailure(a: seq<PartResult>, b: seq<PartResult>)
    requires a <= b && HasFailure(a)
    ensures HasFailure(b)
  {
    var i :| 0 <= i < |a| && a[i].severity != Success;
    assert b[i] == a[i];
  }
}
