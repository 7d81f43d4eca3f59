/**
  What shuffling cannot change: every iteration starts exactly the tests that
  are marked to run, each once, and the death test cases before the others.
 */
module RunProperties {
  import opened Events
  import opened Outcomes
  import opened Registry
  import opened RegistryModel
  import opened Runner

  // ----- Sums over index sequences ------------------------------------------

  ghost function Sum<T>(f: int -> multiset<T>, indices: seq<int>): multiset<T> {
    if indices == [] then multiset{}
    else Sum(f, indices[..|indices| - 1]) + f(indices[|indices| - 1])
  }

  lemma Regroup<T>(a: multiset<T>, b: multiset<T>, c: multiset<T>)
    ensures a + (b + c) == (a + b) + c
    ensures a + (b + c) == (a + c) + b
  {
  }

  lemma {:induction false} SumConcat<T>(f: int -> multiset<T>, a: seq<int>, b: seq<int>)
    ensures Sum(f, a + b) == Sum(f, a) + Sum(f, b)
  {
    if b == [] {
      assert a + b == a;
    } else {
      var n := |b| - 1;
      SumConcat(f, a, b[..n]);
      assert (a + b)[..|a| + n] == a + b[..n] && (a + b)[|a| + n] == b[n];
      Regroup(Sum(f, a), Sum(f, b[..n]), f(b[n]));
    }
  }

  /** Taking out an index takes out its share. */
  lemma SumWithout<T>(f: int -> multiset<T>, q: seq<int>, k: nat)
    requires k < |q|
    ensures Sum(f, q) == Sum(f, q[..k] + q[k + 1..]) + f(q[k])
  {
    var a, b := q[..k], q[k + 1..];
    assert q == q[..k + 1] + b;
    SumConcat(f, q[..k + 1], b);
    SumStep(f, q, k);
    SumConcat(f, a, b);
    Regroup(Sum(f, a), f(q[k]), Sum(f, b));
    Regroup(Sum(f, a), Sum(f, b), f(q[k]));
  }

  lemma ElementsWithout(q: seq<int>, k: nat)
    requires k < |q|
    ensures multiset(q[..k] + q[k + 1..]) == multiset(q) - multiset{q[k]}
  {
    assert q == q[..k] + [q[k]] + q[k + 1..];
  }

  /** The sum does not depend on the order of the indices. */
  lemma {:induction false} SumReordered<T>(f: int -> multiset<T>, p: seq<int>, q: seq<int>)
    requires multiset(p) == multiset(q)
    ensures Sum(f, p) == Sum(f, q)
    decreases |p|
  {
    if p == [] {
      assert |multiset(q)| == 0;
    } else {
      var n := |p| - 1;
      assert p == p[..n] + [p[n]];
      assert p[n] in multiset(q);
      var k :| 0 <= k < |q| && q[k] == p[n];
      ElementsWithout(q, k);
      SumReordered(f, p[..n], q[..k] + q[k + 1..]);
      SumWithout(f, q, k);
    }
  }

  /** A permutation of 0..n has the elements of the identity. */
  lemma PermutationElements(p: seq<int>, n: nat)
    requires IsPermutation(p, n)
    ensures multiset(p) == multiset(Identity(n))
  {
    var id := Identity(n);
    DistinctIsRange(p);
    DistinctIsRange(id);
    forall x
      ensures multiset(p)[x] == multiset(id)[x]
    {
      if 0 <= x < n {
        PermutationReaches(p, n, x);
        assert id[x] == x;
      }
      assert x in p <==> x in id;
    }
  }

  lemma SumOverPermutation<T>(f: int -> multiset<T>, p: seq<int>, n: nat)
    requires IsPermutation(p, n)
    ensures Sum(f, p) == Sum(f, Identity(n))
  {
    PermutationElements(p, n);
    SumReordered(f, p, Identity(n));
  }

  // ----- The tests that are started -----------------------------------------

  ghost function StartedBy<C, T>(e: Event<C, T>): multiset<T> {
    if e.Start? && e.scope.Test? then multiset{e.scope.t} else multiset{}
  }

  ghost function Started<C, T>(events: seq<Event<C, T>>): multiset<T> {
    if events == [] then multiset{}
    else Started(events[..|events| - 1]) + StartedBy(events[|events| - 1])
  }

  lemma StartedLast<C, T>(events: seq<Event<C, T>>, init: seq<Event<C, T>>, e: Event<C, T>)
    requires |events| == |init| + 1 && events[..|init|] == init && events[|init|] == e
    ensures Started(events) == Started(init) + StartedBy(e)
  {
  }

  lemma ConcatLast<A>(a: seq<A>, b: seq<A>)
    requires b != []
    ensures (a + b)[..|a| + |b| - 1] == a + b[..|b| - 1] && (a + b)[|a| + |b| - 1] == b[|b| - 1]
  {
  }

  lemma {:induction false} StartedConcat<C, T>(a: seq<Event<C, T>>, b: seq<Event<C, T>>)
    ensures Started(a + b) == Started(a) + Started(b)
  {
    if b == [] {
      assert a + b == a;
    } else {
      var c, e := b[..|b| - 1], b[|b| - 1];
      StartedConcat(a, c);
      ConcatLast(a, b);
      StartedLast(a + b, a + c, e);
      Regroup(Started(a), Started(c), StartedBy(e));
    }
  }

  lemma {:induction false} PartsStartNothing<C, T>(parts: seq<PartResult>)
    ensures Started(PartEvents<C, T>(parts)) == multiset{}
    decreases |parts|
  {
    if parts != [] {
      var n := |parts| - 1;
      PartsStartNothing<C, T>(parts[..n]);
      assert PartEvents<C, T>(parts)[..n] == PartEvents<C, T>(parts[..n]);
    }
  }

  lemma StartedOne<C, T>(e: Event<C, T>)
    ensures Started([e]) == StartedBy(e)
  {
    var one: seq<Event<C, T>> := [e];
    assert one[..0] == [];
  }

  /** Reporting results inside a scope starts no test but the scope itself. */
  lemma WrapStarts<C, T>(scope: Scope<C, T>, inner: seq<Event<C, T>>)
    ensures Started([Start(scope)] + inner + [End(scope)]) == StartedBy(Start(scope)) + Started(inner)
  {
    StartedOne(Event<C, T>.Start(scope));
    StartedOne(Event<C, T>.End(scope));
    StartedConcat([Event<C, T>.Start(scope)], inner);
    StartedConcat([Event<C, T>.Start(scope)] + inner, [End(scope)]);
  }

  lemma ScopeStarts<C, T>(scope: Scope<C, T>, parts: seq<PartResult>)
    ensures Started(ScopeEvents(scope, parts)) == StartedBy(Event<C, T>.Start(scope))
  {
    PartsStartNothing<C, T>(parts);
    WrapStarts(scope, PartEvents<C, T>(parts));
  }

  lemma TestStartsItself<C, T>(t: TestRun<T>)
    ensures Started(TestEvents<C, T>(t)) == if t.shouldRun then multiset{t.t} else multiset{}
  {
    ScopeStarts<C, T>(Test(t.t), t.parts);
  }

  /** The tests among these that are marked, by index. */
  ghost function Picked<T>(tests: seq<T>, marks: set<T>): int -> multiset<T> {
    j => if 0 <= j < |tests| && tests[j] in marks then multiset{tests[j]} else multiset{}
  }

  lemma SumStep<T>(f: int -> multiset<T>, indices: seq<int>, k: nat)
    requires k < |indices|
    ensures Sum(f, indices[..k + 1]) == Sum(f, indices[..k]) + f(indices[k])
  {
    assert indices[..k + 1][..k] == indices[..k];
  }

  lemma TestsStartStep<C, T>(plan: seq<TestRun<T>>, k: nat)
    requires k < |plan|
    ensures Started(TestsEvents<C, T>(plan[..k + 1])) == Started(TestsEvents<C, T>(plan[..k]))
      + if plan[k].shouldRun then multiset{plan[k].t} else multiset{}
  {
    assert plan[..k + 1][..k] == plan[..k];
    TestStartsItself<C, T>(plan[k]);
    StartedConcat(TestsEvents<C, T>(plan[..k]), TestEvents<C, T>(plan[k]));
  }

  lemma {:induction false} TestsStart<C>(c: CaseOrder<TestInfo>, marks: set<TestInfo>, code: UserCode, i: nat, k: nat)
    requires IsPermutation(c.order, |c.tests|) && k <= |c.tests|
    ensures Started(TestsEvents<C, TestInfo>(PlanTests(c, marks, code, i)[..k]))
      == Sum(Picked(c.tests, marks), c.order[..k])
  {
    if k > 0 {
      TestsStart<C>(c, marks, code, i, k - 1);
      TestsStartStep<C, TestInfo>(PlanTests(c, marks, code, i), k - 1);
      PlannedIsPicked(c, marks, code, i, k - 1);
      SumStep(Picked(c.tests, marks), c.order, k - 1);
    }
  }

  lemma PlannedIsPicked(c: CaseOrder<TestInfo>, marks: set<TestInfo>, code: UserCode, i: nat, k: nat)
    requires IsPermutation(c.order, |c.tests|) && k < |c.tests|
    ensures var t := PlanTests(c, marks, code, i)[k];
      Picked(c.tests, marks)(c.order[k]) == if t.shouldRun then multiset{t.t} else multiset{}
  {
  }

  /** The marked tests of the marked cases, by index. */
  ghost function PickedCases(cases: seq<CaseOrder<TestInfo>>, marks: Marks): int -> multiset<TestInfo>
    requires |marks.cases| == |cases|
  {
    k => if 0 <= k < |cases| && marks.cases[k]
         then Sum(Picked(cases[k].tests, marks.tests), Identity(|cases[k].tests|)) else multiset{}
  }

  lemma CaseBodyStarts<C, T>(c: CaseRun<C, T>)
    ensures Started(CaseBody(c)) == Started(TestsEvents<C, T>(c.tests))
  {
    var up, tests, down := PartEvents<C, T>(c.setUp), TestsEvents<C, T>(c.tests), PartEvents<C, T>(c.tearDown);
    PartsStartNothing<C, T>(c.setUp);
    PartsStartNothing<C, T>(c.tearDown);
    StartedConcat(up, tests);
    StartedConcat(up + tests, down);
  }

  lemma AllTestsStart<C>(view: CaseOrder<TestInfo>, marks: set<TestInfo>, code: UserCode, i: nat)
    requires IsPermutation(view.order, |view.tests|)
    ensures Started(TestsEvents<C, TestInfo>(PlanTests(view, marks, code, i)))
      == Sum(Picked(view.tests, marks), Identity(|view.tests|))
  {
    var n := |view.tests|;
    TestsStart<C>(view, marks, code, i, n);
    assert PlanTests(view, marks, code, i)[..n] == PlanTests(view, marks, code, i) && view.order[..n] == view.order;
    SumOverPermutation(Picked(view.tests, marks), view.order, n);
  }

  lemma CaseStarts(c: TestCase, view: CaseOrder<TestInfo>, shouldRun: bool, marks: set<TestInfo>, code: UserCode,
                   i: nat)
    requires IsPermutation(view.order, |view.tests|)
    ensures Started(CaseEvents(PlanCase(c, view, shouldRun, marks, code, i)))
      == if shouldRun then Sum(Picked(view.tests, marks), Identity(|view.tests|)) else multiset{}
  {
    if shouldRun {
      var plan := PlanCase(c, view, shouldRun, marks, code, i);
      AllTestsStart<TestCase>(view, marks, code, i);
      CaseBodyStarts(plan);
      WrapStarts(Case(c), CaseBody(plan));
    }
  }

  lemma {:induction false} CasesStart(cases: seq<TestCase>, s: Order<TestInfo>, marks: Marks, code: UserCode, i: nat,
                                      k: nat)
    requires |cases| == |s.cases| == |marks.cases| && Runs(s) && k <= |cases|
    ensures Started(CasesEvents(PlanCases(cases, s, marks, code, i)[..k]))
      == Sum(PickedCases(s.cases, marks), s.order[..k])
  {
    if k > 0 {
      var plan := PlanCases(cases, s, marks, code, i);
      var c := s.order[k - 1];
      CasesStart(cases, s, marks, code, i, k - 1);
      assert plan[..k][..k - 1] == plan[..k - 1] && s.order[..k][..k - 1] == s.order[..k - 1];
      CaseStarts(cases[c], s.cases[c], marks.cases[c], marks.tests, code, i);
      StartedConcat(CasesEvents(plan[..k - 1]), CaseEvents(plan[k - 1]));
    }
  }

  /** The marked tests in registration order, a multiset. */
  ghost function MarkedTests(s: Order<TestInfo>, marks: Marks): multiset<TestInfo>
    requires |marks.cases| == |s.cases|
  {
    Sum(PickedCases(s.cases, marks), Identity(|s.cases|))
  }

  lemma BodyStarts(r: IterationRun<TestCase, TestInfo>)
    ensures Started(BodyEvents(r)) == if r.hasTests && r.setUpOk then Started(CasesEvents(r.cases)) else multiset{}
  {
    if r.hasTests {
      var up := ScopeEvents<TestCase, TestInfo>(SetUp, r.setUp);
      var down := ScopeEvents<TestCase, TestInfo>(TearDown, r.tearDown);
      var cases := if r.setUpOk then CasesEvents(r.cases) else [];
      ScopeStarts<TestCase, TestInfo>(SetUp, r.setUp);
      ScopeStarts<TestCase, TestInfo>(TearDown, r.tearDown);
      StartedConcat(up, cases);
      StartedConcat(up + cases, down);
    }
  }

  lemma IterationStarts(i: nat, r: IterationRun<TestCase, TestInfo>)
    ensures Started(IterationEvents(i, r))
      == if r.hasTests && r.setUpOk then Started(CasesEvents(r.cases)) else multiset{}
  {
    BodyStarts(r);
    WrapStarts(Iteration(i), BodyEvents(r));
  }

  /** Whatever the seed, an iteration starts exactly the tests that are marked
      to run, each as often as it is registered; but none if there has been a
      fatal failure outside the tests before. */
  lemma IterationStartsMarkedTests(plan: IterationRun<TestCase, TestInfo>, cases: seq<TestCase>, s: Order<TestInfo>,
                                   deaths: iset<string>, marks: Marks, config: Config, i: nat, before: seq<PartResult>)
    requires Inv(s, deaths) && |s.cases| == |marks.cases|
    requires IsPlan(plan, cases, s, marks, config, i, before)
    ensures Started(IterationEvents(i, plan))
      == if config.hasTests && !HasFatal(before + config.code.setUp(i)) then MarkedTests(s, marks) else multiset{}
  {
    var t := OrderAt(s, config, i);
    var n := |t.cases|;
    SameTests(s, deaths, config, i);
    CasesStart(cases, t, marks, config.code, i, n);
    assert plan.cases[..n] == plan.cases && t.order[..n] == t.order;
    SumOverPermutation(PickedCases(t.cases, marks), t.order, n);
    SamePicks(s.cases, t.cases, marks, n);
    IterationStarts(i, plan);
  }

  lemma NothingStarts(plan: IterationRun<TestCase, TestInfo>, cases: seq<TestCase>, s: Order<TestInfo>,
                      marks: Marks, config: Config, i: nat, before: seq<PartResult>)
    requires IsPlan(plan, cases, s, marks, config, i, before) && HasFatal(before)
    ensures Started(IterationEvents(i, plan)) == multiset{}
  {
    FatalConcat(before, config.code.setUp(i));
    IterationStarts(i, plan);
  }

  /** An iteration with something to run, whose own environments report nothing
      fatal, runs its tests exactly if nothing fatal has been reported outside
      the tests in the iterations before. */
  lemma RunsItsTestsIff(plan: IterationRun<TestCase, TestInfo>, cases: seq<TestCase>, s: Order<TestInfo>,
                        deaths: iset<string>, marks: Marks, config: Config, i: nat, before: seq<PartResult>)
    requires Inv(s, deaths) && |s.cases| == |marks.cases| && MarkedTests(s, marks) != multiset{}
    requires IsPlan(plan, cases, s, marks, config, i, before)
    requires config.hasTests && !HasFatal(config.code.setUp(i))
    ensures Started(IterationEvents(i, plan)) == MarkedTests(s, marks) <==> !HasFatal(before)
  {
    IterationStartsMarkedTests(plan, cases, s, deaths, marks, config, i, before);
    FatalConcat(before, config.code.setUp(i));
  }

  lemma FatalNeverPasses(start: seq<PartResult>, plans: seq<IterationRun<TestCase, TestInfo>>, i: nat)
    requires i < |plans| && HasFatal(AdHocAfter(start, plans[..i]))
    ensures !AllPass(start, plans)
  {
    var after := AdHocAfter(start, plans[..i + 1]);
    AdHocGrows(start, plans, i, i + 1);
    FatalPrefix(AdHocAfter(start, plans[..i]), after);
    var k :| 0 <= k < |after| && after[k].severity == FatalFailure;
    assert after[k].severity != Success;
    assert !IterationPasses(start, plans, i);
  }

  /** Once an environment, or the set-up or tear-down of a test case, has
      reported a fatal failure, no later iteration starts any test, and the
      run as a whole fails. */
  lemma FatalFailureStopsTests(plans: seq<IterationRun<TestCase, TestInfo>>, cases: seq<TestCase>, s: Order<TestInfo>,
                               marks: Marks, config: Config, start: seq<PartResult>, i: nat, j: nat)
    requires ArePlans(plans, cases, s, marks, config, start) && i <= j < |plans|
    requires HasFatal(AdHocAfter(start, plans[..i]))
    ensures Started(IterationEvents(j, plans[j])) == multiset{} && !AllPass(start, plans)
  {
    AdHocGrows(start, plans, i, j);
    FatalPrefix(AdHocAfter(start, plans[..i]), AdHocAfter(start, plans[..j]));
    NothingStarts(plans[j], cases, s, marks, config, j, AdHocAfter(start, plans[..j]));
    FatalNeverPasses(start, plans, j);
  }

  lemma SameTests(s: Order<TestInfo>, deaths: iset<string>, config: Config, i: nat)
    requires Inv(s, deaths)
    ensures var t := OrderAt(s, config, i);
      |t.cases| == |s.cases| && forall k :: 0 <= k < |s.cases| ==> t.cases[k].tests == s.cases[k].tests
  {
    ShuffledCasesKeep(s.cases, 0, StateAfterGroups(|s.order|, s.lastDeath + 1, SeedFor(config, i)));
  }

  lemma {:induction false} SamePicks(a: seq<CaseOrder<TestInfo>>, b: seq<CaseOrder<TestInfo>>, marks: Marks, n: nat)
    requires |a| == |b| == |marks.cases| && n <= |a|
    requires forall k :: 0 <= k < |a| ==> a[k].tests == b[k].tests
    ensures Sum(PickedCases(a, marks), Identity(n)) == Sum(PickedCases(b, marks), Identity(n))
  {
    if n > 0 {
      SamePicks(a, b, marks, n - 1);
      assert Identity(n)[..n - 1] == Identity(n - 1);
    }
  }

  /** In every iteration, no death test case runs after another kind of case. */
  lemma DeathCasesFirst(plan: IterationRun<TestCase, TestInfo>, cases: seq<TestCase>, s: Order<TestInfo>,
                        deaths: iset<string>, marks: Marks, config: Config, i: nat, before: seq<PartResult>,
                        k: nat, l: nat)
    requires Inv(s, deaths) && |s.cases| == |marks.cases|
    requires IsPlan(plan, cases, s, marks, config, i, before)
    requires forall j :: 0 <= j < |cases| ==> s.cases[j].name == cases[j].name
    requires k < |plan.cases| && l < |plan.cases|
    requires plan.cases[k].c.name in deaths && plan.cases[l].c.name !in deaths
    ensures k < l
  {
    var t := OrderAt(s, config, i);
    OrderAtRuns(s, deaths, config, i);
    ShuffledCasesKeep(s.cases, 0, StateAfterGroups(|s.order|, s.lastDeath + 1, SeedFor(config, i)));
    DeathCasesRunFirst(t, deaths, k, l);
  }

  // ----- One test, two iterations -------------------------------------------

  const FATAL := PartResult(FatalFailure, "in SetUpTestCase")

  /** The set-up of test cases fails fatally, but only the first time. */
  ghost function FatalOnce(): UserCode {
    UserCode(i => [], i => [], (i, c) => if i == 0 then [FATAL] else [], (i, c) => [], (i, t) => [])
  }

  ghost function TwoRounds(): Config {
    Config(true, false, 1, 0, 2, FatalOnce())
  }

  /** One ordinary case with one test, which is to run. */
  ghost function OneTest(c: TestCase, t: TestInfo): Setting {
    Setting([c], Order([CaseOrder(c.name, [t], [0])], [0], -1), Marks([true], {t}), {t})
  }

  lemma OneTestMarked(c: TestCase, t: TestInfo)
    ensures MarkedTests(OneTest(c, t).s, OneTest(c, t).marks) == multiset{t}
  {
    var s, marks := OneTest(c, t).s, OneTest(c, t).marks;
    assert Identity(1) == [0] && [0][..0] == [];
    assert Sum(Picked([t], {t}), [0]) == Sum(Picked([t], {t}), []) + multiset{t};
    assert Sum(PickedCases(s.cases, marks), [0]) == Sum(PickedCases(s.cases, marks), []) + multiset{t};
  }

  /** What is reported outside the tests in the first round. */
  lemma FirstRoundFatal(plan: IterationRun<TestCase, TestInfo>, c: TestCase, t: TestInfo)
    requires var g := OneTest(c, t); IsPlan(plan, g.cases, g.s, g.marks, TwoRounds(), 0, [])
    ensures HasFatal(AdHocOfIteration(plan))
  {
    var one := plan.cases[0];
    assert one.shouldRun && one.setUp == [FATAL];
    assert AdHocOfCase(one)[0] == FATAL;
    assert plan.cases[..0] == [] && plan.cases == [one];
    assert AdHocOfCases(plan.cases) == [] + AdHocOfCase(one);
    assert plan.setUpOk by { assert [] + TwoRounds().code.setUp(0) == []; }
    assert AdHocOfIteration(plan)[0] == FATAL;
  }

  lemma FirstRound(c: TestCase, t: TestInfo, deaths: iset<string>) returns (plan: IterationRun<TestCase, TestInfo>)
    requires c.name !in deaths
    ensures var g := OneTest(c, t); IsPlan(plan, g.cases, g.s, g.marks, TwoRounds(), 0, [])
    ensures Started(IterationEvents(0, plan)) == multiset{t}
  {
    var g := OneTest(c, t);
    OneTestMarked(c, t);
    plan := NextPlan(g, deaths, TwoRounds(), 0, []);
    RunsItsTestsIff(plan, g.cases, g.s, deaths, g.marks, TwoRounds(), 0, []);
  }

  lemma AdHocAfterOne(plan: IterationRun<TestCase, TestInfo>)
    ensures AdHocAfter([], [plan]) == AdHocOfIteration(plan)
  {
    assert [plan][..0] == [] && [] + AdHocOfIteration(plan) == AdHocOfIteration(plan);
  }

  lemma TwoPlans(first: IterationRun<TestCase, TestInfo>, second: IterationRun<TestCase, TestInfo>, g: Setting,
                 config: Config)
    requires IsPlan(first, g.cases, g.s, g.marks, config, 0, [])
    requires IsPlan(second, g.cases, g.s, g.marks, config, 1, AdHocOfIteration(first))
    ensures ArePlans([first, second], g.cases, g.s, g.marks, config, [])
  {
    AdHocAfterOne(first);
    MorePlans([], first, g.cases, g.s, g.marks, config, []);
    assert [] + [first] == [first] && [first] + [second] == [first, second];
    MorePlans([first], second, g.cases, g.s, g.marks, config, []);
  }

  lemma SecondRound(c: TestCase, t: TestInfo, deaths: iset<string>, before: seq<PartResult>)
    returns (plan: IterationRun<TestCase, TestInfo>)
    requires c.name !in deaths && HasFatal(before)
    ensures var g := OneTest(c, t); IsPlan(plan, g.cases, g.s, g.marks, TwoRounds(), 1, before)
    ensures Started(IterationEvents(1, plan)) == multiset{}
  {
    var g := OneTest(c, t);
    plan := NextPlan(g, deaths, TwoRounds(), 1, before);
    NothingStarts(plan, g.cases, g.s, g.marks, TwoRounds(), 1, before);
  }

  lemma EnvironmentsReportNothing(i: nat)
    ensures TwoRounds().code.setUp(i) == [] && TwoRounds().code.tearDown(i) == []
  {
  }

  /** The first round starts the one test there is, and the second nothing,
      although the environments report nothing at all. */
  lemma FatalFailureExample(c: TestCase, t: TestInfo, deaths: iset<string>)
    returns (plans: seq<IterationRun<TestCase, TestInfo>>)
    requires c.name !in deaths
    ensures var g := OneTest(c, t); ArePlans(plans, g.cases, g.s, g.marks, TwoRounds(), [])
    ensures |plans| == 2
    ensures Started(IterationEvents(0, plans[0])) == multiset{t}
    ensures Started(IterationEvents(1, plans[1])) == multiset{}
  {
    var first := FirstRound(c, t, deaths);
    FirstRoundFatal(first, c, t);
    var second := SecondRound(c, t, deaths, AdHocOfIteration(first));
    TwoPlans(first, second, OneTest(c, t), TwoRounds());
    plans := [first, second];
  }
}
