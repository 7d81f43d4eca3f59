/**
  Running all tests: iterations of shuffling, announcing, running and
  unshuffling, with every step reported to the listeners.
 */
module Runner {
  import opened Basics
  import opened Events
  import opened Outcomes
  import opened Registry
  import opened RegistryModel
  import opened Shuffling

  type TestEvent = Event<TestCase, TestInfo>
  type TestEntry = Entry<TestCase, TestInfo>

  class TestEventRepeater {
    var forwardingEnabled: bool
    var listeners: seq<Listener>
    // What the listeners have been sent, in the order they were called.
    var log: seq<TestEntry>

    constructor ()
      ensures forwardingEnabled && listeners == [] && log == []
    {
      forwardingEnabled, listeners, log := true, [], [];
    }

    method Append(listener: Listener)
      modifies this`listeners
      ensures listeners == old(listeners) + [listener]
    {
      listeners := listeners + [listener];
    }

    /** Removes the first entry of a listener. */
    method Release(listener: Listener) returns (found: bool)
      modifies this`listeners
      ensures found <==> listener in old(listeners)
      ensures !found ==> listeners == old(listeners)
      ensures found ==>
        exists i ::
          && 0 <= i < |old(listeners)| && old(listeners)[i] == listener && listener !in old(listeners)[..i]
          && listeners == old(listeners)[..i] + old(listeners)[i + 1..]
    {
      var i := 0;
      while i < |listeners|
        invariant 0 <= i <= |listeners| && listeners == old(listeners) && listener !in listeners[..i]
      {
        if listeners[i] == listener {
          listeners := listeners[..i] + listeners[i + 1..];
          return true;
        }
        i := i + 1;
      }
      return false;
    }

    /** The log is base, followed by these events as the listeners heard them. */
    ghost predicate Reported(base: seq<TestEntry>, events: seq<TestEvent>)
      reads this
    {
      log == base + if forwardingEnabled then Trace(listeners, events) else []
    }

    /** GTEST_REPEATER_METHOD_: to the listeners in order. */
    method SendInOrder(e: TestEvent)
      modifies this`log
      ensures log == old(log) + if forwardingEnabled then InOrder(listeners, e) else []
    {
      if forwardingEnabled {
        var i := 0;
        while i < |listeners|
          invariant 0 <= i <= |listeners|
          invariant log == old(log) + InOrder(listeners[..i], e)
        {
          assert listeners[..i + 1][..i] == listeners[..i];
          log := log + [(listeners[i], e)];
          i := i + 1;
        }
        assert listeners[..i] == listeners;
      }
    }

    /** GTEST_REVERSE_REPEATER_METHOD_: to the listeners in reverse order. */
    method SendInReverse(e: TestEvent)
      modifies this`log
      ensures log == old(log) + if forwardingEnabled then InReverse(listeners, e) else []
    {
      if forwardingEnabled {
        var i := |listeners| - 1;
        assert listeners[..i + 1] == listeners;
        while i >= 0
          invariant -1 <= i < |listeners|
          invariant log + InReverse(listeners[..i + 1], e) == old(log) + InReverse(listeners, e)
        {
          assert listeners[..i + 1][..i] == listeners[..i];
          Associative(log, [(listeners[i], e)], InReverse(listeners[..i], e));
          log := log + [(listeners[i], e)];
          i := i - 1;
        }
        assert log + [] == log;
      }
    }

    /** Starts and results go out in order. */
    method Forward(e: TestEvent, ghost base: seq<TestEntry>, ghost events: seq<TestEvent>)
      requires !e.End? && Reported(base, events)
      modifies this`log
      ensures Reported(base, events + [e])
    {
      TraceAppend(listeners, events, e);
      Associative(base, Trace(listeners, events), InOrder(listeners, e));
      SendInOrder(e);
    }

    /** Ends go out in reverse order. */
    method Reverse(e: TestEvent, ghost base: seq<TestEntry>, ghost events: seq<TestEvent>)
      requires e.End? && Reported(base, events)
      modifies this`log
      ensures Reported(base, events + [e])
    {
      TraceAppend(listeners, events, e);
      Associative(base, Trace(listeners, events), InReverse(listeners, e));
      SendInReverse(e);
    }
  }

  // ----- What is to be run --------------------------------------------------

  /** What users' code reports, in each iteration: the environments, the set-up
      and tear-down functions of the test cases, and the tests. */
  datatype UserCode = UserCode(
    setUp: nat -> seq<PartResult>,
    tearDown: nat -> seq<PartResult>,
    setUpCase: (nat, TestCase) -> seq<PartResult>,
    tearDownCase: (nat, TestCase) -> seq<PartResult>,
    test: (nat, TestInfo) -> seq<PartResult>)

  ghost function PlanTest(t: TestInfo, runs: set<TestInfo>, code: UserCode, i: nat): TestRun<TestInfo> {
    TestRun(t, t in runs, code.test(i, t))
  }

  /** The tests of a case in run order. */
  ghost function PlanTests(c: CaseOrder<TestInfo>, runs: set<TestInfo>, code: UserCode, i: nat)
    : (r: seq<TestRun<TestInfo>>)
    requires IsPermutation(c.order, |c.tests|)
    ensures |r| == |c.tests|
  {
    seq(|c.order|, k requires 0 <= k < |c.order| => PlanTest(c.tests[c.order[k]], runs, code, i))
  }

  ghost function PlanCase(c: TestCase, view: CaseOrder<TestInfo>, shouldRun: bool, runs: set<TestInfo>,
                          code: UserCode, i: nat): CaseRun<TestCase, TestInfo>
    requires IsPermutation(view.order, |view.tests|)
  {
    CaseRun(c, shouldRun, code.setUpCase(i, c), PlanTests(view, runs, code, i), code.tearDownCase(i, c))
  }

  // ----- Running tests and cases --------------------------------------------

  /** Users' code reports: every result is recorded, then forwarded. */
  method ReportParts(parts: seq<PartResult>, result: TestResult, repeater: TestEventRepeater,
                     ghost base: seq<TestEntry>, ghost events: seq<TestEvent>)
    requires repeater.Reported(base, events)
    modifies repeater`log, result
    ensures result.parts == old(result.parts) + parts
    ensures repeater.Reported(base, events + PartEvents(parts))
  {
    ghost var sofar := events;
    var k := 0;
    while k < |parts|
      invariant 0 <= k <= |parts|
      invariant sofar == events + PartEvents(parts[..k])
      invariant result.parts == old(result.parts) + parts[..k]
      invariant repeater.Reported(base, sofar)
    {
      result.AddTestPartResult(parts[k]);
      repeater.Forward(Part(parts[k]), base, sofar);
      sofar := sofar + [Part(parts[k])];
      assert parts[..k + 1] == parts[..k] + [parts[k]];
      k := k + 1;
    }
    assert parts[..k] == parts;
  }

  lemma ScopeReported(events: seq<TestEvent>, s: Scope<TestCase, TestInfo>, parts: seq<PartResult>)
    ensures events + [Start(s)] + PartEvents(parts) + [End(s)] == events + ScopeEvents(s, parts)
  {
  }

  /** A scope in which users' code runs. */
  method ReportScope(s: Scope<TestCase, TestInfo>, parts: seq<PartResult>, result: TestResult,
                     repeater: TestEventRepeater, ghost base: seq<TestEntry>, ghost events: seq<TestEvent>)
    requires repeater.Reported(base, events)
    modifies repeater`log, result
    ensures result.parts == old(result.parts) + parts
    ensures repeater.Reported(base, events + ScopeEvents(s, parts))
  {
    repeater.Forward(Start(s), base, events);
    ReportParts(parts, result, repeater, base, events + [Start(s)]);
    repeater.Reverse(End(s), base, events + [Start(s)] + PartEvents(parts));
    ScopeReported(events, s, parts);
  }

  /** TestInfo::Run, on a result that has been cleared. */
  method RunTest(t: TestInfo, code: UserCode, i: nat, repeater: TestEventRepeater,
                 ghost runs: set<TestInfo>, ghost base: seq<TestEntry>, ghost events: seq<TestEvent>)
    returns (failed: bool)
    requires (t.shouldRun <==> t in runs) && repeater.Reported(base, events)
    modifies repeater`log
    ensures repeater.Reported(base, events + TestEvents(PlanTest(t, runs, code, i)))
    ensures failed <==> TestFails(PlanTest(t, runs, code, i))
  {
    if !t.shouldRun {
      assert events + [] == events;
      return false;
    }
    var result := new TestResult();
    ReportScope(Test(t), code.test(i, t), result, repeater, base, events);
    assert [] + code.test(i, t) == code.test(i, t);
    failed := result.Failed();
  }

  ghost predicate ShouldRuns(tests: seq<TestInfo>, runs: set<TestInfo>)
    reads tests
  {
    forall k :: 0 <= k < |tests| ==> (tests[k].shouldRun <==> tests[k] in runs)
  }

  /** One round of the loop over the tests in TestCase::Run. */
  method RunNextTest(c: TestCase, k: nat, failedBefore: bool, code: UserCode, i: nat, repeater: TestEventRepeater,
                     ghost runs: set<TestInfo>, ghost plan: seq<TestRun<TestInfo>>,
                     ghost base: seq<TestEntry>, ghost events: seq<TestEvent>)
    returns (failed: bool)
    requires IsPermutation(c.testIndices.elems, |c.testInfoList|) && k < |c.testInfoList|
    requires ShouldRuns(c.testInfoList, runs) && plan == PlanTests(c.View(), runs, code, i)
    requires repeater.Reported(base, events + TestsEvents(plan[..k]))
    requires failedBefore <==> TestsFail(plan[..k])
    modifies repeater`log
    ensures repeater.Reported(base, events + TestsEvents(plan[..k + 1]))
    ensures failed <==> TestsFail(plan[..k + 1])
  {
    TestsEventsStep(events, plan, k);
    TestsFailStep(plan, k);
    var index := GetElementOr(c.testIndices.elems, k, -1);
    var testFailed := RunTest(c.testInfoList[index], code, i, repeater, runs, base, events + TestsEvents(plan[..k]));
    failed := failedBefore || testFailed;
  }

  /** The loop over the tests in TestCase::Run. */
  method RunTests(c: TestCase, code: UserCode, i: nat, repeater: TestEventRepeater,
                  ghost runs: set<TestInfo>, ghost plan: seq<TestRun<TestInfo>>,
                  ghost base: seq<TestEntry>, ghost events: seq<TestEvent>)
    returns (failed: bool)
    requires IsPermutation(c.testIndices.elems, |c.testInfoList|)
    requires ShouldRuns(c.testInfoList, runs) && plan == PlanTests(c.View(), runs, code, i)
    requires repeater.Reported(base, events)
    modifies repeater`log
    ensures repeater.Reported(base, events + TestsEvents(plan))
    ensures failed <==> TestsFail(plan)
  {
    failed := false;
    var k := 0;
    assert events + [] == events;
    while k < |c.testInfoList|
      invariant 0 <= k <= |c.testInfoList|
      invariant repeater.Reported(base, events + TestsEvents(plan[..k]))
      invariant failed <==> TestsFail(plan[..k])
    {
      failed := RunNextTest(c, k, failed, code, i, repeater, runs, plan, base, events);
      k := k + 1;
    }
    assert plan[..k] == plan;
  }

  lemma ThreeParts<E>(a: seq<E>, b: seq<E>, c: seq<E>, d: seq<E>)
    ensures a + b + c + d == a + (b + c + d)
  {
  }

  /** What happens between the two events of a test case. */
  method RunCaseBody(c: TestCase, code: UserCode, i: nat, adHoc: TestResult, repeater: TestEventRepeater,
                     ghost runs: set<TestInfo>, ghost plan: CaseRun<TestCase, TestInfo>,
                     ghost base: seq<TestEntry>, ghost events: seq<TestEvent>)
    returns (failed: bool)
    requires IsPermutation(c.testIndices.elems, |c.testInfoList|)
    requires ShouldRuns(c.testInfoList, runs) && repeater.Reported(base, events)
    requires plan == PlanCase(c, c.View(), true, runs, code, i)
    modifies repeater`log, adHoc
    ensures repeater.Reported(base, events + CaseBody(plan))
    ensures adHoc.parts == old(adHoc.parts) + (plan.setUp + plan.tearDown)
    ensures failed <==> TestsFail(plan.tests)
  {
    ghost var ready := events + PartEvents<TestCase, TestInfo>(plan.setUp);
    ThreeParts(events, PartEvents(plan.setUp), TestsEvents(plan.tests), PartEvents(plan.tearDown));
    Associative(adHoc.parts, plan.setUp, plan.tearDown);
    ReportParts(code.setUpCase(i, c), adHoc, repeater, base, events);
    assert IsPermutation(c.testIndices.elems, |c.testInfoList|) && ShouldRuns(c.testInfoList, runs);
    failed := RunTests(c, code, i, repeater, runs, plan.tests, base, ready);
    ReportParts(code.tearDownCase(i, c), adHoc, repeater, base, ready + TestsEvents(plan.tests));
  }

  /** TestCase::Run. */
  method RunCase(c: TestCase, code: UserCode, i: nat, adHoc: TestResult, repeater: TestEventRepeater,
                 ghost runs: set<TestInfo>, ghost plan: CaseRun<TestCase, TestInfo>,
                 ghost base: seq<TestEntry>, ghost events: seq<TestEvent>)
    returns (failed: bool)
    requires IsPermutation(c.testIndices.elems, |c.testInfoList|)
    requires ShouldRuns(c.testInfoList, runs) && repeater.Reported(base, events)
    requires plan == PlanCase(c, c.View(), c.shouldRun, runs, code, i)
    modifies repeater`log, adHoc
    ensures repeater.Reported(base, events + CaseEvents(plan))
    ensures adHoc.parts == old(adHoc.parts) + AdHocOfCase(plan)
    ensures failed <==> CaseFails(plan)
  {
    if !c.shouldRun {
      assert events + [] == events;
      return false;
    }
    ghost var start := [Event<TestCase, TestInfo>.Start(Case(c))];
    ThreeParts(events, start, CaseBody(plan), [Event<TestCase, TestInfo>.End(Case(c))]);
    repeater.Forward(Start(Case(c)), base, events);
    failed := RunCaseBody(c, code, i, adHoc, repeater, runs, plan, base, events + start);
    repeater.Reverse(End(Case(c)), base, events + start + CaseBody(plan));
  }

  /** Which cases and tests FilterTests has marked to run. */
  datatype Marks = Marks(cases: seq<bool>, tests: set<TestInfo>)

  ghost predicate Marked(cases: seq<TestCase>, marks: Marks, all: set<TestInfo>)
    reads cases, all
  {
    && |marks.cases| == |cases|
    && forall k :: 0 <= k < |cases| ==>
         && cases[k].shouldRun == marks.cases[k]
         && (forall t :: t in cases[k].testInfoList ==> t in all)
         && ShouldRuns(cases[k].testInfoList, marks.tests)
  }

  ghost predicate Runs(s: Order<TestInfo>) {
    && IsPermutation(s.order, |s.cases|)
    && forall k :: 0 <= k < |s.cases| ==> IsPermutation(s.cases[k].order, |s.cases[k].tests|)
  }

  /** The test cases in run order. */
  ghost function PlanCases(cases: seq<TestCase>, s: Order<TestInfo>, marks: Marks, code: UserCode, i: nat)
    : (r: seq<CaseRun<TestCase, TestInfo>>)
    requires |cases| == |s.cases| == |marks.cases| && Runs(s)
    ensures |r| == |cases|
  {
    seq(|cases|, k requires 0 <= k < |cases| =>
      var c := s.order[k]; PlanCase(cases[c], s.cases[c], marks.cases[c], marks.tests, code, i))
  }

  /** What stays as it is while the tests run: the cases, their order, and
      which of them and of all tests are marked. */
  datatype Setting = Setting(cases: seq<TestCase>, s: Order<TestInfo>, marks: Marks, all: set<TestInfo>)

  ghost function SettingOf(impl: UnitTestImpl, marks: Marks, all: set<TestInfo>): Option<Setting>
    reads impl, impl.testCaseIndices, impl.testCases, impl.IndexVectors(), all
  {
    if impl.Valid() && Marked(impl.testCases, marks, all)
    then Some(Setting(impl.testCases, impl.State(), marks, all))
    else None
  }

  ghost predicate Stands(impl: UnitTestImpl, g: Setting)
    reads impl, impl.testCaseIndices, impl.testCases, impl.IndexVectors(), g.all
  {
    SettingOf(impl, g.marks, g.all) == Some(g)
  }

  ghost predicate Plannable(g: Setting) {
    |g.cases| == |g.s.cases| == |g.marks.cases| && Runs(g.s)
  }

  ghost predicate AreCases(plan: seq<CaseRun<TestCase, TestInfo>>, g: Setting, code: UserCode, i: nat) {
    Plannable(g) && plan == PlanCases(g.cases, g.s, g.marks, code, i)
  }

  /** Runs the k-th test case in run order. */
  method RunCaseAt(impl: UnitTestImpl, k: nat, code: UserCode, i: nat, adHoc: TestResult,
                   repeater: TestEventRepeater, ghost g: Setting, ghost plan: seq<CaseRun<TestCase, TestInfo>>,
                   ghost base: seq<TestEntry>, ghost events: seq<TestEvent>)
    returns (failed: bool)
    requires Stands(impl, g) && AreCases(plan, g, code, i) && k < |plan|
    requires repeater.Reported(base, events)
    modifies repeater`log, adHoc
    ensures Stands(impl, g)
    ensures repeater.Reported(base, events + CaseEvents(plan[k]))
    ensures adHoc.parts == old(adHoc.parts) + AdHocOfCase(plan[k])
    ensures failed <==> CaseFails(plan[k])
  {
    var c := impl.GetMutableTestCase(k);
    assert c.View() == g.s.cases[g.s.order[k]];
    failed := RunCase(c, code, i, adHoc, repeater, g.marks.tests, plan[k], base, events);
  }

  /** One round of the loop over the test cases. */
  method RunNextCase(impl: UnitTestImpl, k: nat, failedBefore: bool, code: UserCode, i: nat, adHoc: TestResult,
                     repeater: TestEventRepeater, ghost g: Setting, ghost plan: seq<CaseRun<TestCase, TestInfo>>,
                     ghost start: seq<PartResult>, ghost base: seq<TestEntry>, ghost events: seq<TestEvent>)
    returns (failed: bool)
    requires Stands(impl, g) && AreCases(plan, g, code, i) && k < |plan|
    requires repeater.Reported(base, events + CasesEvents(plan[..k]))
    requires adHoc.parts == start + AdHocOfCases(plan[..k])
    requires failedBefore <==> CasesFail(plan[..k])
    modifies repeater`log, adHoc
    ensures Stands(impl, g)
    ensures repeater.Reported(base, events + CasesEvents(plan[..k + 1]))
    ensures adHoc.parts == start + AdHocOfCases(plan[..k + 1])
    ensures failed <==> CasesFail(plan[..k + 1])
  {
    CasesEventsStep(events, plan, k);
    CasesFailStep(plan, k);
    AdHocOfCasesStep(start, plan, k);
    var caseFailed := RunCaseAt(impl, k, code, i, adHoc, repeater, g, plan, base, events + CasesEvents(plan[..k]));
    failed := failedBefore || caseFailed;
  }

  lemma NothingAdded<E>(s: seq<E>)
    ensures s + [] == s
  {
  }

  /** The loop over the test cases in RunAllTests. */
  method RunCases(impl: UnitTestImpl, code: UserCode, i: nat, adHoc: TestResult, repeater: TestEventRepeater,
                  ghost g: Setting, ghost plan: seq<CaseRun<TestCase, TestInfo>>,
                  ghost base: seq<TestEntry>, ghost events: seq<TestEvent>)
    returns (failed: bool)
    requires Stands(impl, g) && AreCases(plan, g, code, i) && repeater.Reported(base, events)
    modifies repeater`log, adHoc
    ensures Stands(impl, g)
    ensures repeater.Reported(base, events + CasesEvents(plan))
    ensures adHoc.parts == old(adHoc.parts) + AdHocOfCases(plan)
    ensures failed <==> CasesFail(plan)
  {
    ghost var start := adHoc.parts;
    failed := false;
    var k := 0;
    NothingAdded(events);
    NothingAdded(start);
    while k < |impl.testCases|
      invariant 0 <= k <= |impl.testCases| == |plan| && Stands(impl, g)
      invariant repeater.Reported(base, events + CasesEvents(plan[..k]))
      invariant adHoc.parts == start + AdHocOfCases(plan[..k])
      invariant failed <==> CasesFail(plan[..k])
    {
      failed := RunNextCase(impl, k, failed, code, i, adHoc, repeater, g, plan, start, base, events);
      k := k + 1;
    }
    assert plan[..k] == plan;
  }

  // ----- The random seed ----------------------------------------------------

  const MAX_RANDOM_SEED := 99999

  /** The seed for the first iteration: the flag, or the time if it is 0,
      brought into [1, MAX_RANDOM_SEED] in 32-bit unsigned arithmetic. */
  function GetRandomSeedFromFlag(flag: int, time: int): (seed: int)
    ensures 1 <= seed <= MAX_RANDOM_SEED
    ensures 1 <= flag <= MAX_RANDOM_SEED ==> seed == flag
  {
    var raw := (if flag == 0 then time else flag) % 0x1_0000_0000;
    ((raw - 1) % 0x1_0000_0000) % MAX_RANDOM_SEED + 1
  }

  function GetNextRandomSeed(seed: int): (next: int)
    requires 1 <= seed <= MAX_RANDOM_SEED
    ensures 1 <= next <= MAX_RANDOM_SEED
    ensures seed < MAX_RANDOM_SEED ==> next == seed + 1
    ensures seed == MAX_RANDOM_SEED ==> next == 1
  {
    if seed + 1 > MAX_RANDOM_SEED then 1 else seed + 1
  }

  function SeedAt(seed: int, i: nat): (r: int)
    requires 1 <= seed <= MAX_RANDOM_SEED
    ensures 1 <= r <= MAX_RANDOM_SEED
  {
    if i == 0 then seed else GetNextRandomSeed(SeedAt(seed, i - 1))
  }

  /** The seeds run through the whole range before one comes again. */
  lemma {:induction false} SeedsCycle(seed: int, i: nat, j: nat)
    requires 1 <= seed <= MAX_RANDOM_SEED && i <= j < i + MAX_RANDOM_SEED
    ensures SeedAt(seed, j) == SeedAt(seed, i) <==> i == j
    ensures SeedAt(seed, i + MAX_RANDOM_SEED) == SeedAt(seed, i)
  {
    SeedAhead(seed, i, j - i);
    SeedAhead(seed, i, MAX_RANDOM_SEED);
  }

  lemma {:induction false} SeedAhead(seed: int, i: nat, n: nat)
    requires 1 <= seed <= MAX_RANDOM_SEED && n <= MAX_RANDOM_SEED
    ensures var here := SeedAt(seed, i);
      SeedAt(seed, i + n) == if here + n <= MAX_RANDOM_SEED then here + n else here + n - MAX_RANDOM_SEED
    decreases n
  {
    if n > 0 { SeedAhead(seed, i, n - 1); }
  }

  // ----- Iterations ---------------------------------------------------------

  /** What RunAllTests is told by the flags and the clock, whether there is
      anything to run, and what users' code does. */
  datatype Config = Config(hasTests: bool, shuffle: bool, randomSeedFlag: int, time: int, repeat: int,
                           code: UserCode)

  function SeedFor(config: Config, i: nat): (r: int)
    ensures 1 <= r <= MAX_RANDOM_SEED
  {
    SeedAt(GetRandomSeedFromFlag(config.randomSeedFlag, config.time), i)
  }

  /** The order iteration i runs in, when s is the registration order. */
  ghost function OrderAt(s: Order<TestInfo>, config: Config, i: nat): Order<TestInfo>
    requires Shaped(s)
  {
    if config.hasTests && config.shuffle then RegistryModel.Shuffle(s, SeedFor(config, i)) else s
  }

  lemma OrderAtRuns(s: Order<TestInfo>, deaths: iset<string>, config: Config, i: nat)
    requires Inv(s, deaths)
    ensures Inv(OrderAt(s, config, i), deaths) && Runs(OrderAt(s, config, i))
    ensures |OrderAt(s, config, i).cases| == |s.cases|
  {
    ShuffleKeepsInv(s, deaths, SeedFor(config, i));
  }

  /** The plan of iteration i, after before has been reported outside tests:
      all cases and tests, in the order of that iteration, run or not as they
      are marked; but no test runs once there has been a fatal failure outside
      the tests. */
  ghost predicate IsPlan(plan: IterationRun<TestCase, TestInfo>, cases: seq<TestCase>, s: Order<TestInfo>,
                         marks: Marks, config: Config, i: nat, before: seq<PartResult>)
  {
    && Shaped(s) && Runs(OrderAt(s, config, i))
    && |cases| == |OrderAt(s, config, i).cases| == |marks.cases|
    && plan == IterationRun(config.hasTests, config.code.setUp(i), !HasFatal(before + config.code.setUp(i)),
                            PlanCases(cases, OrderAt(s, config, i), marks, config.code, i),
                            config.code.tearDown(i))
  }

  lemma BodyReported(events: seq<TestEvent>, r: IterationRun<TestCase, TestInfo>)
    requires r.hasTests
    ensures events + ScopeEvents<TestCase, TestInfo>(SetUp, r.setUp) + CasesEvents(CasesIf(r))
            + ScopeEvents<TestCase, TestInfo>(TearDown, r.tearDown) == events + BodyEvents(r)
  {
    var up := ScopeEvents<TestCase, TestInfo>(SetUp, r.setUp);
    var down := ScopeEvents<TestCase, TestInfo>(TearDown, r.tearDown);
    ThreeParts(events, up, CasesEvents(CasesIf(r)), down);
  }

  /** The plan of iteration i in the order that g gives. */
  ghost predicate IsIteration(plan: IterationRun<TestCase, TestInfo>, g: Setting, config: Config, i: nat,
                              before: seq<PartResult>)
  {
    && plan.hasTests == config.hasTests
    && plan.setUp == config.code.setUp(i) && plan.tearDown == config.code.tearDown(i)
    && plan.setUpOk == !HasFatal(before + plan.setUp)
    && AreCases(plan.cases, g, config.code, i)
  }

  function CasesIf(plan: IterationRun<TestCase, TestInfo>): seq<CaseRun<TestCase, TestInfo>> {
    if plan.setUpOk then plan.cases else []
  }

  /** Runs the test cases, unless there has been a fatal failure. */
  method RunCasesUnlessFatal(impl: UnitTestImpl, config: Config, i: nat, adHoc: TestResult,
                             repeater: TestEventRepeater, ghost g: Setting,
                             ghost plan: IterationRun<TestCase, TestInfo>,
                             ghost base: seq<TestEntry>, ghost events: seq<TestEvent>)
    returns (failed: bool)
    requires Stands(impl, g) && AreCases(plan.cases, g, config.code, i) && repeater.Reported(base, events)
    requires plan.setUpOk == !HasFatal(adHoc.parts)
    modifies repeater`log, adHoc
    ensures Stands(impl, g)
    ensures repeater.Reported(base, events + CasesEvents(CasesIf(plan)))
    ensures adHoc.parts == old(adHoc.parts) + AdHocOfCases(CasesIf(plan))
    ensures failed <==> CasesFail(CasesIf(plan))
  {
    var fatal := adHoc.HasFatalFailure();
    if fatal {
      assert events + [] == events && adHoc.parts + [] == adHoc.parts;
      failed := false;
    } else {
      failed := RunCases(impl, config.code, i, adHoc, repeater, g, plan.cases, base, events);
    }
  }

  /** Sets up or tears down the environments. */
  method ReportEnvironments(impl: UnitTestImpl, scope: Scope<TestCase, TestInfo>, parts: seq<PartResult>,
                            adHoc: TestResult, repeater: TestEventRepeater, ghost g: Setting,
                            ghost base: seq<TestEntry>, ghost events: seq<TestEvent>)
    requires Stands(impl, g) && repeater.Reported(base, events)
    modifies repeater`log, adHoc
    ensures Stands(impl, g)
    ensures repeater.Reported(base, events + ScopeEvents(scope, parts))
    ensures adHoc.parts == old(adHoc.parts) + parts
  {
    ReportScope(scope, parts, adHoc, repeater, base, events);
  }

  /** Sets up, runs and tears down, if there is anything to run. */
  method RunBody(impl: UnitTestImpl, config: Config, i: nat, adHoc: TestResult, repeater: TestEventRepeater,
                 ghost g: Setting, ghost plan: IterationRun<TestCase, TestInfo>,
                 ghost base: seq<TestEntry>, ghost events: seq<TestEvent>)
    returns (failed: bool)
    requires Stands(impl, g) && IsIteration(plan, g, config, i, adHoc.parts) && repeater.Reported(base, events)
    modifies repeater`log, adHoc
    ensures Stands(impl, g)
    ensures repeater.Reported(base, events + BodyEvents(plan))
    ensures adHoc.parts == old(adHoc.parts) + AdHocOfIteration(plan)
    ensures failed <==> IterationFails(plan)
  {
    if config.hasTests {
      BodyReported(events, plan);
      ThreeParts(adHoc.parts, plan.setUp, AdHocOfCases(CasesIf(plan)), plan.tearDown);
      ghost var ready := events + ScopeEvents<TestCase, TestInfo>(SetUp, plan.setUp);
      ghost var ran := ready + CasesEvents(CasesIf(plan));
      ReportEnvironments(impl, SetUp, config.code.setUp(i), adHoc, repeater, g, base, events);
      failed := RunCasesUnlessFatal(impl, config, i, adHoc, repeater, g, plan, base, ready);
      ReportEnvironments(impl, TearDown, config.code.tearDown(i), adHoc, repeater, g, base, ran);
    } else {
      assert events + [] == events && adHoc.parts + [] == adHoc.parts;
      failed := false;
    }
  }

  /** Shuffles for iteration i if requested. */
  method ShuffleForIteration(impl: UnitTestImpl, config: Config, i: nat, randomSeed: int, ghost g: Setting)
    requires Stands(impl, g) && NoLarger(g.s, MAX_RANGE)
    requires config.shuffle ==> randomSeed == SeedFor(config, i)
    modifies impl.random, impl.testCaseIndices, impl.IndexVectors()
    ensures Stands(impl, g.(s := OrderAt(g.s, config, i)))
  {
    if config.hasTests && config.shuffle {
      ShuffleSeeded(impl, randomSeed, g);
    }
  }

  method ShuffleSeeded(impl: UnitTestImpl, randomSeed: int, ghost g: Setting)
    requires Stands(impl, g) && NoLarger(g.s, MAX_RANGE) && randomSeed >= 0
    modifies impl.random, impl.testCaseIndices, impl.IndexVectors()
    ensures Stands(impl, g.(s := RegistryModel.Shuffle(g.s, randomSeed)))
  {
    impl.ReseedAndShuffle(randomSeed);
  }

  method RestoreOrder(impl: UnitTestImpl, ghost g: Setting)
    requires Stands(impl, g)
    modifies impl.testCaseIndices, impl.IndexVectors()
    ensures Stands(impl, g.(s := Unshuffle(g.s)))
  {
    impl.UnshuffleTests();
  }

  lemma IterationReported(events: seq<TestEvent>, i: nat, r: IterationRun<TestCase, TestInfo>)
    ensures events + [Start(Iteration(i))] + BodyEvents(r) + [End(Iteration(i))] == events + IterationEvents(i, r)
  {
    var start := [Event<TestCase, TestInfo>.Start(Iteration(i))];
    ThreeParts(events, start, BodyEvents(r), [End(Iteration(i))]);
  }

  /** Sends one event while the registry stands. */
  method Announce(impl: UnitTestImpl, e: TestEvent, repeater: TestEventRepeater, ghost g: Setting,
                  ghost base: seq<TestEntry>, ghost events: seq<TestEvent>)
    requires Stands(impl, g) && repeater.Reported(base, events)
    modifies repeater`log
    ensures Stands(impl, g)
    ensures repeater.Reported(base, events + [e])
  {
    if e.End? {
      repeater.Reverse(e, base, events);
    } else {
      repeater.Forward(e, base, events);
    }
  }

  lemma PlanInOrder(plan: IterationRun<TestCase, TestInfo>, g: Setting, config: Config, i: nat,
                    before: seq<PartResult>)
    requires IsPlan(plan, g.cases, g.s, g.marks, config, i, before)
    ensures IsIteration(plan, g.(s := OrderAt(g.s, config, i)), config, i, before)
  {
  }

  /** Announces, runs and closes an iteration, on results that have been
      cleared; has it passed? */
  method ReportIteration(impl: UnitTestImpl, config: Config, i: nat, adHoc: TestResult, repeater: TestEventRepeater,
                         ghost g: Setting, ghost plan: IterationRun<TestCase, TestInfo>,
                         ghost base: seq<TestEntry>, ghost events: seq<TestEvent>)
    returns (passed: bool)
    requires Stands(impl, g) && IsIteration(plan, g, config, i, adHoc.parts) && repeater.Reported(base, events)
    modifies repeater`log, adHoc
    ensures Stands(impl, g)
    ensures repeater.Reported(base, events + IterationEvents(i, plan))
    ensures adHoc.parts == old(adHoc.parts) + AdHocOfIteration(plan)
    ensures passed <==> !IterationFails(plan) && !HasFailure(adHoc.parts)
  {
    ghost var started := events + [Start(Iteration(i))];
    Announce(impl, Start(Iteration(i)), repeater, g, base, events);
    var failed := RunBody(impl, config, i, adHoc, repeater, g, plan, base, started);
    Announce(impl, End(Iteration(i)), repeater, g, base, started + BodyEvents(plan));
    IterationReported(events, i, plan);
    var adHocFailed := adHoc.Failed();
    passed := !failed && !adHocFailed;
  }

  /** Unshuffling after iteration i brings back the setting before it. */
  lemma ShuffledAndBack(g: Setting, deaths: iset<string>, config: Config, i: nat)
    requires Inv(g.s, deaths) && Unshuffled(g.s)
    ensures var shuffled := g.(s := OrderAt(g.s, config, i));
      shuffled.(s := Unshuffle(shuffled.s)) == g
  {
    UnshuffleRestores(g.s, deaths, SeedFor(config, i));
  }

  /** One round of the loop in RunAllTests; in the end the tests are back in
      registration order. */
  method RunIteration(impl: UnitTestImpl, config: Config, i: nat, randomSeed: int, adHoc: TestResult,
                      repeater: TestEventRepeater, ghost g: Setting, ghost plan: IterationRun<TestCase, TestInfo>,
                      ghost base: seq<TestEntry>, ghost events: seq<TestEvent>)
    returns (passed: bool)
    requires Stands(impl, g) && Unshuffled(g.s) && NoLarger(g.s, MAX_RANGE) && repeater.Reported(base, events)
    requires config.shuffle ==> randomSeed == SeedFor(config, i)
    requires IsPlan(plan, g.cases, g.s, g.marks, config, i, adHoc.parts)
    modifies repeater`log, adHoc, impl.random, impl.testCaseIndices, impl.IndexVectors()
    ensures Stands(impl, g)
    ensures repeater.Reported(base, events + IterationEvents(i, plan))
    ensures adHoc.parts == old(adHoc.parts) + AdHocOfIteration(plan)
    ensures passed <==> !IterationFails(plan) && !HasFailure(adHoc.parts)
  {
    ShuffledAndBack(g, impl.deaths, config, i);
    PlanInOrder(plan, g, config, i, adHoc.parts);
    ghost var shuffled := g.(s := OrderAt(g.s, config, i));
    ShuffleForIteration(impl, config, i, randomSeed, g);
    passed := ReportIteration(impl, config, i, adHoc, repeater, shuffled, plan, base, events);
    RestoreOrder(impl, shuffled);
  }

  /** The plans of all iterations, when start has been reported before them. */
  ghost predicate ArePlans(plans: seq<IterationRun<TestCase, TestInfo>>, cases: seq<TestCase>, s: Order<TestInfo>,
                           marks: Marks, config: Config, start: seq<PartResult>)
  {
    forall i :: 0 <= i < |plans| ==> IsPlan(plans[i], cases, s, marks, config, i, AdHocAfter(start, plans[..i]))
  }

  lemma NextPlan(g: Setting, deaths: iset<string>, config: Config, i: nat, before: seq<PartResult>)
    returns (plan: IterationRun<TestCase, TestInfo>)
    requires Inv(g.s, deaths) && |g.cases| == |g.s.cases| == |g.marks.cases|
    ensures IsPlan(plan, g.cases, g.s, g.marks, config, i, before)
  {
    OrderAtRuns(g.s, deaths, config, i);
    plan := IterationRun(config.hasTests, config.code.setUp(i), !HasFatal(before + config.code.setUp(i)),
                         PlanCases(g.cases, OrderAt(g.s, config, i), g.marks, config.code, i), config.code.tearDown(i));
  }

  lemma MorePlans(plans: seq<IterationRun<TestCase, TestInfo>>, plan: IterationRun<TestCase, TestInfo>,
                  cases: seq<TestCase>, s: Order<TestInfo>, marks: Marks, config: Config, start: seq<PartResult>)
    requires ArePlans(plans, cases, s, marks, config, start)
    requires IsPlan(plan, cases, s, marks, config, |plans|, AdHocAfter(start, plans))
    ensures ArePlans(plans + [plan], cases, s, marks, config, start)
  {
    var all := plans + [plan];
    forall i | 0 <= i < |all|
      ensures IsPlan(all[i], cases, s, marks, config, i, AdHocAfter(start, all[..i]))
    {
      if i < |plans| {
        assert all[..i] == plans[..i];
      } else {
        assert all[..i] == plans;
      }
    }
  }

  /** A round of the loop adds one iteration to what has been reported. */
  method RunNext(impl: UnitTestImpl, config: Config, randomSeed: int, adHoc: TestResult, repeater: TestEventRepeater,
                 ghost g: Setting, ghost plans: seq<IterationRun<TestCase, TestInfo>>, ghost start: seq<PartResult>,
                 i: nat, ghost base: seq<TestEntry>, ghost events: seq<TestEvent>)
    returns (passed: bool, ghost plan: IterationRun<TestCase, TestInfo>)
    requires Stands(impl, g) && Unshuffled(g.s) && NoLarger(g.s, MAX_RANGE) && i == |plans|
    requires config.shuffle ==> randomSeed == SeedFor(config, i)
    requires repeater.Reported(base, events + IterationsEvents(plans))
    requires adHoc.parts == AdHocAfter(start, plans)
    modifies repeater`log, adHoc, impl.random, impl.testCaseIndices, impl.IndexVectors()
    ensures Stands(impl, g)
    ensures IsPlan(plan, g.cases, g.s, g.marks, config, i, AdHocAfter(start, plans))
    ensures repeater.Reported(base, events + IterationsEvents(plans + [plan]))
    ensures adHoc.parts == AdHocAfter(start, plans + [plan])
    ensures passed <==> !IterationFails(plan) && !HasFailure(adHoc.parts)
  {
    plan := NextPlan(g, impl.deaths, config, i, adHoc.parts);
    IterationsEventsStep(events, plans + [plan], i);
    assert (plans + [plan])[..i] == plans && (plans + [plan])[..i + 1] == plans + [plan];
    passed := RunIteration(impl, config, i, randomSeed, adHoc, repeater, g, plan, base,
                           events + IterationsEvents(plans));
  }

  lemma AllPassStep(start: seq<PartResult>, plans: seq<IterationRun<TestCase, TestInfo>>,
                    plan: IterationRun<TestCase, TestInfo>)
    ensures AllPass(start, plans + [plan]) <==>
      AllPass(start, plans) && !IterationFails(plan) && !HasFailure(AdHocAfter(start, plans + [plan]))
  {
    var all, n := plans + [plan], |plans|;
    assert all[..n + 1] == all && all[n] == plan;
    forall i | 0 <= i < n
      ensures IterationPasses(start, all, i) <==> IterationPasses(start, plans, i)
    {
      assert all[..i + 1] == plans[..i + 1] && all[i] == plans[i];
    }
    assert AllPass(start, all) ==> forall i :: 0 <= i < n ==> IterationPasses(start, all, i);
    assert AllPass(start, all) ==> IterationPasses(start, all, n);
  }

  /** How many rounds to look at: all, or the first endless ones of a loop that
      goes on forever. */
  function Rounds(config: Config, endless: nat): (n: nat)
    ensures config.repeat >= 0 ==> n == config.repeat
    ensures config.repeat < 0 ==> n == endless
  {
    if config.repeat < 0 then endless else config.repeat
  }

  /** What is sent up to the end of the loop in RunAllTests, and the end of the
      program, unless the loop goes on forever. */
  ghost function RunEvents(config: Config, plans: seq<IterationRun<TestCase, TestInfo>>): seq<TestEvent> {
    if config.repeat < 0 then OpenEvents(plans) else ProgramEvents(plans)
  }

  /** The first rounds of the loop in RunAllTests. */
  method RunIterations(impl: UnitTestImpl, config: Config, rounds: nat, adHoc: TestResult, repeater: TestEventRepeater,
                       ghost g: Setting, ghost base: seq<TestEntry>, ghost events: seq<TestEvent>)
    returns (failed: bool, ghost plans: seq<IterationRun<TestCase, TestInfo>>)
    requires Stands(impl, g) && Unshuffled(g.s) && NoLarger(g.s, MAX_RANGE) && repeater.Reported(base, events)
    modifies repeater`log, adHoc, impl.random, impl.testCaseIndices, impl.IndexVectors()
    ensures Stands(impl, g)
    ensures |plans| == rounds
    ensures ArePlans(plans, g.cases, g.s, g.marks, config, old(adHoc.parts))
    ensures repeater.Reported(base, events + IterationsEvents(plans))
    ensures adHoc.parts == AdHocAfter(old(adHoc.parts), plans)
    ensures failed <==> !AllPass(old(adHoc.parts), plans)
  {
    var randomSeed := if config.shuffle then GetRandomSeedFromFlag(config.randomSeedFlag, config.time) else 0;
    ghost var start := adHoc.parts;
    failed, plans := false, [];
    var i := 0;
    assert events + IterationsEvents(plans) == events;
    while i != rounds
      invariant 0 <= i <= rounds && |plans| == i
      invariant Stands(impl, g)
      invariant config.shuffle ==> randomSeed == SeedFor(config, i)
      invariant ArePlans(plans, g.cases, g.s, g.marks, config, start)
      invariant repeater.Reported(base, events + IterationsEvents(plans))
      invariant adHoc.parts == AdHocAfter(start, plans)
      invariant failed <==> !AllPass(start, plans)
    {
      ghost var plan;
      var passed;
      passed, plan := RunNext(impl, config, randomSeed, adHoc, repeater, g, plans, start, i, base, events);
      MorePlans(plans, plan, g.cases, g.s, g.marks, config, start);
      AllPassStep(start, plans, plan);
      plans := plans + [plan];
      if !passed {
        failed := true;
      }
      if config.shuffle {
        randomSeed := GetNextRandomSeed(randomSeed);
      }
      i := i + 1;
    }
  }

  /** UnitTestImpl::RunAllTests, once the tests have been filtered. */
  method RunAllTests(impl: UnitTestImpl, config: Config, endless: nat, adHoc: TestResult, repeater: TestEventRepeater,
                     ghost g: Setting)
    returns (ok: bool, ghost plans: seq<IterationRun<TestCase, TestInfo>>)
    requires Stands(impl, g) && Unshuffled(g.s) && NoLarger(g.s, MAX_RANGE)
    modifies repeater`log, adHoc, impl.random, impl.testCaseIndices, impl.IndexVectors()
    ensures Stands(impl, g)
    ensures |plans| == Rounds(config, endless)
    ensures ArePlans(plans, g.cases, g.s, g.marks, config, old(adHoc.parts))
    ensures repeater.Reported(old(repeater.log), RunEvents(config, plans))
    ensures adHoc.parts == AdHocAfter(old(adHoc.parts), plans)
    ensures ok <==> AllPass(old(adHoc.parts), plans)
  {
    ghost var base, started := repeater.log, [Event<TestCase, TestInfo>.Start(Program)];
    assert base + [] == base && [] + started == started;
    Announce(impl, Start(Program), repeater, g, base, []);
    var failed;
    failed, plans := RunIterations(impl, config, Rounds(config, endless), adHoc, repeater, g, base, started);
    if config.repeat >= 0 {
      Announce(impl, End(Program), repeater, g, base, started + IterationsEvents(plans));
    }
    ok := !failed;
  }
}
