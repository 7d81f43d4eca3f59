/**
  What runs in an iteration, in which order, and with which seed; stated without
  the functions the run is proved against.
 */
module RunLaws {
  import opened Basics
  import opened Events
  import opened EventOrder
  import opened Outcomes
  import opened Registry
  import opened RegistryModel
  import opened Shuffling
  import opened Runner

  // ----- Seeds --------------------------------------------------------------

  lemma ModPeriod(x: int, m: nat)
    requires m > 0
    ensures (x + m) % m == x % m
  {
    var q := x / m;
    assert x + m == (q + 1) * m + x % m;
    ModIs(x + m, q + 1, x % m, m);
  }

  /** The flag counts, and the time only if the flag is 0. */
  lemma FlagOrTime(flag: int, time: int, other: int)
    ensures flag != 0 ==> GetRandomSeedFromFlag(flag, time) == GetRandomSeedFromFlag(flag, other)
    ensures time != 0 ==> GetRandomSeedFromFlag(0, time) == GetRandomSeedFromFlag(time, other)
  {
  }

  /** A value in range is kept; 0 is the same as the highest 32-bit value. */
  lemma SeedInRange(flag: int, time: int)
    ensures 1 <= flag <= 99999 ==> GetRandomSeedFromFlag(flag, time) == flag
    ensures GetRandomSeedFromFlag(0, 0) == 0xFFFF_FFFF % 99999 + 1
  {
  }

  /** A value beyond the range is the same as one that much lower, up to the
      highest 32-bit value. */
  lemma SeedBeyondRange(flag: int, time: int)
    requires 1 <= flag <= 0xFFFF_FFFF - 99999
    ensures GetRandomSeedFromFlag(flag + 99999, time) == GetRandomSeedFromFlag(flag, time)
  {
    ModPeriod(flag - 1, 99999);
  }

  /** Only the lowest 32 bits count. */
  lemma SeedWraps(flag: int, time: int)
    requires flag != 0 && flag != -0x1_0000_0000
    ensures GetRandomSeedFromFlag(flag + 0x1_0000_0000, time) == GetRandomSeedFromFlag(flag, time)
    ensures GetRandomSeedFromFlag(0, flag + 0x1_0000_0000) == GetRandomSeedFromFlag(0, flag)
  {
    ModPeriod(flag, 0x1_0000_0000);
  }

  /** Every iteration's seed is one more than the one before, and 1 after
      99999. */
  lemma {:induction false} SeedAtIs(seed: int, i: nat)
    requires 1 <= seed <= 99999
    ensures SeedAt(seed, i) == (seed - 1 + i) % 99999 + 1
  {
    if i > 0 {
      SeedAtIs(seed, i - 1);
      NextInCycle(seed - 1 + i - 1, 99999);
    }
  }

  lemma NextInCycle(x: nat, m: nat)
    requires m > 0
    ensures (x + 1) % m == if x % m + 1 == m then 0 else x % m + 1
  {
    var q, r := x / m, x % m;
    assert x == q * m + r;
    if r + 1 == m {
      assert x + 1 == (q + 1) * m + 0;
      ModIs(x + 1, q + 1, 0, m);
    } else {
      ModIs(x + 1, q, r + 1, m);
    }
  }

  // ----- Plans --------------------------------------------------------------

  /** The seed of iteration i. */
  function SeedOf(config: Config, i: nat): (seed: nat) {
    (GetRandomSeedFromFlag(config.randomSeedFlag, config.time) - 1 + i) % 99999 + 1
  }

  /** If shuffling is asked for and there is something to run, iteration i runs
      in the order that its seed shuffles the registry to; if not, in the order
      of the registry. */
  ghost function RunOrder(s: Order<TestInfo>, config: Config, i: nat): Order<TestInfo>
    requires Shaped(s)
  {
    if config.shuffle && config.hasTests then RegistryModel.Shuffle(s, SeedOf(config, i)) else s
  }

  lemma SeedForIs(config: Config, i: nat)
    ensures SeedFor(config, i) == SeedOf(config, i)
  {
    SeedAtIs(GetRandomSeedFromFlag(config.randomSeedFlag, config.time), i);
  }

  lemma RunOrderIs(s: Order<TestInfo>, config: Config, i: nat)
    requires Shaped(s)
    ensures OrderAt(s, config, i) == RunOrder(s, config, i)
  {
    SeedForIs(config, i);
  }

  /** The k-th case to run in an iteration. */
  lemma PlannedCase(plan: IterationRun<TestCase, TestInfo>, cases: seq<TestCase>, s: Order<TestInfo>, marks: Marks,
                    config: Config, i: nat, before: seq<PartResult>, k: nat)
    requires IsPlan(plan, cases, s, marks, config, i, before) && k < |cases|
    ensures |plan.cases| == |cases|
    ensures var t := RunOrder(s, config, i);
      && |t.order| == |cases| && 0 <= t.order[k] < |cases|
      && var c, run := t.order[k], plan.cases[k];
         && run.c == cases[c] && run.shouldRun == marks.cases[c]
         && run.setUp == config.code.setUpCase(i, cases[c]) && run.tearDown == config.code.tearDownCase(i, cases[c])
         && |run.tests| == |t.cases[c].tests| == |t.cases[c].order|
  {
    RunOrderIs(s, config, i);
  }

  /** The j-th test to run in it. */
  lemma PlannedTest(plan: IterationRun<TestCase, TestInfo>, cases: seq<TestCase>, s: Order<TestInfo>, marks: Marks,
                    config: Config, i: nat, before: seq<PartResult>, k: nat, j: nat)
    requires IsPlan(plan, cases, s, marks, config, i, before) && k < |cases| && k < |plan.cases|
    requires j < |plan.cases[k].tests|
    ensures var t := RunOrder(s, config, i);
      && |t.order| == |cases| == |t.cases| && 0 <= t.order[k] < |cases|
      && var c, run := t.cases[t.order[k]], plan.cases[k].tests[j];
         && j < |c.order| && 0 <= c.order[j] < |c.tests|
         && run.t == c.tests[c.order[j]]
         && (run.shouldRun <==> run.t in marks.tests)
         && run.parts == config.code.test(i, run.t)
  {
    RunOrderIs(s, config, i);
  }

  /** What happens around the cases. */
  lemma PlannedEnvironments(plan: IterationRun<TestCase, TestInfo>, cases: seq<TestCase>, s: Order<TestInfo>,
                            marks: Marks, config: Config, i: nat, before: seq<PartResult>)
    requires IsPlan(plan, cases, s, marks, config, i, before)
    ensures plan.hasTests == config.hasTests
    ensures plan.setUp == config.code.setUp(i) && plan.tearDown == config.code.tearDown(i)
    ensures plan.setUpOk <==> !HasFatal(before) && !HasFatal(config.code.setUp(i))
  {
    FatalConcat(before, config.code.setUp(i));
  }

  /** Two ordinary cases, to be shuffled with the seed 1: the second runs first. */
  lemma ShuffledRunExample(plan: IterationRun<TestCase, TestInfo>, a: TestCase, b: TestCase, x: TestInfo, y: TestInfo,
                           marks: Marks, config: Config, before: seq<PartResult>)
    requires config.hasTests && config.shuffle && config.randomSeedFlag == 1
    requires IsPlan(plan, [a, b], Pair(x, y), marks, config, 0, before)
    ensures |plan.cases| == 2 && plan.cases[0].c == b && plan.cases[1].c == a
  {
    PlannedCase(plan, [a, b], Pair(x, y), marks, config, 0, before, 0);
    PlannedCase(plan, [a, b], Pair(x, y), marks, config, 0, before, 1);
    SeedOneSwaps();
    assert SeedOf(config, 0) == 1;
  }

  // ----- Ending -------------------------------------------------------------

  /** The program's end is reported exactly if the run does not go on forever. */
  lemma EndIsReportedIff(config: Config, plans: seq<IterationRun<TestCase, TestInfo>>)
    ensures var ev := RunEvents(config, plans);
      && ev != [] && ev[0] == Start(Program)
      && (ev[|ev| - 1] == End(Program) <==> config.repeat >= 0)
      && (config.repeat >= 0 ==> ev[1..|ev| - 1] == IterationsEvents(plans))
      && (config.repeat < 0 ==> ev[1..] == IterationsEvents(plans))
  {
    if config.repeat < 0 { NoEndYet(plans); }
  }

  lemma NoEndYet(plans: seq<IterationRun<TestCase, TestInfo>>)
    ensures var ev := OpenEvents(plans); ev[|ev| - 1] != End(Program)
  {
    if plans != [] {
      var n := |plans| - 1;
      var last := IterationEvents(n, plans[n]);
      assert last[|last| - 1] == End(Iteration(n));
      assert IterationsEvents(plans) == IterationsEvents(plans[..n]) + last;
    }
  }
}
