/**
  Which tests run: a test is runnable if the filter selects it and it is not
  disabled, and the runnable tests are dealt out to the shards in turn.
 */
module Sharding {
  import opened Basics
  import opened CStrings
  import opened Filters
  import opened Registry

  /** This process runs shard number index out of total. */
  datatype Shard = Shard(total: nat, index: nat)

  datatype Config = Config(filter: CString, alsoRunDisabled: bool, shard: Option<Shard>)

  /** What ShouldShard() makes sure of, or else the process exits. */
  ghost predicate ValidConfig(config: Config) {
    config.shard.Some? ==> config.shard.value.index < config.shard.value.total
  }

  predicate ShouldRunTestOnShard(totalShards: nat, shardIndex: nat, testId: nat)
    requires shardIndex < totalShards
  {
    testId % totalShards == shardIndex
  }

  // ----- Counting -----------------------------------------------------------

  function Count(f: seq<bool>): nat {
    if f == [] then 0 else Count(f[..|f| - 1]) + if f[|f| - 1] then 1 else 0
  }

  /** The tests in prefix come before a runnable test; is it run here? */
  predicate OnShard(shard: Option<Shard>, prefix: seq<bool>)
    requires shard.Some? ==> shard.value.index < shard.value.total
  {
    shard.None? || ShouldRunTestOnShard(shard.value.total, shard.value.index, Count(prefix))
  }

  /** How many of the runnable tests among f are run here. */
  function SelectedCount(f: seq<bool>, shard: Option<Shard>): nat
    requires shard.Some? ==> shard.value.index < shard.value.total
  {
    if f == [] then 0
    else
      var n := |f| - 1;
      SelectedCount(f[..n], shard) + if f[n] && OnShard(shard, f[..n]) then 1 else 0
  }

  // ----- What the shards get ------------------------------------------------

  /** Every runnable test runs on exactly one of the shards. */
  lemma ExactlyOneShard(total: nat, prefix: seq<bool>)
    requires total >= 1
    ensures exists k :: 0 <= k < total && OnShard(Some(Shard(total, k)), prefix)
    ensures forall k, l ::
      (0 <= k < total && 0 <= l < total
       && OnShard(Some(Shard(total, k)), prefix) && OnShard(Some(Shard(total, l)), prefix)) ==> k == l
  {
    assert OnShard(Some(Shard(total, Count(prefix) % total)), prefix);
  }

  /** The number of ids below n that leave remainder k. */
  function Load(n: nat, total: nat, k: nat): nat
    requires k < total
  {
    n / total + if k < n % total then 1 else 0
  }

  lemma LoadStep(n: nat, total: nat, k: nat)
    requires k < total
    ensures Load(n + 1, total, k) == Load(n, total, k) + if n % total == k then 1 else 0
  {
    var q, r := n / total, n % total;
    assert n == q * total + r;
    if r + 1 < total {
      DivModUnique(n + 1, total, q, r + 1);
    } else {
      DivModUnique(n + 1, total, q + 1, 0);
    }
  }

  lemma DivModUnique(n: nat, d: nat, q: nat, r: nat)
    requires r < d && n == q * d + r
    ensures n / d == q && n % d == r
  {
    var p := n / d;
    assert n == p * d + n % d;
    if p < q {
      MulMonotone(p + 1, q, d);
    } else if q < p {
      MulMonotone(q + 1, p, d);
    }
  }

  lemma MulMonotone(a: nat, b: nat, d: nat)
    requires a <= b
    ensures a * d <= b * d
  {
  }

  lemma {:induction false} SelectedIsLoad(f: seq<bool>, total: nat, k: nat)
    requires k < total
    ensures SelectedCount(f, Some(Shard(total, k))) == Load(Count(f), total, k)
  {
    if f != [] {
      var n := |f| - 1;
      SelectedIsLoad(f[..n], total, k);
      if f[n] { LoadStep(Count(f[..n]), total, k); }
    }
  }

  /** The loads of two shards differ by at most one test. */
  lemma LoadsBalanced(f: seq<bool>, total: nat, k: nat, l: nat)
    requires k < total && l < total
    ensures -1 <= SelectedCount(f, Some(Shard(total, k))) - SelectedCount(f, Some(Shard(total, l))) <= 1
  {
    SelectedIsLoad(f, total, k);
    SelectedIsLoad(f, total, l);
  }

  /** The loads of the first k shards together. */
  function LoadsBelow(f: seq<bool>, total: nat, k: nat): nat
    requires k <= total
  {
    if k == 0 then 0 else LoadsBelow(f, total, k - 1) + SelectedCount(f, Some(Shard(total, k - 1)))
  }

  lemma {:induction false} LoadsBelowSum(f: seq<bool>, total: nat, k: nat, q: nat, r: nat)
    requires k <= total && total >= 1 && q == Count(f) / total && r == Count(f) % total
    ensures LoadsBelow(f, total, k) == k * q + if k < r then k else r
  {
    if k > 0 {
      LoadsBelowSum(f, total, k - 1, q, r);
      SelectedIsLoad(f, total, k - 1);
      assert Load(Count(f), total, k - 1) == q + if k - 1 < r then 1 else 0;
      assert k * q == (k - 1) * q + q;
    }
  }

  /** Together the shards run every runnable test. */
  lemma LoadsSumToRunnable(f: seq<bool>, total: nat)
    requires total >= 1
    ensures LoadsBelow(f, total, total) == Count(f)
  {
    LoadsBelowSum(f, total, total, Count(f) / total, Count(f) % total);
    assert Count(f) == total * (Count(f) / total) + Count(f) % total;
  }

  // ----- FilterTests --------------------------------------------------------

  /** The names the built-in filter for disabled tests and cases matches. */
  ghost predicate AreDisabled(disabled: iset<string>) {
    forall n: string {:trigger SomeSegmentMatches(DISABLE_TEST_FILTER, n)} ::
      n in disabled <==> SomeSegmentMatches(DISABLE_TEST_FILTER, n)
  }

  method IsDisabledName(name: CString, ghost disabled: iset<string>) returns (r: bool)
    requires AreDisabled(disabled)
    ensures r <==> name in disabled
  {
    r := MatchesFilter(name, DISABLE_TEST_FILTER);
  }

  /** What FilterTests finds out about a test before it looks at the shards. */
  datatype Verdict = Verdict(isDisabled: bool, matchesFilter: bool, runnable: bool)

  ghost function VerdictOn(config: Config, disabled: iset<string>, caseName: CString, testName: CString): Verdict {
    var isDisabled := caseName in disabled || testName in disabled;
    var matchesFilter := FilterSelects(config.filter, FullName(caseName, testName));
    Verdict(isDisabled, matchesFilter, (config.alsoRunDisabled || !isDisabled) && matchesFilter)
  }

  ghost predicate AreVerdicts(verdicts: seq<Verdict>, config: Config, disabled: iset<string>,
                              caseName: CString, tests: seq<TestInfo>)
  {
    && |verdicts| == |tests|
    && forall j {:trigger VerdictOn(config, disabled, caseName, tests[j].name)} ::
         0 <= j < |tests| ==> verdicts[j] == VerdictOn(config, disabled, caseName, tests[j].name)
  }

  ghost function Runnables(verdicts: seq<Verdict>): (r: seq<bool>)
    ensures |r| == |verdicts| && forall j :: 0 <= j < |r| ==> r[j] == verdicts[j].runnable
  {
    seq(|verdicts|, j requires 0 <= j < |verdicts| => verdicts[j].runnable)
  }

  /** What FilterTests leaves in a test, where prefix are the tests before it. */
  ghost predicate Decided(t: TestInfo, v: Verdict, shard: Option<Shard>, prefix: seq<bool>)
    requires shard.Some? ==> shard.value.index < shard.value.total
    reads t
  {
    && t.isDisabled == v.isDisabled && t.matchesFilter == v.matchesFilter
    && (t.shouldRun <==> v.runnable && OnShard(shard, prefix))
  }

  /** The body of the inner loop. */
  method FilterTest(t: TestInfo, caseName: CString, config: Config, numRunnable: nat,
                    ghost disabled: iset<string>, ghost prefix: seq<bool>)
    returns (isRunnable: bool)
    requires ValidConfig(config) && AreDisabled(disabled) && numRunnable == Count(prefix)
    modifies t
    ensures Decided(t, VerdictOn(config, disabled, caseName, t.name), config.shard, prefix)
    ensures isRunnable == VerdictOn(config, disabled, caseName, t.name).runnable
  {
    var caseDisabled := IsDisabledName(caseName, disabled);
    var testDisabled := IsDisabledName(t.name, disabled);
    t.isDisabled := caseDisabled || testDisabled;
    t.matchesFilter := FilterMatchesTest(config.filter, caseName, t.name);
    isRunnable := (config.alsoRunDisabled || !t.isDisabled) && t.matchesFilter;
    t.shouldRun := isRunnable &&
      (config.shard == None ||
       ShouldRunTestOnShard(config.shard.value.total, config.shard.value.index, numRunnable));
  }

  /** The first n tests of a case are decided; before are the tests of the
      cases before it. */
  ghost predicate TestsDecided(tests: seq<TestInfo>, n: nat, verdicts: seq<Verdict>,
                               shard: Option<Shard>, before: seq<bool>)
    requires shard.Some? ==> shard.value.index < shard.value.total
    requires n <= |tests| == |verdicts|
    reads tests
  {
    forall j :: 0 <= j < n ==> Decided(tests[j], verdicts[j], shard, before + Runnables(verdicts)[..j])
  }

  ghost predicate SomeShouldRun(tests: seq<TestInfo>, n: nat)
    requires n <= |tests|
    reads tests
  {
    exists j :: 0 <= j < n && tests[j].shouldRun
  }

  lemma CountAppend(before: seq<bool>, row: seq<bool>, j: nat, shard: Option<Shard>)
    requires shard.Some? ==> shard.value.index < shard.value.total
    requires j < |row|
    ensures var f := before + row[..j];
      && Count(before + row[..j + 1]) == Count(f) + (if row[j] then 1 else 0)
      && SelectedCount(before + row[..j + 1], shard)
         == SelectedCount(f, shard) + if row[j] && OnShard(shard, f) then 1 else 0
  {
    var f := before + row[..j];
    assert before + row[..j + 1] == f + [row[j]];
    assert (f + [row[j]])[..|f|] == f;
  }

  /** Deciding test j leaves the decisions before it as they are. */
  method FilterNext(c: TestCase, j: nat, config: Config, numRunnable: nat,
                    ghost disabled: iset<string>, ghost verdicts: seq<Verdict>, ghost before: seq<bool>)
    returns (isRunnable: bool)
    requires ValidConfig(config) && AreDisabled(disabled) && NoDuplicates(c.testInfoList)
    requires AreVerdicts(verdicts, config, disabled, c.name, c.testInfoList)
    requires j < |c.testInfoList| && TestsDecided(c.testInfoList, j, verdicts, config.shard, before)
    requires numRunnable == Count(before + Runnables(verdicts)[..j])
    modifies c.testInfoList[j]
    ensures TestsDecided(c.testInfoList, j + 1, verdicts, config.shard, before)
    ensures isRunnable == Runnables(verdicts)[j]
  {
    isRunnable := FilterTest(c.testInfoList[j], c.name, config, numRunnable, disabled,
                             before + Runnables(verdicts)[..j]);
  }

  /** Deciding test j and counting it. */
  method FilterCounted(c: TestCase, j: nat, config: Config, numRunnable: nat, numSelected: nat,
                       ghost disabled: iset<string>, ghost verdicts: seq<Verdict>, ghost before: seq<bool>)
    returns (runnable: nat, selected: nat)
    requires ValidConfig(config) && AreDisabled(disabled) && NoDuplicates(c.testInfoList)
    requires AreVerdicts(verdicts, config, disabled, c.name, c.testInfoList)
    requires j < |c.testInfoList| && TestsDecided(c.testInfoList, j, verdicts, config.shard, before)
    requires numRunnable == Count(before + Runnables(verdicts)[..j])
    requires numSelected == SelectedCount(before + Runnables(verdicts)[..j], config.shard)
    modifies c`shouldRun, c.testInfoList[j]
    ensures TestsDecided(c.testInfoList, j + 1, verdicts, config.shard, before)
    ensures runnable == Count(before + Runnables(verdicts)[..j + 1])
    ensures selected == SelectedCount(before + Runnables(verdicts)[..j + 1], config.shard)
    ensures c.shouldRun <==> old(c.shouldRun) || selected > numSelected
    ensures selected >= numSelected
  {
    var t := c.testInfoList[j];
    var isRunnable := FilterNext(c, j, config, numRunnable, disabled, verdicts, before);
    CountAppend(before, Runnables(verdicts), j, config.shard);
    assert Decided(t, verdicts[j], config.shard, before + Runnables(verdicts)[..j]);
    runnable := numRunnable + if isRunnable then 1 else 0;
    selected := numSelected + if t.shouldRun then 1 else 0;
    c.shouldRun := c.shouldRun || t.shouldRun;
  }

  /** The inner loop: before are the tests of the cases before c. */
  method FilterLoop(c: TestCase, config: Config, numRunnable: nat, numSelected: nat,
                    ghost disabled: iset<string>, ghost verdicts: seq<Verdict>, ghost before: seq<bool>)
    returns (runnable: nat, selected: nat)
    requires ValidConfig(config) && AreDisabled(disabled) && NoDuplicates(c.testInfoList)
    requires AreVerdicts(verdicts, config, disabled, c.name, c.testInfoList)
    requires numRunnable == Count(before) && numSelected == SelectedCount(before, config.shard)
    modifies c`shouldRun, c.testInfoList
    ensures TestsDecided(c.testInfoList, |c.testInfoList|, verdicts, config.shard, before)
    ensures c.shouldRun <==> old(c.shouldRun) || selected > numSelected
    ensures runnable == Count(before + Runnables(verdicts))
    ensures selected == SelectedCount(before + Runnables(verdicts), config.shard)
  {
    ghost var row := Runnables(verdicts);
    runnable, selected := numRunnable, numSelected;
    var j := 0;
    assert before + row[..0] == before;
    while j < |c.testInfoList|
      invariant 0 <= j <= |c.testInfoList|
      invariant TestsDecided(c.testInfoList, j, verdicts, config.shard, before)
      invariant c.shouldRun <==> old(c.shouldRun) || selected > numSelected
      invariant selected >= numSelected
      invariant runnable == Count(before + row[..j])
      invariant selected == SelectedCount(before + row[..j], config.shard)
    {
      runnable, selected := FilterCounted(c, j, config, runnable, selected, disabled, verdicts, before);
      j := j + 1;
    }
    assert row[..j] == row;
  }

  /** The body of the outer loop. */
  method FilterCase(c: TestCase, config: Config, numRunnable: nat, numSelected: nat,
                    ghost disabled: iset<string>, ghost verdicts: seq<Verdict>, ghost before: seq<bool>)
    returns (runnable: nat, selected: nat)
    requires ValidConfig(config) && AreDisabled(disabled) && NoDuplicates(c.testInfoList)
    requires AreVerdicts(verdicts, config, disabled, c.name, c.testInfoList)
    requires numRunnable == Count(before) && numSelected == SelectedCount(before, config.shard)
    modifies c`shouldRun, c.testInfoList
    ensures TestsDecided(c.testInfoList, |c.testInfoList|, verdicts, config.shard, before)
    ensures c.shouldRun <==> SomeShouldRun(c.testInfoList, |c.testInfoList|)
    ensures runnable == Count(before + Runnables(verdicts))
    ensures selected == SelectedCount(before + Runnables(verdicts), config.shard)
  {
    c.shouldRun := false;
    runnable, selected := FilterLoop(c, config, numRunnable, numSelected, disabled, verdicts, before);
    SomeIffCounted(c.testInfoList, verdicts, config.shard, before);
  }

  lemma {:induction false} SelectedSome(before: seq<bool>, row: seq<bool>, shard: Option<Shard>)
    requires shard.Some? ==> shard.value.index < shard.value.total
    ensures SelectedCount(before + row, shard) >= SelectedCount(before, shard)
    ensures SelectedCount(before + row, shard) > SelectedCount(before, shard) <==>
      exists j :: 0 <= j < |row| && row[j] && OnShard(shard, before + row[..j])
  {
    if row == [] {
      assert before + row == before;
    } else {
      var n := |row| - 1;
      SelectedSome(before, row[..n], shard);
      assert row[..n + 1] == row;
      CountAppend(before, row, n, shard);
      assert forall j :: 0 <= j < n ==> row[..n][..j] == row[..j];
    }
  }

  lemma SomeIffCounted(tests: seq<TestInfo>, verdicts: seq<Verdict>, shard: Option<Shard>, before: seq<bool>)
    requires shard.Some? ==> shard.value.index < shard.value.total
    requires |tests| == |verdicts| && TestsDecided(tests, |tests|, verdicts, shard, before)
    ensures SomeShouldRun(tests, |tests|) <==>
      SelectedCount(before + Runnables(verdicts), shard) > SelectedCount(before, shard)
  {
    var row := Runnables(verdicts);
    SelectedSome(before, row, shard);
    if j :| 0 <= j < |tests| && tests[j].shouldRun {
      assert Decided(tests[j], verdicts[j], shard, before + row[..j]);
      assert row[j] && OnShard(shard, before + row[..j]);
    }
    if j :| 0 <= j < |row| && row[j] && OnShard(shard, before + row[..j]) {
      assert Decided(tests[j], verdicts[j], shard, before + row[..j]);
      assert tests[j].shouldRun;
    }
  }

  /** The cases hold these tests, and every test is filed once. */
  ghost predicate Filed(cases: seq<TestCase>, lists: seq<seq<TestInfo>>)
    reads cases`testInfoList
  {
    && |lists| == |cases|
    && (forall i :: 0 <= i < |cases| ==> cases[i].testInfoList == lists[i] && NoDuplicates(lists[i]))
    && (forall i, k :: 0 <= i < k < |cases| ==> cases[i] != cases[k])
    && (forall i, k :: 0 <= i < |lists| && 0 <= k < |lists| && i != k ==> Disjoint(lists[i], lists[k]))
  }

  ghost function AllTests(lists: seq<seq<TestInfo>>): (r: set<TestInfo>)
    ensures forall i :: 0 <= i < |lists| ==> forall t :: t in lists[i] ==> t in r
  {
    set l, t | l in lists && t in l :: t
  }

  ghost predicate AreAllVerdicts(table: seq<seq<Verdict>>, config: Config, disabled: iset<string>,
                                 cases: seq<TestCase>, lists: seq<seq<TestInfo>>)
  {
    && |table| == |cases| == |lists|
    && forall i :: 0 <= i < |cases| ==> AreVerdicts(table[i], config, disabled, cases[i].name, lists[i])
  }

  /** The runnable flags of the first i cases, in order. */
  ghost function Before(table: seq<seq<Verdict>>, i: nat): seq<bool>
    requires i <= |table|
  {
    if i == 0 then [] else Before(table, i - 1) + Runnables(table[i - 1])
  }

  ghost predicate CaseDecided(c: TestCase, tests: seq<TestInfo>, verdicts: seq<Verdict>,
                              shard: Option<Shard>, before: seq<bool>)
    requires shard.Some? ==> shard.value.index < shard.value.total
    reads c`shouldRun, tests
  {
    && |verdicts| == |tests|
    && TestsDecided(tests, |tests|, verdicts, shard, before)
    && (c.shouldRun <==> SomeShouldRun(tests, |tests|))
  }

  ghost predicate AllDecided(cases: seq<TestCase>, lists: seq<seq<TestInfo>>, n: nat,
                             table: seq<seq<Verdict>>, shard: Option<Shard>)
    requires shard.Some? ==> shard.value.index < shard.value.total
    requires n <= |cases| == |lists| == |table|
    reads cases`shouldRun, AllTests(lists)
  {
    forall i :: 0 <= i < n ==> CaseDecided(cases[i], lists[i], table[i], shard, Before(table, i))
  }

  /** One round of the outer loop leaves the earlier cases as they are. */
  method FilterNextCase(cases: seq<TestCase>, i: nat, config: Config, numRunnable: nat, numSelected: nat,
                        ghost lists: seq<seq<TestInfo>>, ghost disabled: iset<string>, ghost table: seq<seq<Verdict>>)
    returns (runnable: nat, selected: nat)
    requires ValidConfig(config) && AreDisabled(disabled) && Filed(cases, lists) && i < |cases|
    requires AreAllVerdicts(table, config, disabled, cases, lists)
    requires AllDecided(cases, lists, i, table, config.shard)
    requires numRunnable == Count(Before(table, i)) && numSelected == SelectedCount(Before(table, i), config.shard)
    modifies {cases[i]}`shouldRun, lists[i]
    ensures AllDecided(cases, lists, i + 1, table, config.shard)
    ensures runnable == Count(Before(table, i + 1))
    ensures selected == SelectedCount(Before(table, i + 1), config.shard)
  {
    runnable, selected := FilterCase(cases[i], config, numRunnable, numSelected, disabled, table[i], Before(table, i));
    forall k | 0 <= k < i
      ensures CaseDecided(cases[k], lists[k], table[k], config.shard, Before(table, k))
    {
      assert Disjoint(lists[k], lists[i]);
      var c, tests, verdicts, before := cases[k], lists[k], table[k], Before(table, k);
      assert old(CaseDecided(c, tests, verdicts, config.shard, before));
      assert unchanged(tests) && c.shouldRun == old(c.shouldRun);
      assert TestsDecided(tests, |tests|, verdicts, config.shard, before);
      assert SomeShouldRun(tests, |tests|) == old(SomeShouldRun(tests, |tests|));
    }
  }

  /** Records in every test and case whether it runs in this process, and
      counts the tests that do. */
  method FilterTests(cases: seq<TestCase>, config: Config,
                     ghost lists: seq<seq<TestInfo>>, ghost disabled: iset<string>, ghost table: seq<seq<Verdict>>)
    returns (numSelected: nat)
    requires ValidConfig(config) && AreDisabled(disabled) && Filed(cases, lists)
    requires AreAllVerdicts(table, config, disabled, cases, lists)
    modifies cases`shouldRun, AllTests(lists)
    ensures AllDecided(cases, lists, |cases|, table, config.shard)
    ensures numSelected == SelectedCount(Before(table, |cases|), config.shard)
  {
    var numRunnable := 0;
    numSelected := 0;
    var i := 0;
    while i < |cases|
      invariant 0 <= i <= |cases|
      invariant AllDecided(cases, lists, i, table, config.shard)
      invariant numRunnable == Count(Before(table, i))
      invariant numSelected == SelectedCount(Before(table, i), config.shard)
    {
      numRunnable, numSelected := FilterNextCase(cases, i, config, numRunnable, numSelected, lists, disabled, table);
      i := i + 1;
    }
  }
}
