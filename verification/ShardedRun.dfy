/**
  Filtering and running together: whatever the filter and the seeds, the
  shards between them start every runnable test, and each of them once.
 */
module ShardedRuns {
  import opened Basics
  import opened Filters
  import opened Shuffling
  import opened Registry
  import opened RegistryModel
  import opened Events
  import opened Outcomes
  import opened Runner
  import opened RunProperties
  import S = Sharding

  // ----- Sums ---------------------------------------------------------------

  lemma {:induction false} SumEqual<T>(f: int -> multiset<T>, g: int -> multiset<T>, indices: seq<int>)
    requires forall x :: x in indices ==> f(x) == g(x)
    ensures Sum(f, indices) == Sum(g, indices)
  {
    if indices != [] {
      var rest, x := indices[..|indices| - 1], indices[|indices| - 1];
      SumEqual(f, g, rest);
      assert x in indices;
    }
  }

  lemma {:induction false} SumEmpty<T>(f: int -> multiset<T>, indices: seq<int>)
    requires forall x :: x in indices ==> f(x) == multiset{}
    ensures Sum(f, indices) == multiset{}
  {
    if indices != [] {
      var rest, x := indices[..|indices| - 1], indices[|indices| - 1];
      SumEmpty(f, rest);
      assert x in indices;
    }
  }

  lemma Regroup4<T>(a: multiset<T>, b: multiset<T>, c: multiset<T>, d: multiset<T>)
    ensures (a + b) + (c + d) == (a + c) + (b + d)
  {
  }

  lemma {:induction false} SumPlus<T>(f: int -> multiset<T>, g: int -> multiset<T>, h: int -> multiset<T>,
                                      indices: seq<int>)
    requires forall x :: x in indices ==> h(x) == f(x) + g(x)
    ensures Sum(h, indices) == Sum(f, indices) + Sum(g, indices)
  {
    if indices != [] {
      var n := |indices| - 1;
      var rest, x := indices[..n], indices[n];
      SumPlus(f, g, h, rest);
      assert x in indices;
      Regroup4(Sum(f, rest), Sum(g, rest), f(x), g(x));
    }
  }

  ghost function Row<T>(f: (int, int) -> multiset<T>, x: int): int -> multiset<T> {
    y => f(x, y)
  }

  ghost function Column<T>(f: (int, int) -> multiset<T>, y: int): int -> multiset<T> {
    x => f(x, y)
  }

  ghost function RowSums<T>(f: (int, int) -> multiset<T>, b: seq<int>): int -> multiset<T> {
    x => Sum(Row(f, x), b)
  }

  ghost function ColumnSums<T>(f: (int, int) -> multiset<T>, a: seq<int>): int -> multiset<T> {
    y => Sum(Column(f, y), a)
  }

  /** A table adds up to the same by rows and by columns. */
  lemma {:induction false} SumSwap<T>(f: (int, int) -> multiset<T>, a: seq<int>, b: seq<int>)
    ensures Sum(RowSums(f, b), a) == Sum(ColumnSums(f, a), b)
    decreases |a|
  {
    if a == [] {
      SumEmpty(ColumnSums(f, a), b);
    } else {
      var rest, x := a[..|a| - 1], a[|a| - 1];
      SumSwap(f, rest, b);
      SumPlus(ColumnSums(f, rest), Row(f, x), ColumnSums(f, a), b);
    }
  }

  /** Only index x adds anything. */
  lemma {:induction false} SumOne<T>(f: int -> multiset<T>, n: nat, x: int)
    requires 0 <= x < n && forall y :: 0 <= y < n && y != x ==> f(y) == multiset{}
    ensures Sum(f, Identity(n)) == f(x)
  {
    var rest := Identity(n)[..n - 1];
    assert rest == Identity(n - 1);
    if x == n - 1 {
      SumEmpty(f, rest);
    } else {
      SumOne(f, n - 1, x);
    }
  }

  // ----- What the filter selects --------------------------------------------

  type Table = seq<seq<S.Verdict>>

  ghost predicate ValidShard(shard: Option<S.Shard>) {
    shard.Some? ==> shard.value.index < shard.value.total
  }

  /** Test j of case c is runnable and falls to this shard. */
  ghost predicate Selected(table: Table, shard: Option<S.Shard>, c: int, j: int)
    requires ValidShard(shard)
  {
    && 0 <= c < |table| && 0 <= j < |table[c]|
    && table[c][j].runnable && S.OnShard(shard, S.Before(table, c) + S.Runnables(table[c])[..j])
  }

  ghost predicate Matching(lists: seq<seq<TestInfo>>, table: Table) {
    |lists| == |table| && forall c :: 0 <= c < |lists| ==> |lists[c]| == |table[c]|
  }

  ghost predicate CaseSelected(table: Table, shard: Option<S.Shard>, c: int)
    requires ValidShard(shard)
  {
    exists j :: Selected(table, shard, c, j)
  }

  ghost function SelectedTests(lists: seq<seq<TestInfo>>, table: Table, shard: Option<S.Shard>): (r: set<TestInfo>)
    requires ValidShard(shard) && Matching(lists, table)
  {
    set c, j | 0 <= c < |lists| && 0 <= j < |lists[c]| && Selected(table, shard, c, j) :: lists[c][j]
  }

  /** The marks FilterTests leaves. */
  ghost function MarksOf(lists: seq<seq<TestInfo>>, table: Table, shard: Option<S.Shard>): (r: Marks)
    requires ValidShard(shard) && Matching(lists, table)
    ensures |r.cases| == |lists|
  {
    Marks(seq(|lists|, c requires 0 <= c < |lists| => CaseSelected(table, shard, c)),
          SelectedTests(lists, table, shard))
  }

  lemma FiledAtOnePlace(lists: seq<seq<TestInfo>>, c: int, j: int, d: int, k: int)
    requires FiledOnce(lists) && 0 <= c < |lists| && 0 <= j < |lists[c]| && 0 <= d < |lists| && 0 <= k < |lists[d]|
    requires lists[c][j] == lists[d][k]
    ensures c == d && j == k
  {
    assert NoDuplicates(lists[c]);
  }

  lemma SelectedIffIn(lists: seq<seq<TestInfo>>, table: Table, shard: Option<S.Shard>, c: int, j: int)
    requires ValidShard(shard) && Matching(lists, table) && FiledOnce(lists)
    requires 0 <= c < |lists| && 0 <= j < |lists[c]|
    ensures lists[c][j] in SelectedTests(lists, table, shard) <==> Selected(table, shard, c, j)
  {
    if lists[c][j] in SelectedTests(lists, table, shard) {
      var d, k :| 0 <= d < |lists| && 0 <= k < |lists[d]| && Selected(table, shard, d, k) && lists[d][k] == lists[c][j];
      FiledAtOnePlace(lists, c, j, d, k);
    }
  }

  lemma {:induction false} CountedIffSelected(table: Table, shard: Option<S.Shard>, n: nat)
    requires ValidShard(shard) && n <= |table| && S.SelectedCount(S.Before(table, n), shard) == 0
    ensures forall c, j :: c < n ==> !Selected(table, shard, c, j)
  {
    if n > 0 {
      S.SelectedSome(S.Before(table, n - 1), S.Runnables(table[n - 1]), shard);
      CountedIffSelected(table, shard, n - 1);
    }
  }

  lemma FilteredMarks(cases: seq<TestCase>, lists: seq<seq<TestInfo>>, table: Table, shard: Option<S.Shard>)
    requires ValidShard(shard) && S.Filed(cases, lists) && FiledOnce(lists) && Matching(lists, table)
    requires S.AllDecided(cases, lists, |cases|, table, shard)
    ensures Marked(cases, MarksOf(lists, table, shard), S.AllTests(lists))
  {
    var marks := MarksOf(lists, table, shard);
    forall c | 0 <= c < |cases|
      ensures cases[c].shouldRun == marks.cases[c]
      ensures ShouldRuns(cases[c].testInfoList, marks.tests)
    {
      CaseFiltered(cases[c], c, lists, table, shard);
    }
  }

  lemma CaseFiltered(testCase: TestCase, c: nat, lists: seq<seq<TestInfo>>, table: Table, shard: Option<S.Shard>)
    requires ValidShard(shard) && FiledOnce(lists) && Matching(lists, table) && c < |lists|
    requires testCase.testInfoList == lists[c]
    requires S.CaseDecided(testCase, lists[c], table[c], shard, S.Before(table, c))
    ensures testCase.shouldRun == MarksOf(lists, table, shard).cases[c]
    ensures ShouldRuns(testCase.testInfoList, MarksOf(lists, table, shard).tests)
  {
    var tests := lists[c];
    forall j | 0 <= j < |tests|
      ensures tests[j].shouldRun <==> Selected(table, shard, c, j)
      ensures tests[j].shouldRun <==> tests[j] in SelectedTests(lists, table, shard)
    {
      assert S.Decided(tests[j], table[c][j], shard, S.Before(table, c) + S.Runnables(table[c])[..j]);
      SelectedIffIn(lists, table, shard, c, j);
    }
  }

  // ----- Which shard a test falls to ----------------------------------------

  /** The runnable tests registered before test j of case c, by position. */
  ghost function Earlier(table: Table, c: nat, j: nat): set<(int, int)> {
    set d, i | 0 <= d < |table| && 0 <= i < |table[d]| && (d < c || (d == c && i < j)) && table[d][i].runnable :: (d, i)
  }

  lemma EarlierInCase(table: Table, c: nat, j: nat)
    requires c < |table| && j < |table[c]|
    ensures Earlier(table, c, j + 1) == Earlier(table, c, j) + (if table[c][j].runnable then {(c, j)} else {})
    ensures (c as int, j as int) !in Earlier(table, c, j)
  {
  }

  lemma EarlierCases(table: Table, c: nat)
    requires c < |table|
    ensures Earlier(table, c + 1, 0) == Earlier(table, c, |table[c]|)
  {
  }

  lemma {:induction false} EarlierCount(table: Table, c: nat, j: nat)
    requires c < |table| && j <= |table[c]|
    ensures |Earlier(table, c, j)| == S.Count(S.Before(table, c) + S.Runnables(table[c])[..j])
    decreases c, j
  {
    var before, row := S.Before(table, c), S.Runnables(table[c]);
    if j > 0 {
      EarlierCount(table, c, j - 1);
      EarlierInCase(table, c, j - 1);
      S.CountAppend(before, row, j - 1, None);
    } else {
      assert before + row[..0] == before;
      if c > 0 {
        var last := S.Runnables(table[c - 1]);
        EarlierCount(table, c - 1, |table[c - 1]|);
        EarlierCases(table, c - 1);
        assert last[..|last|] == last;
      } else {
        assert Earlier(table, 0, 0) == {};
      }
    }
  }

  /** The runnable tests go to the shards in turn, in registration order. */
  lemma ShardsTakeTurns(table: Table, total: nat, k: nat, c: nat, j: nat)
    requires k < total && c < |table| && j < |table[c]|
    ensures Selected(table, Some(S.Shard(total, k)), c, j)
      <==> table[c][j].runnable && |Earlier(table, c, j)| % total == k
    ensures Selected(table, None, c, j) <==> table[c][j].runnable
  {
    EarlierCount(table, c, j);
  }

  ghost predicate SelectedBelow(table: Table, shard: Option<S.Shard>, n: nat)
    requires ValidShard(shard)
  {
    exists c, j :: c < n && Selected(table, shard, c, j)
  }

  lemma SelectedBelowNext(table: Table, shard: Option<S.Shard>, n: nat)
    requires ValidShard(shard)
    ensures SelectedBelow(table, shard, n + 1)
      <==> SelectedBelow(table, shard, n) || exists j :: Selected(table, shard, n, j)
  {
    if c, j :| c < n && Selected(table, shard, c, j) {
      assert c < n + 1;
    }
    if j :| Selected(table, shard, n, j) {
      assert n < n + 1;
    }
  }

  lemma {:induction false} SomeSelected(table: Table, shard: Option<S.Shard>, n: nat)
    requires ValidShard(shard) && n <= |table|
    ensures S.SelectedCount(S.Before(table, n), shard) > 0 <==> SelectedBelow(table, shard, n)
  {
    if n > 0 {
      SomeSelected(table, shard, n - 1);
      SomeSelectedInCase(table, shard, n - 1);
      SelectedBelowNext(table, shard, n - 1);
    }
  }

  lemma SomeSelectedInCase(table: Table, shard: Option<S.Shard>, n: nat)
    requires ValidShard(shard) && n < |table|
    ensures S.SelectedCount(S.Before(table, n + 1), shard) > 0
      <==> S.SelectedCount(S.Before(table, n), shard) > 0 || exists j :: Selected(table, shard, n, j)
  {
    var before, row := S.Before(table, n), S.Runnables(table[n]);
    S.SelectedSome(before, row, shard);
    if j :| 0 <= j < |row| && row[j] && S.OnShard(shard, before + row[..j]) {
      assert Selected(table, shard, n, j);
    }
  }

  // ----- Filtering, then running --------------------------------------------

  ghost function Lists(cases: seq<TestCase>): (r: seq<seq<TestInfo>>)
    reads cases
    ensures |r| == |cases| && forall c :: 0 <= c < |r| ==> r[c] == cases[c].testInfoList
  {
    seq(|cases|, c requires 0 <= c < |cases| reads cases => cases[c].testInfoList)
  }

  ghost function Disabled(): (r: iset<string>)
    ensures S.AreDisabled(r)
  {
    iset n: string | SomeSegmentMatches(DISABLE_TEST_FILTER, n)
  }

  /** What FilterTests finds out about every test. */
  ghost function Verdicts(cases: seq<TestCase>, filter: S.Config): (table: Table)
    reads cases
    ensures S.AreAllVerdicts(table, filter, Disabled(), cases, Lists(cases)) && Matching(Lists(cases), table)
  {
    var lists := Lists(cases);
    seq(|cases|, c requires 0 <= c < |cases| reads cases =>
      seq(|lists[c]|, j requires 0 <= j < |lists[c]| =>
        S.VerdictOn(filter, Disabled(), cases[c].name, lists[c][j].name)))
  }

  lemma AreFiled(cases: seq<TestCase>)
    requires NoDuplicates(cases) && FiledOnce(Lists(cases))
    ensures S.Filed(cases, Lists(cases))
  {
  }

  /** FilterTests marks the tests to run. */
  method MarkTests(cases: seq<TestCase>, filter: S.Config, ghost lists: seq<seq<TestInfo>>, ghost table: Table)
    returns (numSelected: nat)
    requires S.Filed(cases, lists) && S.ValidConfig(filter) && FiledOnce(lists) && Matching(lists, table)
    requires S.AreAllVerdicts(table, filter, Disabled(), cases, lists)
    modifies cases`shouldRun, S.AllTests(lists)
    ensures Marked(cases, MarksOf(lists, table, filter.shard), S.AllTests(lists))
    ensures numSelected == S.SelectedCount(S.Before(table, |table|), filter.shard)
  {
    numSelected := S.FilterTests(cases, filter, lists, Disabled(), table);
    FilteredMarks(cases, lists, table, filter.shard);
  }

  twostate lemma StateKept(impl: UnitTestImpl)
    requires old(impl.Valid()) && impl.testCases == old(impl.testCases)
    requires impl.lastDeathTestCase == old(impl.lastDeathTestCase)
    requires impl.testCaseIndices.elems == old(impl.testCaseIndices.elems)
    requires forall k :: 0 <= k < |impl.testCases| ==> impl.testCases[k].View() == old(impl.testCases[k].View())
    ensures impl.Valid() && impl.State() == old(impl.State())
  {
    assert Views(impl.testCases) == old(Views(impl.testCases));
  }

  /** What is to run once the filter has marked the tests. */
  ghost function SettingBy(impl: UnitTestImpl, filter: S.Config): Setting
    requires S.ValidConfig(filter)
    reads impl, impl.testCaseIndices, impl.testCases, impl.IndexVectors()
  {
    var lists := Lists(impl.testCases);
    Setting(impl.testCases, impl.State(), MarksOf(lists, Verdicts(impl.testCases, filter), filter.shard),
            S.AllTests(lists))
  }

  ghost function CountBy(impl: UnitTestImpl, filter: S.Config): nat
    requires S.ValidConfig(filter)
    reads impl, impl.testCases
  {
    S.SelectedCount(S.Before(Verdicts(impl.testCases, filter), |impl.testCases|), filter.shard)
  }

  /** Filtering marks the tests and leaves their order alone. */
  method Filter(impl: UnitTestImpl, filter: S.Config) returns (numSelected: nat)
    requires impl.Valid() && S.ValidConfig(filter) && FiledOnce(Lists(impl.testCases))
    modifies impl.testCases`shouldRun, S.AllTests(Lists(impl.testCases))
    ensures Stands(impl, old(SettingBy(impl, filter)))
    ensures numSelected == old(CountBy(impl, filter))
  {
    AreFiled(impl.testCases);
    numSelected := MarkTests(impl.testCases, filter, Lists(impl.testCases), Verdicts(impl.testCases, filter));
    StateKept(impl);
  }

  /** The flags that decide what becomes of the tests. */
  datatype Flags = Flags(help: bool, listTests: bool, inSubprocess: bool, repeat: int)

  predicate NothingRuns(flags: Flags) {
    flags.help || flags.listTests
  }

  /** In the subprocess of a death test, there is no sharding and no repeating. */
  function FilterFor(flags: Flags, filter: S.Config): (f: S.Config)
    ensures f.filter == filter.filter && f.alsoRunDisabled == filter.alsoRunDisabled
    ensures f.shard == None || (f.shard == filter.shard && !flags.inSubprocess)
    ensures !flags.inSubprocess ==> f == filter
  {
    if flags.inSubprocess then filter.(shard := None) else filter
  }

  function RepeatFor(flags: Flags): (n: int)
    ensures flags.inSubprocess ==> n == 1
    ensures !flags.inSubprocess ==> n == flags.repeat
  {
    if flags.inSubprocess then 1 else flags.repeat
  }

  /** UnitTestImpl::RunAllTests; config.hasTests and config.repeat do not
      matter, they are found out.  Of a run that repeats forever, this is what
      has happened after the first endless iterations. */
  method FilterAndRun(impl: UnitTestImpl, flags: Flags, filter: S.Config, config: Config, endless: nat,
                      adHoc: TestResult, repeater: TestEventRepeater)
    returns (ok: bool, ghost plans: seq<IterationRun<TestCase, TestInfo>>, ghost decided: Config)
    requires impl.Valid() && Unshuffled(impl.State()) && NoLarger(impl.State(), MAX_RANGE)
    requires S.ValidConfig(filter) && FiledOnce(Lists(impl.testCases))
    modifies repeater`log, adHoc, impl.random, impl.testCaseIndices, impl.IndexVectors()
    modifies impl.testCases`shouldRun, S.AllTests(Lists(impl.testCases))
    ensures impl.Valid() && impl.State() == old(impl.State()) && impl.testCases == old(impl.testCases)
    ensures NothingRuns(flags) ==> ok && repeater.log == old(repeater.log) && adHoc.parts == old(adHoc.parts)
    ensures !NothingRuns(flags) ==>
      && decided == config.(hasTests := old(CountBy(impl, FilterFor(flags, filter))) > 0, repeat := RepeatFor(flags))
      && |plans| == Rounds(decided, endless)
      && ArePlans(plans, impl.testCases, old(impl.State()), old(SettingBy(impl, FilterFor(flags, filter)).marks),
                  decided, old(adHoc.parts))
      && repeater.Reported(old(repeater.log), RunEvents(decided, plans))
      && (ok <==> AllPass(old(adHoc.parts), plans))
  {
    plans, decided := [], config;
    if flags.help {
      return true, plans, decided;
    }
    ghost var g := SettingBy(impl, FilterFor(flags, filter));
    var numSelected := Filter(impl, FilterFor(flags, filter));
    if flags.listTests {
      return true, plans, decided;
    }
    var found := config.(hasTests := numSelected > 0, repeat := RepeatFor(flags));
    decided := found;
    ok, plans := RunAllTests(impl, found, endless, adHoc, repeater, g);
  }

  // ----- What the shards start ----------------------------------------------

  /** What shard k starts of case c, by test. */
  ghost function TestOn(lists: seq<seq<TestInfo>>, table: Table, total: nat, c: int): (int, int) -> multiset<TestInfo>
    requires Matching(lists, table)
  {
    (k, j) => if 0 <= k < total && Selected(table, Some(S.Shard(total, k)), c, j)
              then multiset{lists[c][j]} else multiset{}
  }

  /** What shard k starts, by case. */
  ghost function CaseOn(lists: seq<seq<TestInfo>>, table: Table, total: nat): (int, int) -> multiset<TestInfo>
    requires Matching(lists, table)
  {
    (k, c) => if 0 <= c < |lists| then Sum(Row(TestOn(lists, table, total, c), k), Identity(|lists[c]|)) else multiset{}
  }

  ghost function RunnableTest(lists: seq<seq<TestInfo>>, table: Table, c: int): int -> multiset<TestInfo>
    requires Matching(lists, table)
  {
    j => if 0 <= c < |lists| && 0 <= j < |lists[c]| && table[c][j].runnable then multiset{lists[c][j]} else multiset{}
  }

  ghost function RunnableCase(lists: seq<seq<TestInfo>>, table: Table): int -> multiset<TestInfo>
    requires Matching(lists, table)
  {
    c => if 0 <= c < |lists| then Sum(RunnableTest(lists, table, c), Identity(|lists[c]|)) else multiset{}
  }

  /** All runnable tests. */
  ghost function RunnableTests(lists: seq<seq<TestInfo>>, table: Table): multiset<TestInfo>
    requires Matching(lists, table)
  {
    Sum(RunnableCase(lists, table), Identity(|lists|))
  }

  /** Exactly one shard starts a runnable test, and none any other. */
  lemma TestOnOneShard(lists: seq<seq<TestInfo>>, table: Table, total: nat, c: int, j: int)
    requires total >= 1 && Matching(lists, table) && 0 <= c < |lists| && 0 <= j < |lists[c]|
    ensures Sum(Column(TestOn(lists, table, total, c), j), Identity(total)) == RunnableTest(lists, table, c)(j)
  {
    var f := Column(TestOn(lists, table, total, c), j);
    if table[c][j].runnable {
      var prefix := S.Before(table, c) + S.Runnables(table[c])[..j];
      S.ExactlyOneShard(total, prefix);
      var k :| 0 <= k < total && S.OnShard(Some(S.Shard(total, k)), prefix);
      SumOne(f, total, k);
    } else {
      SumEmpty(f, Identity(total));
    }
  }

  lemma CaseOnShards(lists: seq<seq<TestInfo>>, table: Table, total: nat, c: int)
    requires total >= 1 && Matching(lists, table) && 0 <= c < |lists|
    ensures Sum(Column(CaseOn(lists, table, total), c), Identity(total)) == RunnableCase(lists, table)(c)
  {
    var f, a, b := TestOn(lists, table, total, c), Identity(total), Identity(|lists[c]|);
    SumEqual(Column(CaseOn(lists, table, total), c), RowSums(f, b), a);
    SumSwap(f, a, b);
    forall j | j in b
      ensures ColumnSums(f, a)(j) == RunnableTest(lists, table, c)(j)
    {
      TestOnOneShard(lists, table, total, c, j);
    }
    SumEqual(ColumnSums(f, a), RunnableTest(lists, table, c), b);
  }

  lemma AllOnShards(lists: seq<seq<TestInfo>>, table: Table, total: nat)
    requires total >= 1 && Matching(lists, table)
    ensures Sum(RowSums(CaseOn(lists, table, total), Identity(|lists|)), Identity(total)) == RunnableTests(lists, table)
  {
    var f, a, b := CaseOn(lists, table, total), Identity(total), Identity(|lists|);
    SumSwap(f, a, b);
    forall c | c in b
      ensures ColumnSums(f, a)(c) == RunnableCase(lists, table)(c)
    {
      CaseOnShards(lists, table, total, c);
    }
    SumEqual(ColumnSums(f, a), RunnableCase(lists, table), b);
  }

  /** s holds the cases with these tests. */
  ghost predicate HoldsLists(s: Order<TestInfo>, lists: seq<seq<TestInfo>>) {
    |s.cases| == |lists| && forall c :: 0 <= c < |lists| ==> s.cases[c].tests == lists[c]
  }

  lemma CasePicked(s: Order<TestInfo>, lists: seq<seq<TestInfo>>, table: Table, total: nat, k: nat, c: int)
    requires k < total && Matching(lists, table) && FiledOnce(lists) && HoldsLists(s, lists) && 0 <= c < |lists|
    ensures PickedCases(s.cases, MarksOf(lists, table, Some(S.Shard(total, k))))(c) == CaseOn(lists, table, total)(k, c)
  {
    var shard := Some(S.Shard(total, k));
    var marks := MarksOf(lists, table, shard);
    var f, b := Row(TestOn(lists, table, total, c), k), Identity(|lists[c]|);
    if CaseSelected(table, shard, c) {
      forall j | j in b
        ensures Picked(lists[c], marks.tests)(j) == f(j)
      {
        SelectedIffIn(lists, table, shard, c, j);
      }
      SumEqual(Picked(lists[c], marks.tests), f, b);
    } else {
      SumEmpty(f, b);
    }
  }

  lemma MarkedOnShard(s: Order<TestInfo>, lists: seq<seq<TestInfo>>, table: Table, total: nat, k: nat)
    requires k < total && Matching(lists, table) && FiledOnce(lists) && HoldsLists(s, lists)
    ensures MarkedTests(s, MarksOf(lists, table, Some(S.Shard(total, k))))
      == RowSums(CaseOn(lists, table, total), Identity(|lists|))(k)
  {
    var picked, b := PickedCases(s.cases, MarksOf(lists, table, Some(S.Shard(total, k)))), Identity(|lists|);
    var row := Row(CaseOn(lists, table, total), k);
    forall c | c in b
      ensures picked(c) == row(c)
    {
      CasePicked(s, lists, table, total, k, c);
    }
    SumEqual(picked, row, b);
  }

  lemma NoneOnShard(lists: seq<seq<TestInfo>>, table: Table, total: nat, k: nat)
    requires k < total && Matching(lists, table)
    requires S.SelectedCount(S.Before(table, |table|), Some(S.Shard(total, k))) == 0
    ensures RowSums(CaseOn(lists, table, total), Identity(|lists|))(k) == multiset{}
  {
    var row, b := Row(CaseOn(lists, table, total), k), Identity(|lists|);
    CountedIffSelected(table, Some(S.Shard(total, k)), |table|);
    forall c | c in b
      ensures row(c) == multiset{}
    {
      SumEmpty(Row(TestOn(lists, table, total, c), k), Identity(|lists[c]|));
    }
    SumEmpty(row, b);
  }

  /** The plan of an iteration on shard k, as filtering and running make it,
      with nothing fatal reported outside the tests so far. */
  ghost predicate RunsOnShard(plan: IterationRun<TestCase, TestInfo>, cases: seq<TestCase>, s: Order<TestInfo>,
                              table: Table, total: nat, k: nat, config: Config, i: nat, before: seq<PartResult>)
    requires k < total && Matching(TestLists(s), table)
  {
    && (config.hasTests <==> S.SelectedCount(S.Before(table, |table|), Some(S.Shard(total, k))) > 0)
    && IsPlan(plan, cases, s, MarksOf(TestLists(s), table, Some(S.Shard(total, k))), config, i, before)
    && !HasFatal(before + config.code.setUp(i))
  }

  lemma ListsOfState(impl: UnitTestImpl)
    ensures Lists(impl.testCases) == TestLists(impl.State())
  {
    forall c | 0 <= c < |impl.testCases|
      ensures Lists(impl.testCases)[c] == TestLists(impl.State())[c]
    {
      assert impl.State().cases[c] == impl.testCases[c].View();
    }
  }

  /** So FilterAndRun runs its iterations, as long as nothing fatal happens
      outside the tests. */
  lemma FilteredRunsOnShard(impl: UnitTestImpl, filter: S.Config, total: nat, k: nat, config: Config,
                            plans: seq<IterationRun<TestCase, TestInfo>>, start: seq<PartResult>, i: nat)
    requires k < total && filter.shard == Some(S.Shard(total, k)) && i < |plans|
    requires config.hasTests <==> CountBy(impl, filter) > 0
    requires ArePlans(plans, impl.testCases, impl.State(), SettingBy(impl, filter).marks, config, start)
    requires !HasFatal(AdHocAfter(start, plans[..i]) + config.code.setUp(i))
    ensures var table := Verdicts(impl.testCases, filter);
      && Matching(TestLists(impl.State()), table)
      && RunsOnShard(plans[i], impl.testCases, impl.State(), table, total, k, config, i, AdHocAfter(start, plans[..i]))
  {
    ListsOfState(impl);
  }

  /** An iteration on shard k starts what is selected for that shard. */
  lemma ShardStarts(plan: IterationRun<TestCase, TestInfo>, cases: seq<TestCase>, s: Order<TestInfo>,
                    deaths: iset<string>, table: Table, total: nat, k: nat, config: Config, i: nat,
                    before: seq<PartResult>)
    requires k < total && Matching(TestLists(s), table) && FiledOnce(TestLists(s)) && Inv(s, deaths)
    requires RunsOnShard(plan, cases, s, table, total, k, config, i, before)
    ensures Started(IterationEvents(i, plan))
      == RowSums(CaseOn(TestLists(s), table, total), Identity(|TestLists(s)|))(k)
  {
    var marks := MarksOf(TestLists(s), table, Some(S.Shard(total, k)));
    IterationStartsMarkedTests(plan, cases, s, deaths, marks, config, i, before);
    if config.hasTests {
      MarkedOnShard(s, TestLists(s), table, total, k);
    } else {
      NoneOnShard(TestLists(s), table, total, k);
    }
  }

  ghost function StartedOn(plans: int -> IterationRun<TestCase, TestInfo>, i: nat): int -> multiset<TestInfo> {
    k => Started(IterationEvents(i, plans(k)))
  }

  /** The shards run one iteration each, with the same tests and filter, but
      each with an order of its own: together they start every runnable test
      and no other, each as often as it is filed. */
  lemma ShardsStartRunnableTests(plans: int -> IterationRun<TestCase, TestInfo>, cases: int -> seq<TestCase>,
                                 s: Order<TestInfo>, deaths: iset<string>, table: Table, total: nat,
                                 configs: int -> Config, i: nat, before: int -> seq<PartResult>)
    requires total >= 1 && Matching(TestLists(s), table) && FiledOnce(TestLists(s)) && Inv(s, deaths)
    requires forall k :: 0 <= k < total ==>
      RunsOnShard(plans(k), cases(k), s, table, total, k, configs(k), i, before(k))
    ensures Sum(StartedOn(plans, i), Identity(total)) == RunnableTests(TestLists(s), table)
  {
    var lists := TestLists(s);
    var sums := RowSums(CaseOn(lists, table, total), Identity(|lists|));
    forall k | k in Identity(total)
      ensures StartedOn(plans, i)(k) == sums(k)
    {
      ShardStarts(plans(k), cases(k), s, deaths, table, total, k, configs(k), i, before(k));
    }
    SumEqual(StartedOn(plans, i), sums, Identity(total));
    AllOnShards(lists, table, total);
  }

  // ----- From registration to the shards ------------------------------------

  lemma {:induction false} SumCounts<T>(f: int -> multiset<T>, n: nat, x: int, t: T)
    requires forall y :: 0 <= y < n && y != x ==> f(y)[t] == 0
    ensures Sum(f, Identity(n))[t] == if 0 <= x < n then f(x)[t] else 0
  {
    if n > 0 {
      assert Identity(n)[..n - 1] == Identity(n - 1);
      SumCounts(f, n - 1, x, t);
    }
  }

  /** Each runnable test occurs once among the runnable tests. */
  lemma RunnableOnce(lists: seq<seq<TestInfo>>, table: Table, c: int, j: int)
    requires Matching(lists, table) && FiledOnce(lists) && 0 <= c < |lists| && 0 <= j < |lists[c]|
    ensures RunnableTests(lists, table)[lists[c][j]] == if table[c][j].runnable then 1 else 0
  {
    var t := lists[c][j];
    forall d | 0 <= d < |lists|
      ensures RunnableCase(lists, table)(d)[t]
        == if d == c && table[c][j].runnable then 1 else 0
    {
      var f := RunnableTest(lists, table, d);
      forall k | 0 <= k < |lists[d]| && !(d == c && k == j)
        ensures f(k)[t] == 0
      {
        if lists[d][k] == t {
          FiledAtOnePlace(lists, c, j, d, k);
          assert false;
        }
      }
      SumCounts(f, |lists[d]|, if d == c then j else -1, t);
    }
    SumCounts(RunnableCase(lists, table), |lists|, c, t);
  }

  /** From registration on: if every registration is of a test of its own,
      then in every iteration the shards between them start each runnable test
      exactly once and no other test at all, whatever their seeds. */
  lemma ShardsStartRegisteredTests(ops: seq<Op<TestInfo>>, plans: int -> IterationRun<TestCase, TestInfo>,
                                   cases: int -> seq<TestCase>, deaths: iset<string>, table: Table, total: nat,
                                   configs: int -> Config, i: nat, before: int -> seq<PartResult>, c: int, j: int)
    requires AllowedRun(deaths, ops) && DistinctTests(Registered(ops)) && total >= 1
    requires Matching(TestLists(Run(deaths, ops)), table)
    requires forall k :: 0 <= k < total ==>
      RunsOnShard(plans(k), cases(k), Run(deaths, ops), table, total, k, configs(k), i, before(k))
    requires var lists := TestLists(Run(deaths, ops)); 0 <= c < |lists| && 0 <= j < |lists[c]|
    ensures var lists := TestLists(Run(deaths, ops));
      Sum(StartedOn(plans, i), Identity(total))[lists[c][j]] == if table[c][j].runnable then 1 else 0
  {
    var s := Run(deaths, ops);
    EveryRunKeepsOrder(deaths, ops);
    RunFilesOnce(deaths, ops);
    ShardsStartRunnableTests(plans, cases, s, deaths, table, total, configs, i, before);
    RunnableOnce(TestLists(s), table, c, j);
  }

  /** The registry that a program has built is one that can be filtered. */
  lemma RegisteredIsFiledOnce(impl: UnitTestImpl, ops: seq<Op<TestInfo>>)
    requires impl.State() == Run(impl.deaths, ops) && DistinctTests(Registered(ops))
    ensures FiledOnce(Lists(impl.testCases)) && Lists(impl.testCases) == TestLists(impl.State())
  {
    RunFilesOnce(impl.deaths, ops);
    ListsOfState(impl);
  }

  // ----- A whole program ----------------------------------------------------

  lemma {:induction false} RegisteredTests(tests: seq<TestInfo>, n: nat)
    requires n <= |tests|
    ensures var regs := Registered(Registrations(tests[..n]));
      |regs| == n && forall i :: 0 <= i < n ==> regs[i] == (tests[i].caseName, tests[i])
  {
    if n > 0 {
      RegistrationsStep(tests, n - 1);
      RegisteredTests(tests, n - 1);
      var front := Registrations(tests[..n - 1]);
      assert (front + [Register(tests[n - 1].caseName, tests[n - 1])])[..n - 1] == front;
    }
  }

  lemma AllRegistered(tests: seq<TestInfo>)
    ensures var regs := Registered(Registrations(tests));
      |regs| == |tests| && forall i :: 0 <= i < |tests| ==> regs[i] == (tests[i].caseName, tests[i])
  {
    RegisteredTests(tests, |tests|);
    assert tests[..|tests|] == tests;
  }

  /** Nothing is shuffled while a program registers its tests. */
  lemma {:induction false} RegistrationsAllowed(tests: seq<TestInfo>, deaths: iset<string>, n: nat)
    requires n <= |tests|
    ensures var ops := Registrations(tests[..n]); AllowedRun(deaths, ops) && Unshuffled(Run(deaths, ops))
  {
    if n > 0 {
      var t := tests[n - 1];
      RegistrationsAllowed(tests, deaths, n - 1);
      RegistrationsStep(tests, n - 1);
      var front := Registrations(tests[..n - 1]);
      RunStep(deaths, front, Register(t.caseName, t));
      EveryRunKeepsOrder(deaths, front);
      AddKeepsInv(Run(deaths, front), deaths, t.caseName, t);
    }
  }

  /** The registry of a program with these tests. */
  ghost function ProgramOrder(tests: seq<TestInfo>): (s: Order<TestInfo>)
    ensures Shaped(s)
  {
    Run(DeathNames(), Registrations(tests))
  }

  /** What the filter makes of each test, by the names the test has. */
  ghost function TableOf(lists: seq<seq<TestInfo>>, filter: S.Config): (table: Table)
    ensures Matching(lists, table)
  {
    seq(|lists|, c requires 0 <= c < |lists| =>
      seq(|lists[c]|, j requires 0 <= j < |lists[c]| =>
        S.VerdictOn(filter, Disabled(), lists[c][j].caseName, lists[c][j].name)))
  }

  /** A test that is filed is one of these, and filed under its own case. */
  lemma FiledUnderItsName(tests: seq<TestInfo>, c: nat, j: nat)
    requires var s := ProgramOrder(tests); c < |s.cases| && j < |s.cases[c].tests|
    ensures var t := ProgramOrder(tests).cases[c].tests[j];
      t in tests && t.caseName == ProgramOrder(tests).cases[c].name
  {
    var s, regs := ProgramOrder(tests), Registered(Registrations(tests));
    AllRegistered(tests);
    EveryRunKeepsOrder(DeathNames(), Registrations(tests));
    assert s.cases[c].tests == TestsOf(regs, s.cases[c].name);
    var i := TestsOfMember(regs, s.cases[c].name, j);
    assert regs[i] == (tests[i].caseName, tests[i]);
  }

  lemma ProgramVerdicts(impl: UnitTestImpl, tests: seq<TestInfo>, filter: S.Config)
    requires impl.State() == ProgramOrder(tests)
    ensures Verdicts(impl.testCases, filter) == TableOf(TestLists(ProgramOrder(tests)), filter)
  {
    var lists, s := Lists(impl.testCases), ProgramOrder(tests);
    ListsOfState(impl);
    forall c | 0 <= c < |lists|
      ensures Verdicts(impl.testCases, filter)[c] == TableOf(lists, filter)[c]
    {
      assert s.cases[c] == impl.testCases[c].View();
      forall j | 0 <= j < |lists[c]|
        ensures impl.testCases[c].name == lists[c][j].caseName
      {
        FiledUnderItsName(tests, c, j);
      }
    }
  }

  /** What a program files are its own tests, each once. */
  lemma ProgramFiles(impl: UnitTestImpl, tests: seq<TestInfo>)
    requires impl.State() == ProgramOrder(tests) && impl.deaths == DeathNames()
    ensures forall t :: t in S.AllTests(Lists(impl.testCases)) ==> t in tests
    ensures NoDuplicates(tests) ==> FiledOnce(Lists(impl.testCases))
  {
    ListsOfState(impl);
    forall c, j | 0 <= c < |impl.testCases| && 0 <= j < |Lists(impl.testCases)[c]|
      ensures Lists(impl.testCases)[c][j] in tests
    {
      FiledUnderItsName(tests, c, j);
    }
    AllRegistered(tests);
    if NoDuplicates(tests) { RegisteredIsFiledOnce(impl, Registrations(tests)); }
  }

  /** A program from start to end: its tests are registered, then filtered and
      run. */
  method RunProgram(tests: seq<TestInfo>, flags: Flags, filter: S.Config, config: Config, endless: nat,
                    adHoc: TestResult, repeater: TestEventRepeater)
    returns (ok: bool, impl: UnitTestImpl, ghost plans: seq<IterationRun<TestCase, TestInfo>>, ghost decided: Config)
    requires NoDuplicates(tests) && |tests| <= MAX_RANGE && S.ValidConfig(filter)
    modifies repeater`log, adHoc, tests
    ensures impl.Valid() && impl.State() == ProgramOrder(tests)
    ensures NothingRuns(flags) ==> ok && repeater.log == old(repeater.log) && adHoc.parts == old(adHoc.parts)
    ensures !NothingRuns(flags) ==>
      var s, f := ProgramOrder(tests), FilterFor(flags, filter);
      var table := TableOf(TestLists(s), f);
      && decided == config.(hasTests := S.SelectedCount(S.Before(table, |table|), f.shard) > 0,
                            repeat := RepeatFor(flags))
      && |plans| == Rounds(decided, endless)
      && ArePlans(plans, impl.testCases, s, MarksOf(TestLists(s), table, f.shard), decided, old(adHoc.parts))
      && repeater.Reported(old(repeater.log), RunEvents(decided, plans))
      && (ok <==> AllPass(old(adHoc.parts), plans))
  {
    impl := RegisterAll(tests);
    ProgramFiles(impl, tests);
    ListsOfState(impl);
    ProgramVerdicts(impl, tests, FilterFor(flags, filter));
    ok, plans, decided := FilterAndRun(impl, flags, filter, config, endless, adHoc, repeater);
  }

  /** The test is run as far as the filter goes. */
  ghost predicate Runnable(t: TestInfo, filter: S.Config) {
    S.VerdictOn(filter, Disabled(), t.caseName, t.name).runnable
  }

  lemma TableIgnoresShard(lists: seq<seq<TestInfo>>, filter: S.Config, shard: Option<S.Shard>)
    ensures TableOf(lists, filter.(shard := shard)) == TableOf(lists, filter)
  {
    forall c | 0 <= c < |lists|
      ensures TableOf(lists, filter.(shard := shard))[c] == TableOf(lists, filter)[c]
    {
    }
  }

  /** What RunProgram does on shard k, while nothing fatal happens outside the
      tests. */
  lemma ProgramRunsOnShard(tests: seq<TestInfo>, filter: S.Config, total: nat, k: nat, cases: seq<TestCase>,
                           plans: seq<IterationRun<TestCase, TestInfo>>, config: Config, start: seq<PartResult>,
                           i: nat)
    requires k < total && i < |plans|
    requires var s, shard := ProgramOrder(tests), Some(S.Shard(total, k));
      var table := TableOf(TestLists(s), filter.(shard := shard));
      && (config.hasTests <==> S.SelectedCount(S.Before(table, |table|), shard) > 0)
      && ArePlans(plans, cases, s, MarksOf(TestLists(s), table, shard), config, start)
    requires !HasFatal(AdHocAfter(start, plans[..i]) + config.code.setUp(i))
    ensures RunsOnShard(plans[i], cases, ProgramOrder(tests), TableOf(TestLists(ProgramOrder(tests)), filter), total, k,
                        config, i, AdHocAfter(start, plans[..i]))
  {
    TableIgnoresShard(TestLists(ProgramOrder(tests)), filter, Some(S.Shard(total, k)));
  }

  lemma NoOtherRuns(tests: seq<TestInfo>, table: Table, t: TestInfo)
    requires var lists := TestLists(ProgramOrder(tests)); Matching(lists, table)
    requires t !in tests
    ensures RunnableTests(TestLists(ProgramOrder(tests)), table)[t] == 0
  {
    var lists := TestLists(ProgramOrder(tests));
    forall c | 0 <= c < |lists|
      ensures RunnableCase(lists, table)(c)[t] == 0
    {
      forall j | 0 <= j < |lists[c]|
        ensures RunnableTest(lists, table, c)(j)[t] == 0
      {
        FiledUnderItsName(tests, c, j);
      }
      SumCounts(RunnableTest(lists, table, c), |lists[c]|, -1, t);
    }
    SumCounts(RunnableCase(lists, table), |lists|, -1, t);
  }

  ghost predicate NamedDisabled(name: string) {
    "DISABLED_" <= name || Occurs("/DISABLED_", name)
  }

  /** A test can be run if the filter selects its full name, and neither it nor
      its case is named as disabled, or disabled tests run too. */
  lemma RunnableMeaning(t: TestInfo, filter: S.Config)
    ensures Runnable(t, filter)
      <==> && FilterSelects(filter.filter, FullName(t.caseName, t.name))
           && (filter.alsoRunDisabled || (!NamedDisabled(t.caseName) && !NamedDisabled(t.name)))
  {
    DisabledNames(t.caseName);
    DisabledNames(t.name);
  }

  /** In the subprocess of a death test, everything that can be run is. */
  lemma SubprocessRunsAll(table: Table, flags: Flags, filter: S.Config, c: nat, j: nat)
    requires flags.inSubprocess && c < |table| && j < |table[c]|
    ensures Selected(table, FilterFor(flags, filter).shard, c, j) <==> table[c][j].runnable
    ensures RepeatFor(flags) == 1
  {
  }

  /** When the same program runs on every shard: in every iteration, each of its
      tests that the filter selects is started once, on one of the shards, and
      no other test is, whatever the seeds; as long as nothing fatal has been
      reported outside the tests. */
  lemma ProgramsStartTestsOnce(tests: seq<TestInfo>, filter: S.Config, total: nat,
                               plans: int -> IterationRun<TestCase, TestInfo>, cases: int -> seq<TestCase>,
                               configs: int -> Config, i: nat, before: int -> seq<PartResult>, t: TestInfo)
    requires NoDuplicates(tests) && total >= 1
    requires forall k :: 0 <= k < total ==>
      RunsOnShard(plans(k), cases(k), ProgramOrder(tests), TableOf(TestLists(ProgramOrder(tests)), filter), total, k,
                  configs(k), i, before(k))
    ensures Sum(StartedOn(plans, i), Identity(total))[t] == if t in tests && Runnable(t, filter) then 1 else 0
  {
    var ops, s := Registrations(tests), ProgramOrder(tests);
    var table := TableOf(TestLists(s), filter);
    AllRegistered(tests);
    RegistrationsAllowed(tests, DeathNames(), |tests|);
    assert tests[..|tests|] == tests;
    if n :| 0 <= n < |tests| && tests[n] == t {
      var c, j := RunFilesAll(DeathNames(), ops, n);
      ShardsStartRegisteredTests(ops, plans, cases, DeathNames(), table, total, configs, i, before, c, j);
    } else {
      EveryRunKeepsOrder(DeathNames(), ops);
      RunFilesOnce(DeathNames(), ops);
      ShardsStartRunnableTests(plans, cases, s, DeathNames(), table, total, configs, i, before);
      NoOtherRuns(tests, table, t);
    }
  }
}
