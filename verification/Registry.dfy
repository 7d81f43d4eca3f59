/**
  The registry of test cases: objects that are registered once, shuffled and
  unshuffled in place.  Each method is proved against RegistryModel.
 */
module Registry {
  import opened CStrings
  import opened Filters
  import opened Shuffling
  import opened RegistryModel

  class TestInfo {
    const caseName: CString
    const name: CString
    var isDisabled: bool
    var matchesFilter: bool
    var shouldRun: bool

    constructor (caseName: CString, name: CString)
      ensures this.caseName == caseName && this.name == name && !shouldRun
    {
      this.caseName, this.name := caseName, name;
      isDisabled, matchesFilter, shouldRun := false, false, false;
    }
  }

  class TestCase {
    const name: CString
    var testInfoList: seq<TestInfo>
    const testIndices: Vector<int>
    var shouldRun: bool

    constructor (name: CString)
      ensures this.name == name && fresh(testIndices) && View() == CaseOrder(name, [], [])
    {
      this.name := name;
      testInfoList := [];
      testIndices := new Vector<int>();
      shouldRun := false;
    }

    ghost function View(): CaseOrder<TestInfo>
      reads this, testIndices
    {
      CaseOrder(name, testInfoList, testIndices.elems)
    }

    method AddTestInfo(testInfo: TestInfo)
      modifies this`testInfoList, testIndices
      ensures View() == WithTest(old(View()), testInfo)
    {
      testInfoList := testInfoList + [testInfo];
      testIndices.elems := testIndices.elems + [|testIndices.elems|];
    }

    method ShuffleTests(random: Random)
      requires |testIndices.elems| <= MAX_RANGE
      modifies random, testIndices
      ensures View() == ShuffledCase(old(View()), old(random.state))
      ensures random.state == StateAfter(old(random.state), |old(testIndices.elems)|)
    {
      Shuffling.Shuffle(random, testIndices);
    }

    method UnshuffleTests()
      modifies testIndices
      ensures testIndices.elems == Identity(|old(testIndices.elems)|)
    {
      var i := 0;
      while i < |testIndices.elems|
        invariant i <= |testIndices.elems| == |old(testIndices.elems)|
        invariant testIndices.elems[..i] == Identity(i)
      {
        testIndices.elems := testIndices.elems[i := i];
        i := i + 1;
      }
    }
  }

  ghost function Views(cases: seq<TestCase>): (r: seq<CaseOrder<TestInfo>>)
    reads cases, set c | c in cases :: c.testIndices
    ensures |r| == |cases| && forall i :: 0 <= i < |cases| ==> r[i] == cases[i].View()
  {
    seq(|cases|, i requires 0 <= i < |cases| reads cases, set c | c in cases :: c.testIndices => cases[i].View())
  }

  /** No two cases share their index vectors, so no two are the same object. */
  ghost predicate Separate(cases: seq<TestCase>, indices: Vector<int>) {
    && (forall i, j :: 0 <= i < j < |cases| ==> cases[i].testIndices != cases[j].testIndices)
    && (forall i :: 0 <= i < |cases| ==> cases[i].testIndices != indices)
  }

  lemma ViewsInsert(cases: seq<TestCase>, k: nat, c: TestCase)
    requires k <= |cases|
    ensures Views(cases[..k] + [c] + cases[k..]) == Views(cases)[..k] + [c.View()] + Views(cases)[k..]
  {
    var all := cases[..k] + [c] + cases[k..];
    forall i | 0 <= i < |all|
      ensures Views(all)[i] == (Views(cases)[..k] + [c.View()] + Views(cases)[k..])[i]
    {
      assert all[i] == if i < k then cases[i] else if i == k then c else cases[i - 1];
    }
  }

  lemma SeparateInsert(cases: seq<TestCase>, k: nat, c: TestCase, indices: Vector<int>)
    requires k <= |cases| && Separate(cases, indices) && c.testIndices != indices
    requires forall i :: 0 <= i < |cases| ==> cases[i].testIndices != c.testIndices
    ensures Separate(cases[..k] + [c] + cases[k..], indices)
  {
    var all := cases[..k] + [c] + cases[k..];
    assert forall i :: 0 <= i < |all| ==> all[i] == if i < k then cases[i] else if i == k then c else cases[i - 1];
  }

  method IsDeathTestCase(name: CString, ghost deaths: iset<string>) returns (r: bool)
    requires AreDeaths(deaths)
    ensures r <==> name in deaths
  {
    r := MatchesFilter(name, DEATH_TEST_CASE_FILTER);
  }

  ghost function DeathNames(): (deaths: iset<string>)
    ensures AreDeaths(deaths)
  {
    iset n: string | SomeSegmentMatches(DEATH_TEST_CASE_FILTER, n)
  }

  class UnitTestImpl {
    var testCases: seq<TestCase>
    const testCaseIndices: Vector<int>
    var lastDeathTestCase: int
    const random: Random
    ghost const deaths: iset<string>

    constructor ()
      ensures Valid() && State() == Order([], [], -1)
      ensures testCases == [] && fresh(testCaseIndices) && fresh(random) && deaths == DeathNames()
    {
      testCases := [];
      testCaseIndices := new Vector<int>();
      lastDeathTestCase := -1;
      random := new Random(0);
      deaths := DeathNames();
    }

    ghost function IndexVectors(): set<Vector<int>>
      reads this
    {
      set c | c in testCases :: c.testIndices
    }

    ghost function State(): Order<TestInfo>
      reads this, testCaseIndices, testCases, IndexVectors()
    {
      Order(Views(testCases), testCaseIndices.elems, lastDeathTestCase)
    }

    /** What holds even if test cases are created while shuffled. */
    ghost predicate Sound()
      reads this, testCaseIndices, testCases, IndexVectors()
    {
      && AreDeaths(deaths)
      && Separate(testCases, testCaseIndices)
      && Kept(State(), deaths)
    }

    ghost predicate Valid()
      reads this, testCaseIndices, testCases, IndexVectors()
    {
      Sound() && Inv(State(), deaths)
    }

    /** Puts a case of its own at position k. */
    method InsertCase(k: nat, testCase: TestCase)
      requires k <= |testCases| && Separate(testCases, testCaseIndices) && testCase.testIndices != testCaseIndices
      requires forall i :: 0 <= i < |testCases| ==> testCases[i].testIndices != testCase.testIndices
      modifies this`testCases
      ensures testCases == old(testCases[..k] + [testCase] + testCases[k..])
      ensures testCase in testCases && forall c :: c in testCases ==> c in old(testCases) || c == testCase
      ensures Views(testCases) == old(Views(testCases)[..k] + [testCase.View()] + Views(testCases)[k..])
      ensures Separate(testCases, testCaseIndices)
    {
      ViewsInsert(testCases, k, testCase);
      SeparateInsert(testCases, k, testCase, testCaseIndices);
      testCases := testCases[..k] + [testCase] + testCases[k..];
      assert testCases[k] == testCase;
    }

    /** The second half of GetTestCase: a new case goes behind the last death
        test case if it is one, and at the end if not. */
    method CreateTestCase(name: CString) returns (testCase: TestCase)
      requires AreDeaths(deaths) && Separate(testCases, testCaseIndices)
      requires -1 <= lastDeathTestCase < |testCases|
      modifies this`testCases, this`lastDeathTestCase, testCaseIndices
      ensures State() == NewCase(old(State()), deaths, name)
      ensures Separate(testCases, testCaseIndices)
      ensures testCase in testCases && testCase.name == name
      ensures fresh(testCase) && fresh(testCase.testIndices)
      ensures forall c :: c in testCases ==> c in old(testCases) || c == testCase
    {
      ghost var s, views := State(), Views(testCases);
      var isDeath := IsDeathTestCase(name, deaths);
      testCase := new TestCase(name);
      assert Views(testCases) == views;
      if isDeath {
        lastDeathTestCase := lastDeathTestCase + 1;
        InsertCase(lastDeathTestCase, testCase);
      } else {
        InsertCase(|testCases|, testCase);
        assert views[..|views|] + [testCase.View()] + views[|views|..] == views + [testCase.View()];
      }
      assert Views(testCases) == NewCase(s, deaths, name).cases;
      ghost var cases := Views(testCases);
      testCaseIndices.elems := testCaseIndices.elems + [|testCaseIndices.elems|];
      assert Views(testCases) == cases;
    }

    /** The registry stays in order as long as no case has to be created while
        the tests are shuffled. */
    method GetTestCase(name: CString) returns (testCase: TestCase)
      requires Sound()
      modifies this`testCases, this`lastDeathTestCase, testCaseIndices
      ensures Sound() && State() == GetCase(old(State()), deaths, name)
      ensures old(Valid() && (HasCase(State(), name) || Unshuffled(State()))) ==> Valid()
      ensures testCase in testCases && testCase.name == name
      ensures testCase in old(testCases) || (fresh(testCase) && fresh(testCase.testIndices))
      ensures forall c :: c in testCases ==> c in old(testCases) || c == testCase
    {
      GetCaseKept(State(), deaths, name);
      var i := 0;
      while i < |testCases| && testCases[i].name != name
        invariant 0 <= i <= |testCases|
        invariant forall k :: 0 <= k < i ==> testCases[k].name != name
      {
        i := i + 1;
      }
      if i < |testCases| {
        assert State().cases[i].name == name;
        return testCases[i];
      }
      testCase := CreateTestCase(name);
    }

    /** Files the test under the case it names. */
    method AddTestInfo(testInfo: TestInfo)
      requires Sound()
      modifies this`testCases, this`lastDeathTestCase, testCaseIndices
      modifies testCases`testInfoList, IndexVectors()
      ensures Sound() && State() == Add(old(State()), deaths, testInfo.caseName, testInfo)
      ensures old(Valid() && (HasCase(State(), testInfo.caseName) || Unshuffled(State()))) ==> Valid()
      ensures old(Unshuffled(State())) ==> Unshuffled(State())
      ensures forall c :: c in testCases ==> c in old(testCases) || (fresh(c) && fresh(c.testIndices))
    {
      AddKeepsInv(State(), deaths, testInfo.caseName, testInfo);
      GetCaseHas(State(), deaths, testInfo.caseName);
      var testCase := GetTestCase(testInfo.caseName);
      ghost var k := IndexOfCase(State(), testInfo.caseName);
      ghost var c: nat :| c < |testCases| && testCases[c] == testCase;
      assert State().cases[c].name == testCase.name;
      NamesAreUnique(State(), deaths, c, k);
      FileTest(testCase, testInfo, k);
    }

    method FileTest(testCase: TestCase, testInfo: TestInfo, ghost k: nat)
      requires k < |testCases| && testCase == testCases[k] && Separate(testCases, testCaseIndices)
      modifies testCase`testInfoList, testCase.testIndices
      ensures State() == AddToCase(old(State()), k, testInfo)
    {
      ghost var before := Views(testCases);
      testCase.AddTestInfo(testInfo);
      assert Views(testCases) == before[k := WithTest(before[k], testInfo)];
    }

    ghost predicate Shuffleable()
      reads this, testCases, IndexVectors()
    {
      && Separate(testCases, testCaseIndices)
      && forall c :: c in testCases ==> |c.testIndices.elems| <= MAX_RANGE
    }

    method ShuffleCaseAt(i: nat)
      requires Shuffleable() && i < |testCases|
      modifies random, testCases[i].testIndices
      ensures Shuffleable()
      ensures Views(testCases) == old(Views(testCases)[i := ShuffledCase(testCases[i].View(), random.state)])
      ensures random.state == StateAfter(old(random.state), |old(Views(testCases))[i].order|)
    {
      ghost var views := Views(testCases);
      ghost var c := ShuffledCase(testCases[i].View(), random.state);
      testCases[i].ShuffleTests(random);
      assert Views(testCases) == views[i := c];
    }

    /** The last loop of ShuffleTests. */
    method ShuffleWithinCases()
      requires Shuffleable()
      modifies random, IndexVectors()
      ensures Views(testCases) == ShuffledCases(old(Views(testCases)), 0, old(random.state))
      ensures testCaseIndices.elems == old(testCaseIndices.elems)
    {
      var i := 0;
      while i < |testCases|
        invariant 0 <= i <= |testCases| && Shuffleable()
        invariant testCaseIndices.elems == old(testCaseIndices.elems)
        invariant ShuffledCases(Views(testCases), i, random.state)
          == ShuffledCases(old(Views(testCases)), 0, old(random.state))
      {
        ShuffleCaseAt(i);
        i := i + 1;
      }
    }

    /** The first two statements of ShuffleTests. */
    method ShuffleGroups()
      requires -1 <= lastDeathTestCase < |testCases| == |testCaseIndices.elems| <= MAX_RANGE
      modifies random, testCaseIndices
      ensures testCaseIndices.elems
        == ShuffledGroups(old(testCaseIndices.elems), lastDeathTestCase + 1, old(random.state))
      ensures random.state == StateAfterGroups(|testCases|, lastDeathTestCase + 1, old(random.state))
    {
      ShuffleRange(random, 0, lastDeathTestCase + 1, testCaseIndices);
      ghost var first, middle, rest := testCaseIndices.elems, random.state, |testCases| - (lastDeathTestCase + 1);
      ShuffleRange(random, lastDeathTestCase + 1, |testCases|, testCaseIndices);
      assert testCaseIndices.elems == Shuffled(first, lastDeathTestCase + 1, rest, Draws(middle, rest));
    }

    method ShuffleTests()
      requires Sound() && |testCases| <= MAX_RANGE
      requires forall c :: c in testCases ==> |c.testIndices.elems| <= MAX_RANGE
      modifies random, testCaseIndices, IndexVectors()
      ensures Sound() && State() == RegistryModel.Shuffle(old(State()), old(random.state))
      ensures old(Valid()) ==> Valid()
    {
      ShuffleKeepsInv(State(), deaths, random.state);
      ghost var before := Views(testCases);
      ShuffleGroups();
      assert Views(testCases) == before;
      ShuffleWithinCases();
    }

    /** Shuffles with the generator started anew. */
    method ReseedAndShuffle(seed: nat)
      requires Sound() && NoLarger(State(), MAX_RANGE)
      modifies random, testCaseIndices, IndexVectors()
      ensures Sound() && State() == RegistryModel.Shuffle(old(State()), seed)
      ensures old(Valid()) ==> Valid()
    {
      ghost var s := State();
      random.Reseed(seed);
      assert State() == s;
      forall k | 0 <= k < |testCases|
        ensures |testCases[k].testIndices.elems| <= MAX_RANGE
      {
        assert testCases[k].View() == s.cases[k];
      }
      ShuffleTests();
    }

    method UnshuffleTests()
      requires Sound()
      modifies testCaseIndices, IndexVectors()
      ensures Valid() && State() == Unshuffle(old(State()))
    {
      UnshuffleKeepsInv(State(), deaths);
      IndexEveryTest();
      UnshuffleLoop();
    }

    ghost predicate EveryTestIndexed()
      reads this, testCases, IndexVectors(), testCaseIndices
    {
      && |testCaseIndices.elems| == |testCases|
      && forall k :: 0 <= k < |testCases| ==> |testCases[k].testIndices.elems| == |testCases[k].testInfoList|
    }

    lemma IndexEveryTest()
      requires Sound()
      ensures EveryTestIndexed()
    {
      forall k | 0 <= k < |testCases|
        ensures |testCases[k].testIndices.elems| == |testCases[k].testInfoList|
      {
        assert IsPermutation(State().cases[k].order, |State().cases[k].tests|);
      }
    }

    method UnshuffleLoop()
      requires Separate(testCases, testCaseIndices) && EveryTestIndexed()
      modifies testCaseIndices, IndexVectors()
      ensures State() == Unshuffle(old(State()))
    {
      ghost var goal := Unshuffle(State());
      var i := 0;
      while i < |testCases|
        invariant 0 <= i <= |testCases| == |testCaseIndices.elems|
        invariant forall k :: 0 <= k < i ==> testCaseIndices.elems[k] == k && testCases[k].View() == goal.cases[k]
        invariant forall k :: i <= k < |testCases| ==> testCases[k].View() == old(testCases[k].View())
      {
        testCases[i].UnshuffleTests();
        testCaseIndices.elems := testCaseIndices.elems[i := i];
        i := i + 1;
      }
      assert testCaseIndices.elems == goal.order;
    }

    /** The i-th test case in run order. */
    function GetMutableTestCase(i: int): (r: TestCase?)
      requires IsPermutation(testCaseIndices.elems, |testCases|)
      reads this, testCaseIndices
      ensures 0 <= i < |testCases| ==> r == testCases[testCaseIndices.elems[i]]
      ensures !(0 <= i < |testCases|) ==> r == null
    {
      var index := GetElementOr(testCaseIndices.elems, i, -1);
      if index < 0 then null else testCases[index]
    }

    /** The const overload of GetTestCase(), as the listeners see it: it looks
        up the index but then answers with the i-th case all the same. */
    function GetTestCaseConst(i: int): (r: TestCase?)
      requires IsPermutation(testCaseIndices.elems, |testCases|)
      reads this, testCaseIndices
      ensures 0 <= i < |testCases| ==> r == testCases[i]
      ensures !(0 <= i < |testCases|) ==> r == null
    {
      var index := GetElementOr(testCaseIndices.elems, i, -1);
      if index < 0 then null else testCases[i]
    }

    /** Listeners are shown the order that is run exactly if it is unshuffled. */
    lemma ConstViewIffUnshuffled()
      requires IsPermutation(testCaseIndices.elems, |testCases|)
      requires Separate(testCases, testCaseIndices)
      ensures (forall i :: GetTestCaseConst(i) == GetMutableTestCase(i))
        <==> testCaseIndices.elems == Identity(|testCases|)
    {
      var p := testCaseIndices.elems;
      if forall i :: GetTestCaseConst(i) == GetMutableTestCase(i) {
        forall i | 0 <= i < |p|
          ensures p[i] == i
        {
          assert GetTestCaseConst(i) == GetMutableTestCase(i);
        }
      }
    }

    /** Two cases, registered and then shuffled with the seed 1. */
    lemma ConstViewDiffers(a: TestInfo, b: TestInfo)
      requires Valid() && State() == Run(deaths, ShuffledPair(a, b))
      ensures GetTestCaseConst(0) != GetMutableTestCase(0)
    {
      ShuffledPairSwaps(deaths, a, b);
      assert State().order == [1, 0];
    }
  }

  /** What registering these tests, one after the other, does. */
  ghost function Registrations(tests: seq<TestInfo>): (r: seq<Op<TestInfo>>)
    ensures |r| == |tests|
  {
    seq(|tests|, i requires 0 <= i < |tests| => Register(tests[i].caseName, tests[i]))
  }

  lemma RegistrationsStep(tests: seq<TestInfo>, i: nat)
    requires i < |tests|
    ensures Registrations(tests[..i + 1]) == Registrations(tests[..i]) + [Register(tests[i].caseName, tests[i])]
  {
  }

  /** The registry a program has when all its tests are registered. */
  method RegisterAll(tests: seq<TestInfo>) returns (impl: UnitTestImpl)
    ensures impl.Valid() && Unshuffled(impl.State())
    ensures impl.deaths == DeathNames()
    ensures impl.State() == Run(impl.deaths, Registrations(tests)) && NoLarger(impl.State(), |tests|)
    ensures fresh(impl) && fresh(impl.testCaseIndices) && fresh(impl.random)
    ensures forall c :: c in impl.testCases ==> fresh(c) && fresh(c.testIndices)
  {
    impl := new UnitTestImpl();
    var i := 0;
    while i < |tests|
      invariant 0 <= i <= |tests|
      invariant impl.Valid() && Unshuffled(impl.State()) && impl.deaths == DeathNames()
      invariant impl.State() == Run(impl.deaths, Registrations(tests[..i])) && NoLarger(impl.State(), i)
      invariant fresh(impl) && fresh(impl.testCaseIndices) && fresh(impl.random)
      invariant forall c :: c in impl.testCases ==> fresh(c) && fresh(c.testIndices)
    {
      RegistrationsStep(tests, i);
      RunStep(impl.deaths, Registrations(tests[..i]), Register(tests[i].caseName, tests[i]));
      AddGrows(impl.State(), impl.deaths, tests[i].caseName, tests[i], i);
      impl.AddTestInfo(tests[i]);
      i := i + 1;
    }
    assert tests[..i] == tests;
  }

  lemma PairRegistrations(a: TestInfo, b: TestInfo)
    requires a.caseName == "A" && b.caseName == "B"
    ensures Registrations([a, b]) == [Register("A", a), Register("B", b)]
  {
  }

  /** Two ordinary cases, shuffled: where the listeners are shown the first
      case, the second one runs. */
  method ShuffledExample() returns (impl: UnitTestImpl)
    ensures impl.Valid() && impl.GetTestCaseConst(0) != impl.GetMutableTestCase(0)
  {
    var a := new TestInfo("A", "First");
    var b := new TestInfo("B", "Second");
    impl := RegisterAll([a, b]);
    ShuffledPairRun(impl.deaths, a, b);
    PairRegistrations(a, b);
    ShuffleExample(impl, a, b);
  }

  method ShuffleExample(impl: UnitTestImpl, ghost a: TestInfo, ghost b: TestInfo)
    requires impl.Valid() && impl.State() == Pair(a, b)
    modifies impl.random, impl.testCaseIndices, impl.IndexVectors()
    ensures impl.Valid() && impl.GetTestCaseConst(0) != impl.GetMutableTestCase(0)
  {
    ShuffledPairRun(impl.deaths, a, b);
    impl.ReseedAndShuffle(1);
    impl.ConstViewDiffers(a, b);
  }
}
