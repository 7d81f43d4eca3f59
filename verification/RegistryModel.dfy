/**
  The order of test cases and tests as values: how registering, shuffling and
  unshuffling change it, and what every sequence of them keeps.
 */
module RegistryModel {
  import opened Basics
  import opened Filters
  import opened Shuffling

  /** A test case: its tests in registration order, and the order to run them
      in, as indices into tests. */
  datatype CaseOrder<T> = CaseOrder(name: string, tests: seq<T>, order: seq<int>)

  /** All test cases, the death test cases first; the order to run them in, as
      indices into cases; and the index of the last death test case. */
  datatype Order<T> = Order(cases: seq<CaseOrder<T>>, order: seq<int>, lastDeath: int)

  /** The names of death test cases, as the built-in filter decides. */
  ghost predicate AreDeaths(deaths: iset<string>) {
    forall n: string {:trigger SomeSegmentMatches(DEATH_TEST_CASE_FILTER, n)} ::
      n in deaths <==> SomeSegmentMatches(DEATH_TEST_CASE_FILTER, n)
  }

  function Identity(n: nat): (r: seq<int>)
    ensures |r| == n && forall i :: 0 <= i < n ==> r[i] == i
  {
    seq(n, i => i)
  }

  ghost predicate IsPermutation(p: seq<int>, n: nat) {
    && |p| == n
    && (forall i :: 0 <= i < n ==> 0 <= p[i] < n)
    && (forall i, j :: 0 <= i < j < n ==> p[i] != p[j])
  }

  /** Case names are unique, the death test cases occupy exactly the positions
      up to lastDeath, and all index vectors are permutations. */
  ghost predicate Kept<T>(s: Order<T>, deaths: iset<string>) {
    && -1 <= s.lastDeath < |s.cases|
    && (forall i, j :: 0 <= i < j < |s.cases| ==> s.cases[i].name != s.cases[j].name)
    && (forall i :: 0 <= i < |s.cases| ==> (s.cases[i].name in deaths <==> i <= s.lastDeath))
    && IsPermutation(s.order, |s.cases|)
    && (forall i :: 0 <= i < |s.cases| ==> IsPermutation(s.cases[i].order, |s.cases[i].tests|))
  }

  /** Besides, the run order permutes the two groups of cases separately: every
      death test case runs before any other. */
  ghost predicate Inv<T>(s: Order<T>, deaths: iset<string>) {
    && Kept(s, deaths)
    && forall i :: 0 <= i < |s.cases| ==> (s.order[i] <= s.lastDeath <==> i <= s.lastDeath)
  }

  ghost predicate Unshuffled<T>(s: Order<T>) {
    && s.order == Identity(|s.cases|)
    && forall i :: 0 <= i < |s.cases| ==> s.cases[i].order == Identity(|s.cases[i].tests|)
  }

  // ----- The operations -----------------------------------------------------

  ghost predicate HasCase<T>(s: Order<T>, name: string) {
    exists i :: 0 <= i < |s.cases| && s.cases[i].name == name
  }

  /** A new, empty case: behind the last death test case if it is one, and at
      the end if not. */
  ghost function NewCase<T>(s: Order<T>, deaths: iset<string>, name: string): Order<T>
    requires -1 <= s.lastDeath < |s.cases|
  {
    var c := CaseOrder(name, [], []);
    var order := s.order + [|s.order|];
    if name in deaths then
      var k := s.lastDeath + 1;
      Order(s.cases[..k] + [c] + s.cases[k..], order, k)
    else Order(s.cases + [c], order, s.lastDeath)
  }

  ghost function GetCase<T>(s: Order<T>, deaths: iset<string>, name: string): Order<T>
    requires -1 <= s.lastDeath < |s.cases|
  {
    if HasCase(s, name) then s else NewCase(s, deaths, name)
  }

  ghost function WithTest<T>(c: CaseOrder<T>, t: T): CaseOrder<T> {
    c.(tests := c.tests + [t], order := c.order + [|c.order|])
  }

  ghost function AddToCase<T>(s: Order<T>, k: nat, t: T): Order<T>
    requires k < |s.cases|
  {
    s.(cases := s.cases[k := WithTest(s.cases[k], t)])
  }

  ghost function IndexOfCase<T>(s: Order<T>, name: string): (k: nat)
    requires HasCase(s, name)
    ensures k < |s.cases| && s.cases[k].name == name
  {
    var k :| 0 <= k < |s.cases| && s.cases[k].name == name;
    k
  }

  ghost function Add<T>(s: Order<T>, deaths: iset<string>, name: string, t: T): Order<T>
    requires -1 <= s.lastDeath < |s.cases|
  {
    var s' := GetCase(s, deaths, name);
    GetCaseHas(s, deaths, name);
    AddToCase(s', IndexOfCase(s', name), t)
  }

  lemma NamesAreUnique<T>(s: Order<T>, deaths: iset<string>, i: int, j: int)
    requires Kept(s, deaths) && 0 <= i < |s.cases| && 0 <= j < |s.cases|
    requires s.cases[i].name == s.cases[j].name
    ensures i == j
  {
    assert forall k, l :: 0 <= k < l < |s.cases| ==> s.cases[k].name != s.cases[l].name;
  }

  lemma GetCaseHas<T>(s: Order<T>, deaths: iset<string>, name: string)
    requires -1 <= s.lastDeath < |s.cases|
    ensures HasCase(GetCase(s, deaths, name), name)
  {
    if !HasCase(s, name) {
      var s' := NewCase(s, deaths, name);
      assert s'.cases[if name in deaths then s.lastDeath + 1 else |s.cases|].name == name;
    }
  }

  ghost function ShuffledCase<T>(c: CaseOrder<T>, state: nat): CaseOrder<T> {
    c.(order := Shuffled(c.order, 0, |c.order|, Draws(state, |c.order|)))
  }

  /** Shuffles the tests of each case in turn, from k on. */
  ghost function ShuffledCases<T>(cases: seq<CaseOrder<T>>, k: nat, state: nat): (r: seq<CaseOrder<T>>)
    requires k <= |cases|
    ensures |r| == |cases|
    decreases |cases| - k
  {
    if k == |cases| then cases
    else ShuffledCases(cases[k := ShuffledCase(cases[k], state)], k + 1, StateAfter(state, |cases[k].order|))
  }

  ghost function ShuffledGroups(order: seq<int>, deaths: nat, state: nat): (r: seq<int>)
    requires deaths <= |order|
  {
    var first := Shuffled(order, 0, deaths, Draws(state, deaths));
    var rest := |order| - deaths;
    Shuffled(first, deaths, rest, Draws(StateAfter(state, deaths), rest))
  }

  ghost function StateAfterGroups(n: nat, deaths: nat, state: nat): nat
    requires deaths <= n
  {
    StateAfter(StateAfter(state, deaths), n - deaths)
  }

  /** Shuffles the death test cases, the other cases, and the tests in each. */
  ghost function Shuffle<T>(s: Order<T>, state: nat): Order<T>
    requires -1 <= s.lastDeath < |s.cases| == |s.order|
  {
    var d := s.lastDeath + 1;
    s.(order := ShuffledGroups(s.order, d, state),
       cases := ShuffledCases(s.cases, 0, StateAfterGroups(|s.order|, d, state)))
  }

  ghost function Unshuffle<T>(s: Order<T>): Order<T> {
    s.(order := Identity(|s.cases|),
       cases := seq(|s.cases|, i requires 0 <= i < |s.cases| =>
                  s.cases[i].(order := Identity(|s.cases[i].tests|))))
  }

  // ----- What is shuffled -----------------------------------------------------

  /** How many draws shuffling the tests of the cases from j up to k takes. */
  ghost function DrawsFor<T>(cases: seq<CaseOrder<T>>, j: nat, k: nat): nat
    requires j <= k <= |cases|
    decreases k - j
  {
    if j == k then 0 else DrawCount(|cases[j].order|) + DrawsFor(cases, j + 1, k)
  }

  lemma {:induction false} DrawsForSame<T>(a: seq<CaseOrder<T>>, b: seq<CaseOrder<T>>, j: nat, k: nat)
    requires j <= k <= |a| == |b| && forall i :: j <= i < k ==> a[i] == b[i]
    ensures DrawsFor(a, j, k) == DrawsFor(b, j, k)
    decreases k - j
  {
    if j < k { DrawsForSame(a, b, j + 1, k); }
  }

  lemma {:induction false} ShuffledCaseAt<T>(cases: seq<CaseOrder<T>>, j: nat, k: nat, state: nat)
    requires k < |cases| && j <= |cases|
    ensures ShuffledCases(cases, j, state)[k]
      == if k < j then cases[k] else ShuffledCase(cases[k], Iterated(state, DrawsFor(cases, j, k)))
    decreases |cases| - j
  {
    if j < |cases| {
      var n := |cases[j].order|;
      var next := cases[j := ShuffledCase(cases[j], state)];
      ShuffledCaseAt(next, j + 1, k, StateAfter(state, n));
      StateAfterDraws(state, n);
      if j < k {
        DrawsForSame(cases, next, j + 1, k);
        IteratedPlus(state, DrawCount(n), DrawsFor(cases, j + 1, k));
      }
    }
  }

  /** Shuffling draws from one generator throughout: first it shuffles the death
      test cases, then the other cases. */
  lemma ShuffleShufflesGroups<T>(s: Order<T>, state: nat)
    requires -1 <= s.lastDeath < |s.cases| == |s.order|
    ensures var d, n := s.lastDeath + 1, |s.order|;
      Shuffle(s, state).order
      == Shuffled(s.order[..d], 0, d, Draws(state, d))
         + Shuffled(s.order[d..], 0, n - d, Draws(Iterated(state, DrawCount(d)), n - d))
    ensures Shuffle(s, state).lastDeath == s.lastDeath
  {
    GroupsApart(s.order, s.lastDeath + 1, state);
    StateAfterDraws(state, s.lastDeath + 1);
  }

  lemma StateAfterGroupsDraws(n: nat, d: nat, state: nat)
    requires d <= n
    ensures StateAfterGroups(n, d, state) == Iterated(state, DrawCount(d) + DrawCount(n - d))
  {
    StateAfterDraws(state, d);
    StateAfterDraws(StateAfter(state, d), n - d);
    IteratedPlus(state, DrawCount(d), DrawCount(n - d));
  }

  /** Then it shuffles the tests of every case, from the first case on. */
  lemma ShuffleShufflesCase<T>(s: Order<T>, state: nat, k: nat)
    requires -1 <= s.lastDeath < |s.cases| == |s.order| && k < |s.cases|
    ensures var c, d, n, m := s.cases[k], s.lastDeath + 1, |s.order|, |s.cases[k].order|;
      var draws := DrawCount(d) + DrawCount(n - d) + DrawsFor(s.cases, 0, k);
      Shuffle(s, state).cases[k] == c.(order := Shuffled(c.order, 0, m, Draws(Iterated(state, draws), m)))
  {
    var d, n := s.lastDeath + 1, |s.order|;
    var first, more := DrawCount(d) + DrawCount(n - d), DrawsFor(s.cases, 0, k);
    ShuffledCaseAt(s.cases, 0, k, StateAfterGroups(n, d, state));
    StateAfterGroupsDraws(n, d, state);
    IteratedPlus(state, first, more);
    assert Shuffle(s, state).cases[k] == ShuffledCase(s.cases[k], Iterated(state, first + more));
  }

  lemma ShuffledFront<E>(a: seq<E>, b: seq<E>, choices: seq<nat>)
    requires ValidChoices(|a|, choices)
    ensures Shuffled(a + b, 0, |a|, choices) == Shuffled(a, 0, |a|, choices) + b
  {
    ShuffledPart([], a, b, choices, |a|);
    assert [] + a + b == a + b && [] + Shuffled(a, 0, |a|, choices) == Shuffled(a, 0, |a|, choices);
  }

  lemma ShuffledBack<E>(a: seq<E>, b: seq<E>, choices: seq<nat>)
    requires ValidChoices(|b|, choices)
    ensures Shuffled(a + b, |a|, |b|, choices) == a + Shuffled(b, 0, |b|, choices)
  {
    ShuffledPart(a, b, [], choices, |b|);
    assert a + b + [] == a + b;
  }

  lemma GroupsApart(order: seq<int>, d: nat, state: nat)
    requires d <= |order|
    ensures var n := |order|;
      ShuffledGroups(order, d, state)
      == Shuffled(order[..d], 0, d, Draws(state, d))
         + Shuffled(order[d..], 0, n - d, Draws(StateAfter(state, d), n - d))
  {
    var n, a, b := |order|, order[..d], order[d..];
    assert order == a + b;
    ShuffledFront(a, b, Draws(state, d));
    ShuffledBack(Shuffled(a, 0, d, Draws(state, d)), b, Draws(StateAfter(state, d), n - d));
  }

  // ----- What every operation keeps -----------------------------------------

  lemma NewCaseAt<T>(s: Order<T>, deaths: iset<string>, name: string, i: nat)
    requires -1 <= s.lastDeath < |s.cases| && i <= |s.cases|
    ensures var k := if name in deaths then s.lastDeath + 1 else |s.cases|;
      NewCase(s, deaths, name).cases[i]
        == if i < k then s.cases[i] else if i == k then CaseOrder(name, [], []) else s.cases[i - 1]
  {
  }

  /** A new case gets the last position and the highest index in the run order,
      and its case list position as GetTestCase says. */
  lemma NewCaseOrder<T>(s: Order<T>, deaths: iset<string>, name: string)
    requires Kept(s, deaths)
    ensures var s', n := NewCase(s, deaths, name), |s.cases|;
      && |s'.order| == n + 1 && s'.order[n] == n
      && (forall i :: 0 <= i < n ==> s'.order[i] == s.order[i])
      && s'.lastDeath == if name in deaths then s.lastDeath + 1 else s.lastDeath
  {
  }

  lemma NewCaseUnshuffled<T>(s: Order<T>, deaths: iset<string>, name: string)
    requires Shaped(s) && Unshuffled(s)
    ensures Unshuffled(NewCase(s, deaths, name))
  {
    var s' := NewCase(s, deaths, name);
    forall i | 0 <= i < |s'.cases|
      ensures s'.cases[i].order == Identity(|s'.cases[i].tests|)
    {
      NewCaseAt(s, deaths, name, i);
    }
  }

  lemma NewCaseNamed<T>(s: Order<T>, deaths: iset<string>, name: string)
    requires Kept(s, deaths) && !HasCase(s, name)
    ensures var s' := NewCase(s, deaths, name);
      && (forall i, j :: 0 <= i < j < |s'.cases| ==> s'.cases[i].name != s'.cases[j].name)
      && (forall i :: 0 <= i < |s'.cases| ==> (s'.cases[i].name in deaths <==> i <= s'.lastDeath))
  {
    var s' := NewCase(s, deaths, name);
    var k := if name in deaths then s.lastDeath + 1 else |s.cases|;
    forall i | 0 <= i < |s'.cases|
      ensures s'.cases[i].name == if i < k then s.cases[i].name else if i == k then name else s.cases[i - 1].name
    {
      NewCaseAt(s, deaths, name, i);
    }
  }

  lemma NewCaseOrders<T>(s: Order<T>, deaths: iset<string>, name: string)
    requires Kept(s, deaths)
    ensures var s' := NewCase(s, deaths, name);
      forall i :: 0 <= i < |s'.cases| ==> IsPermutation(s'.cases[i].order, |s'.cases[i].tests|)
  {
    var s' := NewCase(s, deaths, name);
    forall i | 0 <= i < |s'.cases|
      ensures IsPermutation(s'.cases[i].order, |s'.cases[i].tests|)
    {
      NewCaseAt(s, deaths, name, i);
    }
  }

  lemma NewCaseKept<T>(s: Order<T>, deaths: iset<string>, name: string)
    requires Kept(s, deaths) && !HasCase(s, name)
    ensures Kept(NewCase(s, deaths, name), deaths)
  {
    NewCaseNamed(s, deaths, name);
    NewCaseOrders(s, deaths, name);
  }

  lemma GetCaseKept<T>(s: Order<T>, deaths: iset<string>, name: string)
    requires Kept(s, deaths)
    ensures Kept(GetCase(s, deaths, name), deaths)
    ensures Inv(s, deaths) && (HasCase(s, name) || Unshuffled(s)) ==> Inv(GetCase(s, deaths, name), deaths)
    ensures Unshuffled(s) ==> Unshuffled(GetCase(s, deaths, name))
  {
    if !HasCase(s, name) {
      NewCaseKept(s, deaths, name);
      if Unshuffled(s) { NewCaseUnshuffled(s, deaths, name); }
    }
  }

  lemma AddToCaseKept<T>(s: Order<T>, deaths: iset<string>, k: nat, t: T)
    requires Kept(s, deaths) && k < |s.cases|
    ensures Kept(AddToCase(s, k, t), deaths)
    ensures Inv(s, deaths) ==> Inv(AddToCase(s, k, t), deaths)
    ensures Unshuffled(s) ==> Unshuffled(AddToCase(s, k, t))
  {
    var c := WithTest(s.cases[k], t);
    assert IsPermutation(s.cases[k].order, |s.cases[k].tests|);
    assert IsPermutation(c.order, |c.tests|);
  }

  /** Registering keeps everything but the run order, and that too while
      unshuffled, or if the case is known already. */
  lemma AddKeepsInv<T>(s: Order<T>, deaths: iset<string>, name: string, t: T)
    requires Kept(s, deaths)
    ensures Kept(Add(s, deaths, name, t), deaths)
    ensures Inv(s, deaths) && (HasCase(s, name) || Unshuffled(s)) ==> Inv(Add(s, deaths, name, t), deaths)
    ensures Unshuffled(s) ==> Unshuffled(Add(s, deaths, name, t))
  {
    GetCaseKept(s, deaths, name);
    GetCaseHas(s, deaths, name);
    var s' := GetCase(s, deaths, name);
    AddToCaseKept(s', deaths, IndexOfCase(s', name), t);
  }

  lemma DistinctIsRange<E>(s: seq<E>)
    requires DistinctRange(s, 0, |s|)
    ensures forall x :: x in s ==> multiset(s)[x] == 1
  {
    forall x | x in s
      ensures multiset(s)[x] == 1
    {
      var i :| 0 <= i < |s| && s[i] == x;
      OccursOnce(s[..i], x, s[i + 1..]);
      assert s == s[..i] + [x] + s[i + 1..];
    }
  }

  lemma OccursOnce<E>(a: seq<E>, x: E, b: seq<E>)
    requires x !in a && x !in b
    ensures multiset(a + [x] + b)[x] == 1
  {
  }

  lemma RepeatCounts<E>(t: seq<E>, i: nat, j: nat)
    requires i < j < |t| && t[i] == t[j]
    ensures multiset(t)[t[i]] >= 2
  {
    assert t == t[..j] + [t[j]] + t[j + 1..];
    assert t[i] == t[..j][i];
  }

  /** Rearranging keeps elements distinct. */
  lemma RearrangedDistinct(s: seq<int>, t: seq<int>)
    requires DistinctRange(s, 0, |s|) && multiset(s) == multiset(t)
    ensures DistinctRange(t, 0, |t|)
    ensures forall i :: 0 <= i < |t| ==> t[i] in s
  {
    DistinctIsRange(s);
    forall i | 0 <= i < |t|
      ensures t[i] in s && forall j :: i < j < |t| ==> t[i] != t[j]
    {
      assert t[i] in multiset(t);
      if j :| i < j < |t| && t[i] == t[j] {
        RepeatCounts(t, i, j);
        assert false;
      }
    }
  }

  lemma ShuffledPermutation(p: seq<int>, begin: nat, width: nat, choices: seq<nat>)
    requires IsPermutation(p, |p|) && begin + width <= |p| && ValidChoices(width, choices)
    ensures var t := Shuffled(p, begin, width, choices);
            && IsPermutation(t, |p|)
            && (forall i :: begin <= i < begin + width ==> t[i] in p[begin..begin + width])
            && (forall i :: 0 <= i < |p| && !(begin <= i < begin + width) ==> t[i] == p[i])
  {
    var t := Shuffled(p, begin, width, choices);
    ShuffledRearranges(p, begin, width, choices);
    RearrangedDistinct(p, t);
    RangeMultiset(p, t, begin, width);
    forall i | begin <= i < begin + width
      ensures t[i] in p[begin..begin + width]
    {
      assert t[i] == t[begin..begin + width][i - begin];
      assert t[i] in multiset(t[begin..begin + width]);
    }
  }

  lemma GroupsKeepPermutation(p: seq<int>, deaths: nat, state: nat)
    requires IsPermutation(p, |p|) && deaths <= |p|
    ensures var t := ShuffledGroups(p, deaths, state);
      && IsPermutation(t, |p|)
      && ((forall i :: 0 <= i < |p| ==> (p[i] < deaths <==> i < deaths)) ==>
          forall i :: 0 <= i < |p| ==> (t[i] < deaths <==> i < deaths))
  {
    var first := Shuffled(p, 0, deaths, Draws(state, deaths));
    ShuffledPermutation(p, 0, deaths, Draws(state, deaths));
    ShuffledPermutation(first, deaths, |p| - deaths, Draws(StateAfter(state, deaths), |p| - deaths));
  }

  lemma {:induction false} ShuffledCasesKeep<T>(cases: seq<CaseOrder<T>>, k: nat, state: nat)
    requires k <= |cases|
    requires forall i :: 0 <= i < |cases| ==> IsPermutation(cases[i].order, |cases[i].tests|)
    ensures var r := ShuffledCases(cases, k, state);
            forall i :: 0 <= i < |cases| ==>
              && r[i].name == cases[i].name && r[i].tests == cases[i].tests
              && IsPermutation(r[i].order, |r[i].tests|)
    decreases |cases| - k
  {
    if k < |cases| {
      var n := |cases[k].order|;
      ShuffledPermutation(cases[k].order, 0, n, Draws(state, n));
      ShuffledCasesKeep(cases[k := ShuffledCase(cases[k], state)], k + 1, StateAfter(state, n));
    }
  }

  lemma ShuffleKeepsInv<T>(s: Order<T>, deaths: iset<string>, state: nat)
    requires Kept(s, deaths)
    ensures Kept(Shuffle(s, state), deaths)
    ensures Inv(s, deaths) ==> Inv(Shuffle(s, state), deaths)
  {
    GroupsKeepPermutation(s.order, s.lastDeath + 1, state);
    ShuffledCasesKeep(s.cases, 0, StateAfterGroups(|s.order|, s.lastDeath + 1, state));
  }

  /** Unshuffling puts the death test cases back in front. */
  lemma UnshuffleKeepsInv<T>(s: Order<T>, deaths: iset<string>)
    requires Kept(s, deaths)
    ensures Inv(Unshuffle(s), deaths) && Unshuffled(Unshuffle(s))
  {
  }

  /** Unshuffling forgets every shuffle. */
  lemma UnshuffleRestores<T>(s: Order<T>, deaths: iset<string>, state: nat)
    requires Kept(s, deaths)
    ensures Unshuffle(Shuffle(s, state)) == Unshuffle(s)
    ensures Unshuffled(s) ==> Unshuffle(s) == s
  {
    ShuffledCasesKeep(s.cases, 0, StateAfterGroups(|s.order|, s.lastDeath + 1, state));
    var t := Shuffle(s, state);
    assert Unshuffle(t).cases == Unshuffle(s).cases;
    if Unshuffled(s) {
      forall i | 0 <= i < |s.cases|
        ensures Unshuffle(s).cases[i] == s.cases[i]
      {
      }
      assert Unshuffle(s).cases == s.cases;
    }
  }

  // ----- Whole runs ---------------------------------------------------------

  datatype Op<T> =
    | Register(name: string, test: T)
    | ShuffleAll(state: nat)
    | UnshuffleAll

  ghost predicate Shaped<T>(s: Order<T>) {
    -1 <= s.lastDeath < |s.cases| == |s.order|
  }

  ghost function Step<T>(s: Order<T>, deaths: iset<string>, op: Op<T>): (s': Order<T>)
    requires Shaped(s)
    ensures Shaped(s')
  {
    match op
    case Register(name, t) => Add(s, deaths, name, t)
    case ShuffleAll(state) => Shuffle(s, state)
    case UnshuffleAll => Unshuffle(s)
  }

  /** Tests are registered only while the order is unshuffled. */
  ghost predicate Allowed<T>(s: Order<T>, op: Op<T>) {
    op.Register? ==> Unshuffled(s)
  }

  /** The state after the operations, in this order, from no tests at all. */
  ghost function Run<T>(deaths: iset<string>, ops: seq<Op<T>>): (s: Order<T>)
    ensures Shaped(s)
  {
    if ops == [] then Order([], [], -1)
    else Step(Run(deaths, ops[..|ops| - 1]), deaths, ops[|ops| - 1])
  }

  ghost predicate AllowedRun<T>(deaths: iset<string>, ops: seq<Op<T>>) {
    if ops == [] then true
    else
      var n := |ops| - 1;
      AllowedRun(deaths, ops[..n]) && Allowed(Run(deaths, ops[..n]), ops[n])
  }

  /** The registrations among the operations. */
  ghost function Registered<T>(ops: seq<Op<T>>): seq<(string, T)> {
    if ops == [] then []
    else
      var n := |ops| - 1;
      Registered(ops[..n]) + if ops[n].Register? then [(ops[n].name, ops[n].test)] else []
  }

  /** The case names in order of their first registration. */
  ghost function FirstSeen<T>(regs: seq<(string, T)>): seq<string> {
    if regs == [] then []
    else
      var n := |regs| - 1;
      var names := FirstSeen(regs[..n]);
      if regs[n].0 in names then names else names + [regs[n].0]
  }

  ghost function Select(names: seq<string>, deaths: iset<string>, death: bool): seq<string> {
    if names == [] then []
    else
      var n := |names| - 1;
      Select(names[..n], deaths, death) + if (names[n] in deaths) == death then [names[n]] else []
  }

  /** The tests registered under a name, in order. */
  ghost function TestsOf<T>(regs: seq<(string, T)>, name: string): seq<T> {
    if regs == [] then []
    else
      var n := |regs| - 1;
      TestsOf(regs[..n], name) + if regs[n].0 == name then [regs[n].1] else []
  }

  ghost function Names<T>(s: Order<T>): (r: seq<string>)
    ensures |r| == |s.cases| && forall i :: 0 <= i < |r| ==> r[i] == s.cases[i].name
  {
    seq(|s.cases|, i requires 0 <= i < |s.cases| => s.cases[i].name)
  }

  /** The registry holds what was registered: the death test cases in order of
      first registration, then the others, each with its tests in order. */
  ghost predicate Holds<T>(s: Order<T>, deaths: iset<string>, regs: seq<(string, T)>) {
    HoldsUnder(s, deaths, FirstSeen(regs), regs)
  }

  lemma StepKeeps<T>(s: Order<T>, deaths: iset<string>, op: Op<T>)
    requires Kept(s, deaths)
    ensures Kept(Step(s, deaths, op), deaths)
    ensures (Inv(s, deaths) && Allowed(s, op)) || op.UnshuffleAll? ==> Inv(Step(s, deaths, op), deaths)
  {
    match op
    case Register(name, t) => AddKeepsInv(s, deaths, name, t);
    case ShuffleAll(state) => ShuffleKeepsInv(s, deaths, state);
    case UnshuffleAll => UnshuffleKeepsInv(s, deaths);
  }

  lemma SelectAppend(names: seq<string>, deaths: iset<string>, name: string, death: bool)
    ensures Select(names + [name], deaths, death)
      == Select(names, deaths, death) + if (name in deaths) == death then [name] else []
  {
    assert (names + [name])[..|names|] == names;
  }

  lemma {:induction false} SelectMembers(names: seq<string>, deaths: iset<string>, death: bool)
    ensures forall x :: x in Select(names, deaths, death) <==> x in names && (x in deaths) == death
  {
    if names != [] {
      var n := |names| - 1;
      SelectMembers(names[..n], deaths, death);
      assert names == names[..n] + [names[n]];
    }
  }

  lemma TestsOfNew<T>(regs: seq<(string, T)>, name: string)
    requires name !in FirstSeen(regs)
    ensures TestsOf(regs, name) == []
  {
  }

  lemma HasCaseIffSeen<T>(s: Order<T>, deaths: iset<string>, regs: seq<(string, T)>, name: string)
    requires Holds(s, deaths, regs)
    ensures HasCase(s, name) <==> name in FirstSeen(regs)
  {
    var seen := FirstSeen(regs);
    SelectMembers(seen, deaths, true);
    SelectMembers(seen, deaths, false);
    assert name in Names(s) <==> name in seen;
    if HasCase(s, name) {
      assert Names(s)[IndexOfCase(s, name)] == name;
    }
    if i :| 0 <= i < |Names(s)| && Names(s)[i] == name {
      assert s.cases[i].name == name;
    }
  }

  lemma NewDeathNames<T>(s: Order<T>, deaths: iset<string>, name: string, d: seq<string>, o: seq<string>)
    requires -1 <= s.lastDeath < |s.cases| && |d| == s.lastDeath + 1 && Names(s) == d + o && name in deaths
    ensures Names(NewCase(s, deaths, name)) == d + [name] + o
  {
    var s' := NewCase(s, deaths, name);
    forall i | 0 <= i < |s'.cases|
      ensures Names(s')[i] == (d + [name] + o)[i]
    {
      NewCaseAt(s, deaths, name, i);
      assert i < |s.cases| ==> Names(s)[i] == s.cases[i].name;
      assert i > 0 ==> Names(s)[i - 1] == s.cases[i - 1].name;
    }
  }

  lemma NewOtherNames<T>(s: Order<T>, deaths: iset<string>, name: string, d: seq<string>, o: seq<string>)
    requires -1 <= s.lastDeath < |s.cases| && Names(s) == d + o && name !in deaths
    ensures Names(NewCase(s, deaths, name)) == d + (o + [name])
  {
    assert Names(NewCase(s, deaths, name)) == Names(s) + [name];
    Associative(d, o, [name]);
  }

  lemma NewCaseNames<T>(s: Order<T>, deaths: iset<string>, seen: seq<string>, name: string)
    requires -1 <= s.lastDeath < |s.cases| && |Select(seen, deaths, true)| == s.lastDeath + 1
    requires Names(s) == Select(seen, deaths, true) + Select(seen, deaths, false)
    ensures var s', names := NewCase(s, deaths, name), seen + [name];
            && |Select(names, deaths, true)| == s'.lastDeath + 1
            && Names(s') == Select(names, deaths, true) + Select(names, deaths, false)
  {
    var d, o := Select(seen, deaths, true), Select(seen, deaths, false);
    SelectAppend(seen, deaths, name, true);
    SelectAppend(seen, deaths, name, false);
    if name in deaths {
      NewDeathNames(s, deaths, name, d, o);
      assert o + [] == o;
    } else {
      NewOtherNames(s, deaths, name, d, o);
      assert d + [] == d;
    }
  }

  lemma NewCaseTests<T>(s: Order<T>, deaths: iset<string>, name: string)
    requires -1 <= s.lastDeath < |s.cases|
    ensures forall c :: c in NewCase(s, deaths, name).cases ==> c in s.cases || c == CaseOrder(name, [], [])
  {
  }

  /** The registry holds the tests registered so far under the names seen. */
  ghost predicate HoldsUnder<T>(s: Order<T>, deaths: iset<string>, seen: seq<string>, regs: seq<(string, T)>) {
    && |Select(seen, deaths, true)| == s.lastDeath + 1
    && Names(s) == Select(seen, deaths, true) + Select(seen, deaths, false)
    && forall i :: 0 <= i < |s.cases| ==> s.cases[i].tests == TestsOf(regs, s.cases[i].name)
  }

  lemma GetCaseHolds<T>(s: Order<T>, deaths: iset<string>, regs: seq<(string, T)>, name: string)
    requires Kept(s, deaths) && Holds(s, deaths, regs)
    ensures var seen := FirstSeen(regs);
      HoldsUnder(GetCase(s, deaths, name), deaths, if name in seen then seen else seen + [name], regs)
  {
    HasCaseIffSeen(s, deaths, regs, name);
    if !HasCase(s, name) {
      NewCaseNames(s, deaths, FirstSeen(regs), name);
      NewCaseTests(s, deaths, name);
      TestsOfNew(regs, name);
      var s' := NewCase(s, deaths, name);
      forall i | 0 <= i < |s'.cases|
        ensures s'.cases[i].tests == TestsOf(regs, s'.cases[i].name)
      {
        assert s'.cases[i] in s'.cases;
      }
    }
  }

  lemma AddToCaseHolds<T>(s: Order<T>, deaths: iset<string>, seen: seq<string>, regs: seq<(string, T)>, k: nat, t: T)
    requires Kept(s, deaths) && HoldsUnder(s, deaths, seen, regs) && k < |s.cases|
    ensures HoldsUnder(AddToCase(s, k, t), deaths, seen, regs + [(s.cases[k].name, t)])
  {
    assert (regs + [(s.cases[k].name, t)])[..|regs|] == regs;
    assert Names(AddToCase(s, k, t)) == Names(s);
  }

  /** Registering a test keeps the registry and the history in step. */
  lemma AddKeepsHolds<T>(s: Order<T>, deaths: iset<string>, regs: seq<(string, T)>, name: string, t: T)
    requires Kept(s, deaths) && Holds(s, deaths, regs)
    ensures Holds(Add(s, deaths, name, t), deaths, regs + [(name, t)])
  {
    var s', seen := GetCase(s, deaths, name), FirstSeen(regs);
    GetCaseHolds(s, deaths, regs, name);
    GetCaseHas(s, deaths, name);
    GetCaseKept(s, deaths, name);
    AddToCaseHolds(s', deaths, if name in seen then seen else seen + [name], regs, IndexOfCase(s', name), t);
    assert (regs + [(name, t)])[..|regs|] == regs;
  }

  lemma ShuffleKeepsHolds<T>(s: Order<T>, deaths: iset<string>, regs: seq<(string, T)>, state: nat)
    requires Kept(s, deaths) && Holds(s, deaths, regs)
    ensures Holds(Shuffle(s, state), deaths, regs) && Holds(Unshuffle(s), deaths, regs)
  {
    ShuffledCasesKeep(s.cases, 0, StateAfterGroups(|s.order|, s.lastDeath + 1, state));
    assert Names(Shuffle(s, state)) == Names(s) == Names(Unshuffle(s));
  }

  /** After any sequence of registrations, shuffles and unshuffles, what the
      registry holds is determined by the registrations alone.  If they were
      only made while unshuffled, the run order is in order too. */
  lemma {:induction false} EveryRunKeepsOrder<T>(deaths: iset<string>, ops: seq<Op<T>>)
    ensures Kept(Run(deaths, ops), deaths) && Holds(Run(deaths, ops), deaths, Registered(ops))
    ensures AllowedRun(deaths, ops) ==> Inv(Run(deaths, ops), deaths)
  {
    if ops == [] {
      assert Names(Run(deaths, ops)) == [];
    } else {
      var n := |ops| - 1;
      var s, regs := Run(deaths, ops[..n]), Registered(ops[..n]);
      EveryRunKeepsOrder(deaths, ops[..n]);
      StepKeeps(s, deaths, ops[n]);
      StepKeepsHolds(s, deaths, regs, ops[n]);
    }
  }

  lemma StepKeepsHolds<T>(s: Order<T>, deaths: iset<string>, regs: seq<(string, T)>, op: Op<T>)
    requires Kept(s, deaths) && Holds(s, deaths, regs)
    ensures Holds(Step(s, deaths, op), deaths, regs + if op.Register? then [(op.name, op.test)] else [])
  {
    assert regs + [] == regs;
    match op
    case Register(name, t) => AddKeepsHolds(s, deaths, regs, name, t);
    case ShuffleAll(state) => ShuffleKeepsHolds(s, deaths, regs, state);
    case UnshuffleAll => ShuffleKeepsHolds(s, deaths, regs, 0);
  }

  /** Whatever has been registered while shuffled, unshuffling puts the death
      test cases in front again. */
  lemma UnshufflingRepairs<T>(deaths: iset<string>, ops: seq<Op<T>>)
    ensures var s := Run(deaths, ops + [UnshuffleAll]); Inv(s, deaths) && Unshuffled(s) && DeathsFirst(s, deaths)
  {
    EveryRunKeepsOrder(deaths, ops);
    RunStep(deaths, ops, UnshuffleAll);
    UnshuffleKeepsInv(Run(deaths, ops), deaths);
  }

  /** In run order, every death test case comes before every other case. */
  lemma DeathCasesRunFirst<T>(s: Order<T>, deaths: iset<string>, i: nat, j: nat)
    requires Inv(s, deaths) && i < |s.order| && j < |s.order|
    requires s.cases[s.order[i]].name in deaths && s.cases[s.order[j]].name !in deaths
    ensures i < j
  {
  }

  // ----- How far a registry grows -------------------------------------------

  ghost predicate NoLarger<T>(s: Order<T>, n: nat) {
    |s.cases| <= n && forall k :: 0 <= k < |s.cases| ==> |s.cases[k].order| <= n
  }

  lemma AddGrows<T>(s: Order<T>, deaths: iset<string>, name: string, t: T, n: nat)
    requires Kept(s, deaths) && NoLarger(s, n)
    ensures NoLarger(Add(s, deaths, name, t), n + 1)
  {
    GetCaseHas(s, deaths, name);
    var s' := GetCase(s, deaths, name);
    forall k | 0 <= k < |s'.cases|
      ensures |s'.cases[k].order| <= n
    {
      if !HasCase(s, name) { NewCaseAt(s, deaths, name, k); }
    }
  }

  // ----- Every test is filed once -------------------------------------------

  /** The tests of each case, in registration order. */
  ghost function TestLists<T>(s: Order<T>): (r: seq<seq<T>>)
    ensures |r| == |s.cases| && forall c :: 0 <= c < |r| ==> r[c] == s.cases[c].tests
  {
    seq(|s.cases|, c requires 0 <= c < |s.cases| => s.cases[c].tests)
  }

  /** No test occurs twice in these lists. */
  ghost predicate FiledOnce<T>(lists: seq<seq<T>>) {
    && (forall c :: 0 <= c < |lists| ==> NoDuplicates(lists[c]))
    && (forall c, d :: 0 <= c < |lists| && 0 <= d < |lists| && c != d ==> Disjoint(lists[c], lists[d]))
  }

  /** Every registration is of a test of its own. */
  ghost predicate DistinctTests<T>(regs: seq<(string, T)>) {
    forall i, j :: 0 <= i < j < |regs| ==> regs[i].1 != regs[j].1
  }

  lemma {:induction false} TestsOfMember<T>(regs: seq<(string, T)>, name: string, k: nat) returns (i: nat)
    requires k < |TestsOf(regs, name)|
    ensures i < |regs| && regs[i] == (name, TestsOf(regs, name)[k])
  {
    var n := |regs| - 1;
    if k < |TestsOf(regs[..n], name)| {
      i := TestsOfMember(regs[..n], name, k);
    } else {
      i := n;
    }
  }

  lemma {:induction false} TestsOfContains<T>(regs: seq<(string, T)>, i: nat)
    requires i < |regs|
    ensures regs[i].0 in FirstSeen(regs) && regs[i].1 in TestsOf(regs, regs[i].0)
  {
    var n := |regs| - 1;
    if i < n { TestsOfContains(regs[..n], i); }
  }

  /** Every test that has been registered is filed under its case. */
  lemma RunFilesAll<T>(deaths: iset<string>, ops: seq<Op<T>>, i: nat) returns (c: nat, j: nat)
    requires i < |Registered(ops)|
    ensures var lists := TestLists(Run(deaths, ops));
      c < |lists| && j < |lists[c]| && lists[c][j] == Registered(ops)[i].1
  {
    var s, regs := Run(deaths, ops), Registered(ops);
    EveryRunKeepsOrder(deaths, ops);
    TestsOfContains(regs, i);
    HasCaseIffSeen(s, deaths, regs, regs[i].0);
    c := IndexOfCase(s, regs[i].0);
    var tests := TestsOf(regs, regs[i].0);
    assert s.cases[c].tests == tests;
    j :| j < |tests| && tests[j] == regs[i].1;
  }

  lemma {:induction false} TestsOfDistinct<T>(regs: seq<(string, T)>, name: string)
    requires DistinctTests(regs)
    ensures NoDuplicates(TestsOf(regs, name))
  {
    if regs != [] {
      var n := |regs| - 1;
      TestsOfDistinct(regs[..n], name);
      var front := TestsOf(regs[..n], name);
      forall k | 0 <= k < |front|
        ensures front[k] != regs[n].1
      {
        var i := TestsOfMember(regs[..n], name, k);
      }
    }
  }

  lemma TestsOfDisjoint<T>(regs: seq<(string, T)>, a: string, b: string)
    requires DistinctTests(regs) && a != b
    ensures Disjoint(TestsOf(regs, a), TestsOf(regs, b))
  {
    forall j, k | 0 <= j < |TestsOf(regs, a)| && 0 <= k < |TestsOf(regs, b)|
      ensures TestsOf(regs, a)[j] != TestsOf(regs, b)[k]
    {
      var i := TestsOfMember(regs, a, j);
      var l := TestsOfMember(regs, b, k);
    }
  }

  /** Whatever is registered, shuffled and unshuffled: as long as every
      registration is of a test of its own, every test is filed once. */
  lemma RunFilesOnce<T>(deaths: iset<string>, ops: seq<Op<T>>)
    requires DistinctTests(Registered(ops))
    ensures FiledOnce(TestLists(Run(deaths, ops)))
  {
    var s, regs := Run(deaths, ops), Registered(ops);
    EveryRunKeepsOrder(deaths, ops);
    forall c | 0 <= c < |s.cases|
      ensures NoDuplicates(s.cases[c].tests)
    {
      TestsOfDistinct(regs, s.cases[c].name);
    }
    forall c, d | 0 <= c < |s.cases| && 0 <= d < |s.cases| && c != d
      ensures Disjoint(s.cases[c].tests, s.cases[d].tests)
    {
      assert s.cases[c].name != s.cases[d].name;
      TestsOfDisjoint(regs, s.cases[c].name, s.cases[d].name);
    }
  }

  // ----- A shuffled registry ------------------------------------------------

  function ShuffledPair<T>(a: T, b: T): seq<Op<T>> {
    [Register("A", a), Register("B", b), ShuffleAll(1)]
  }

  lemma OrdinaryNames(deaths: iset<string>)
    requires AreDeaths(deaths)
    ensures "A" !in deaths && "B" !in deaths
  {
    DeathTestNames("A");
    DeathTestNames("B");
  }

  lemma SeedOneSwaps()
    ensures ShuffledGroups([0, 1], 0, 1) == [1, 0]
  {
    var s := [0, 1];
    assert Shuffled(s, 0, 0, Draws(1, 0)) == s;
    var choices := Draws(1, 2);
    assert choices[0] == 1103527590 % 2 == 0;
    assert Swap(s, 0, 1) == [1, 0];
  }

  /** Two ordinary cases of one test each. */
  function Pair<T>(a: T, b: T): Order<T> {
    Order([CaseOrder("A", [a], [0]), CaseOrder("B", [b], [0])], [0, 1], -1)
  }

  lemma FirstTest<T>(name: string, t: T)
    ensures WithTest(CaseOrder(name, [], []), t) == CaseOrder(name, [t], [0])
  {
    assert [] + [t] == [t] && [] + [0] == [0];
  }

  lemma RegisterFirst<T>(deaths: iset<string>, a: T)
    requires "A" !in deaths
    ensures Add(Order([], [], -1), deaths, "A", a) == Order([CaseOrder("A", [a], [0])], [0], -1)
  {
    var none: Order<T> := Order([], [], -1);
    var s := GetCase(none, deaths, "A");
    assert s == Order([CaseOrder("A", [], [])], [0], -1);
    GetCaseHas(none, deaths, "A");
    assert IndexOfCase(s, "A") == 0;
    FirstTest("A", a);
    assert s.cases[0 := CaseOrder("A", [a], [0])] == [CaseOrder("A", [a], [0])];
  }

  lemma RegisterSecond<T>(deaths: iset<string>, a: T, b: T)
    requires "B" !in deaths
    ensures Add(Order([CaseOrder("A", [a], [0])], [0], -1), deaths, "B", b) == Pair(a, b)
  {
    var one := Order([CaseOrder("A", [a], [0])], [0], -1);
    assert "A"[0] != "B"[0];
    var s := GetCase(one, deaths, "B");
    assert s == Order([CaseOrder("A", [a], [0]), CaseOrder("B", [], [])], [0, 1], -1);
    GetCaseHas(one, deaths, "B");
    assert IndexOfCase(s, "B") == 1;
    FirstTest("B", b);
    assert s.cases[1 := CaseOrder("B", [b], [0])] == Pair(a, b).cases;
  }

  lemma RunStep<T>(deaths: iset<string>, ops: seq<Op<T>>, op: Op<T>)
    ensures Run(deaths, ops + [op]) == Step(Run(deaths, ops), deaths, op)
    ensures AllowedRun(deaths, ops + [op]) <==> AllowedRun(deaths, ops) && Allowed(Run(deaths, ops), op)
  {
    assert (ops + [op])[..|ops|] == ops;
  }

  /** The second case comes to run first. */
  lemma ShuffledPairSwaps<T>(deaths: iset<string>, a: T, b: T)
    requires AreDeaths(deaths)
    ensures AllowedRun(deaths, ShuffledPair(a, b))
    ensures var s := Run(deaths, ShuffledPair(a, b)); s.order == [1, 0] && s.lastDeath == -1
  {
    OrdinaryNames(deaths);
    RegisterFirst(deaths, a);
    RegisterSecond(deaths, a, b);
    SeedOneSwaps();
    var none: seq<Op<T>> := [];
    var one: seq<Op<T>> := [Register("A", a)];
    RunStep(deaths, none, Register("A", a));
    RunStep(deaths, one, Register("B", b));
    RunStep(deaths, one + [Register("B", b)], ShuffleAll(1));
    assert none + [Register("A", a)] == one;
    assert one + [Register("B", b)] + [ShuffleAll(1)] == ShuffledPair(a, b);
  }

  lemma ShuffledPairRun<T>(deaths: iset<string>, a: T, b: T)
    requires AreDeaths(deaths)
    ensures Run(deaths, [Register("A", a), Register("B", b)]) == Pair(a, b)
    ensures Run(deaths, ShuffledPair(a, b)) == Shuffle(Pair(a, b), 1)
  {
    OrdinaryNames(deaths);
    RegisterFirst(deaths, a);
    RegisterSecond(deaths, a, b);
    var none: seq<Op<T>> := [];
    var one: seq<Op<T>> := [Register("A", a)];
    RunStep(deaths, none, Register("A", a));
    RunStep(deaths, one, Register("B", b));
    RunStep(deaths, one + [Register("B", b)], ShuffleAll(1));
    assert none + [Register("A", a)] == one;
    assert one + [Register("B", b)] + [ShuffleAll(1)] == ShuffledPair(a, b);
  }

  // ----- Registering while shuffled -----------------------------------------

  /** The case that runs at position i is a death test case. */
  ghost predicate RunsDeath<T>(s: Order<T>, deaths: iset<string>, i: int)
    requires 0 <= i < |s.order| && 0 <= s.order[i] < |s.cases|
  {
    s.cases[s.order[i]].name in deaths
  }

  /** No death test case runs after another kind of case. */
  ghost predicate DeathsFirst<T>(s: Order<T>, deaths: iset<string>) {
    && |s.order| == |s.cases|
    && (forall i :: 0 <= i < |s.order| ==> 0 <= s.order[i] < |s.cases|)
    && forall i, j ::
         (0 <= i < |s.order| && 0 <= j < |s.order| && RunsDeath(s, deaths, i) && !RunsDeath(s, deaths, j)) ==> i < j
  }

  /** What runs at position i after a new case has been added: inserting a
      death test case moves the cases behind it, but not their indices. */
  lemma RunsDeathAfter<T>(s: Order<T>, deaths: iset<string>, name: string, i: int)
    requires Kept(s, deaths) && 0 <= i <= |s.cases|
    ensures var s' := NewCase(s, deaths, name);
      && |s'.order| == |s'.cases| == |s.cases| + 1 && 0 <= s'.order[i] < |s'.cases|
      && (RunsDeath(s', deaths, i) <==>
          || s'.order[i] <= s.lastDeath
          || (name in deaths && s'.order[i] == s.lastDeath + 1))
  {
    NewCaseAt(s, deaths, name, NewCase(s, deaths, name).order[i]);
  }

  /** In run order, no case behind index k comes before one up to index k. */
  ghost predicate RunsUpTo<T>(s: Order<T>, k: int) {
    forall i, j :: 0 <= i < j < |s.order| && s.order[j] <= k ==> s.order[i] <= k
  }

  lemma NewDeathFirst<T>(s: Order<T>, deaths: iset<string>, name: string)
    requires Kept(s, deaths) && name in deaths
    ensures DeathsFirst(NewCase(s, deaths, name), deaths) <==> RunsUpTo(s, s.lastDeath + 1)
  {
    var s', k, n := NewCase(s, deaths, name), s.lastDeath + 1, |s.cases|;
    forall i | 0 <= i <= n
      ensures 0 <= s'.order[i] <= n && (RunsDeath(s', deaths, i) <==> s'.order[i] <= k)
    {
      RunsDeathAfter(s, deaths, name, i);
    }
    assert forall i :: 0 <= i < n ==> s'.order[i] == s.order[i];
    if DeathsFirst(s', deaths) {
      forall i, j | 0 <= i < j < n && s.order[j] <= k
        ensures s.order[i] <= k
      {
        assert RunsDeath(s', deaths, j);
        assert !RunsDeath(s', deaths, i) ==> j < i;
      }
    }
  }

  lemma NewOtherLast<T>(s: Order<T>, deaths: iset<string>, name: string)
    requires Kept(s, deaths) && name !in deaths
    ensures DeathsFirst(NewCase(s, deaths, name), deaths) <==> DeathsFirst(s, deaths)
  {
    var s', n := NewCase(s, deaths, name), |s.cases|;
    forall i | 0 <= i <= n
      ensures 0 <= s'.order[i] <= n && (RunsDeath(s', deaths, i) <==> s'.order[i] <= s.lastDeath)
      ensures i < n ==> (RunsDeath(s', deaths, i) <==> RunsDeath(s, deaths, i))
    {
      RunsDeathAfter(s, deaths, name, i);
    }
    if DeathsFirst(s', deaths) {
      forall i, j | 0 <= i < n && 0 <= j < n && RunsDeath(s, deaths, i) && !RunsDeath(s, deaths, j)
        ensures i < j
      {
        assert RunsDeath(s', deaths, i) && !RunsDeath(s', deaths, j);
      }
    }
  }

  lemma {:induction false} ElementsCount(p: seq<int>)
    requires DistinctRange(p, 0, |p|)
    ensures |set x | x in p| == |p|
  {
    if p != [] {
      var n := |p| - 1;
      ElementsCount(p[..n]);
      assert (set x | x in p) == (set x | x in p[..n]) + {p[n]};
      assert p[n] !in p[..n];
    }
  }

  lemma SubsetOfSameSize(a: set<int>, b: set<int>)
    requires a <= b && |a| == |b|
    ensures a == b
  {
    assert b == a + (b - a);
    assert |b - a| == 0;
    assert b - a == {};
  }

  /** A permutation takes every value. */
  lemma PermutationReaches(p: seq<int>, n: nat, x: int)
    requires IsPermutation(p, n) && 0 <= x < n
    ensures x in p
  {
    var id := Identity(n);
    var a, b := set y | y in p, set y | y in id;
    ElementsCount(p);
    ElementsCount(id);
    forall y | y in p ensures y in b { assert id[y] == y; }
    SubsetOfSameSize(a, b);
    assert id[x] == x;
    assert x in b;
  }

  /** Whatever has happened before: once a new case is registered, the death
      test cases run first exactly if it is none and they did before, or it is
      one and, in run order, none of the other cases but the first registered
      comes before that one or a death test case. */
  lemma RegisteringKeepsDeathsFirstIff<T>(s: Order<T>, deaths: iset<string>, name: string)
    requires Kept(s, deaths)
    ensures DeathsFirst(NewCase(s, deaths, name), deaths)
      <==> if name in deaths then RunsUpTo(s, s.lastDeath + 1) else DeathsFirst(s, deaths)
  {
    if name in deaths {
      NewDeathFirst(s, deaths, name);
    } else {
      NewOtherLast(s, deaths, name);
    }
  }

  /** If the death test cases do run first, this means that there is no other
      case, or that the first registered of the others runs first of them. */
  lemma RunsUpToWhileInOrder<T>(s: Order<T>, deaths: iset<string>)
    requires Inv(s, deaths)
    ensures RunsUpTo(s, s.lastDeath + 1)
      <==> s.lastDeath + 1 == |s.cases| || s.order[s.lastDeath + 1] == s.lastDeath + 1
  {
    var k, n := s.lastDeath + 1, |s.cases|;
    if k < n {
      PermutationReaches(s.order, n, k);
      var p :| 0 <= p < n && s.order[p] == k;
    }
  }

  /** Two ordinary cases are shuffled, then a death test case is registered:
      it does not run first. */
  lemma DeathTestRunsLate<T>(deaths: iset<string>, a: T, b: T)
    requires AreDeaths(deaths)
    ensures "DeathTest" in deaths
    ensures !DeathsFirst(NewCase(Run(deaths, ShuffledPair(a, b)), deaths, "DeathTest"), deaths)
  {
    DeathTestNames("DeathTest");
    ShuffledPairSwaps(deaths, a, b);
    EveryRunKeepsOrder(deaths, ShuffledPair(a, b));
    var s := Run(deaths, ShuffledPair(a, b));
    RunsUpToWhileInOrder(s, deaths);
    RegisteringKeepsDeathsFirstIff(s, deaths, "DeathTest");
  }
}
