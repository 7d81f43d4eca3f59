/**
  The random generator and the in-place Fisher-Yates shuffle of Google Test.
 */
module Shuffling {

  const MAX_RANGE := 0x8000_0000

  /** The state of the generator after one draw; 32-bit arithmetic wraps. */
  function NextState(state: nat): nat {
    ((1103515245 * state + 12345) % 0x1_0000_0000) % MAX_RANGE
  }

  // ----- The generator ------------------------------------------------------

  lemma ModOfMod(x: nat)
    ensures (x % 0x1_0000_0000) % 0x8000_0000 == x % 0x8000_0000
  {
    var q, r := x / 0x1_0000_0000, x % 0x1_0000_0000;
    assert x == (2 * q) * 0x8000_0000 + r;
    ModPlus(r, 2 * q, 0x8000_0000);
  }

  lemma ModPlus(r: nat, q: int, m: nat)
    requires m > 0
    ensures (q * m + r) % m == r % m
  {
    var a, b := r / m, r % m;
    assert q * m + r == (q + a) * m + b;
    ModIs(q * m + r, q + a, b, m);
  }

  lemma ModIs(x: int, q: int, r: nat, m: nat)
    requires m > 0 && r < m && x == q * m + r
    ensures x % m == r
  {
    var p := x / m;
    assert x == p * m + x % m;
    if p < q { MulAtLeast(p + 1, q, m); } else if q < p { MulAtLeast(q + 1, p, m); }
  }

  lemma MulAtLeast(a: int, b: int, m: nat)
    requires a <= b
    ensures a * m <= b * m
  {
  }

  lemma NextStateMod(state: nat)
    ensures NextState(state) == (1103515245 * state + 12345) % 0x8000_0000
  {
    ModOfMod(1103515245 * state + 12345);
  }

  /** The generator of glibc's rand(3): it starts like this, and a state one
      higher leads to a state that much higher, round the range. */
  lemma GeneratorLaws(state: nat)
    ensures NextState(0) == 12345
    ensures NextState(state + 1) == (NextState(state) + 1103515245) % 0x8000_0000
  {
    var x := 1103515245 * state + 12345;
    NextStateMod(state);
    NextStateMod(state + 1);
    assert 1103515245 * (state + 1) + 12345 == x + 1103515245;
    var q := x / 0x8000_0000;
    assert x + 1103515245 == q * 0x8000_0000 + (x % 0x8000_0000 + 1103515245);
    ModPlus(x % 0x8000_0000 + 1103515245, q, 0x8000_0000);
  }

  /** The state before: 1857678181 is the inverse of the factor. */
  function PreviousState(next: nat): nat {
    (1857678181 * (next + 0x8000_0000 - 12345)) % 0x8000_0000
  }

  /** Different states lead to different states. */
  lemma NextStateReversible(state: nat)
    requires state < 0x8000_0000
    ensures PreviousState(NextState(state)) == state
  {
    var m := 0x8000_0000;
    var x := 1103515245 * state + 12345;
    NextStateMod(state);
    var q := x / m;
    assert NextState(state) == x - q * m;
    var y := 1857678181 * (NextState(state) + m - 12345);
    assert y == 1857678181 * (1103515245 * state + (1 - q) * m);
    assert 1857678181 * 1103515245 == 1 + 954594553 * m;
    assert y == (954594553 * state + 1857678181 * (1 - q)) * m + state;
    ModIs(y, 954594553 * state + 1857678181 * (1 - q), state, m);
  }

  /** The state after n draws. */
  function Iterated(state: nat, n: nat): nat {
    if n == 0 then state else NextState(Iterated(state, n - 1))
  }

  lemma {:induction false} IteratedFirst(state: nat, n: nat)
    ensures Iterated(NextState(state), n) == Iterated(state, n + 1)
  {
    if n > 0 { IteratedFirst(state, n - 1); }
  }

  lemma {:induction false} IteratedPlus(state: nat, m: nat, n: nat)
    ensures Iterated(Iterated(state, m), n) == Iterated(state, m + n)
  {
    if n > 0 { IteratedPlus(state, m, n - 1); }
  }

  class Random {
    var state: nat

    constructor (seed: nat)
      ensures state == seed
    {
      state := seed;
    }

    method Reseed(seed: nat)
      modifies this
      ensures state == seed
    {
      state := seed;
    }

    /** The source aborts on a range of 0 or beyond MAX_RANGE. */
    method Generate(range: nat) returns (r: nat)
      requires 0 < range <= MAX_RANGE
      modifies this
      ensures state == NextState(old(state)) && r == state % range < range
    {
      state := NextState(state);
      r := state % range;
    }
  }

  /** A std::vector, shared by reference. */
  class Vector<E> {
    var elems: seq<E>

    constructor ()
      ensures elems == []
    {
      elems := [];
    }
  }

  /** v[i], or the default if i is out of range. */
  function GetElementOr<E>(v: seq<E>, i: int, default: E): E {
    if i < 0 || i >= |v| then default else v[i]
  }

  function Swap<E>(s: seq<E>, i: nat, j: nat): seq<E>
    requires i < |s| && j < |s|
  {
    s[i := s[j]][j := s[i]]
  }

  /** One choice for each range width from width down to 2, below that width. */
  ghost predicate ValidChoices(width: nat, choices: seq<nat>) {
    && |choices| == (if width < 2 then 0 else width - 1)
    && forall k :: 0 <= k < |choices| ==> choices[k] < width - k
  }

  /** The shuffle of [begin, begin + width) under the given choices. */
  ghost function Shuffled<E>(s: seq<E>, begin: nat, width: nat, choices: seq<nat>): (t: seq<E>)
    requires begin + width <= |s| && ValidChoices(width, choices)
    ensures |t| == |s|
    decreases width
  {
    if width < 2 then s
    else Shuffled(Swap(s, begin + choices[0], begin + width - 1), begin, width - 1, choices[1..])
  }

  /** The choices the generator makes from a state, and the state it is left in. */
  ghost function Draws(state: nat, width: nat): (choices: seq<nat>)
    ensures ValidChoices(width, choices)
    decreases width
  {
    if width < 2 then []
    else [NextState(state) % width] + Draws(NextState(state), width - 1)
  }

  ghost function StateAfter(state: nat, width: nat): nat
    decreases width
  {
    if width < 2 then state else StateAfter(NextState(state), width - 1)
  }

  /** The k-th choice is what the k-th draw leaves, divided by the width of the
      range that is left then. */
  lemma {:induction false} DrawsAt(state: nat, width: nat, k: nat)
    requires k + 1 < width
    ensures Draws(state, width)[k] == Iterated(state, k + 1) % (width - k)
    decreases k
  {
    assert Iterated(state, 1) == NextState(Iterated(state, 0)) == NextState(state);
    if k > 0 {
      DrawsAt(NextState(state), width - 1, k - 1);
      IteratedFirst(state, k);
    }
  }

  function DrawCount(width: nat): nat {
    if width < 2 then 0 else width - 1
  }

  lemma {:induction false} StateAfterDraws(state: nat, width: nat)
    ensures StateAfter(state, width) == Iterated(state, DrawCount(width))
    decreases width
  {
    if width >= 2 {
      StateAfterDraws(NextState(state), width - 1);
      IteratedFirst(state, width - 2);
    }
  }

  /** The first choice says which element goes to the end of the range, for the
      one there; then the range is shuffled without its end. */
  lemma ShuffledFirst<E>(s: seq<E>, t: seq<E>, begin: nat, width: nat, choices: seq<nat>)
    requires width >= 2 && begin + width <= |s| == |t| && ValidChoices(width, choices)
    requires var last, chosen := begin + width - 1, begin + choices[0];
      forall i :: 0 <= i < |s| ==> t[i] == if i == last then s[chosen] else if i == chosen then s[last] else s[i]
    ensures Shuffled(s, begin, width, choices) == Shuffled(t, begin, width - 1, choices[1..])
  {
    assert Swap(s, begin + choices[0], begin + width - 1) == t;
  }

  /** Shuffling part of a sequence shuffles that part alone. */
  lemma {:induction false} ShuffledPart<E>(a: seq<E>, s: seq<E>, b: seq<E>, choices: seq<nat>, width: nat)
    requires width <= |s| && ValidChoices(width, choices)
    ensures Shuffled(a + s + b, |a|, width, choices) == a + Shuffled(s, 0, width, choices) + b
    decreases width
  {
    if width >= 2 {
      var t := Swap(s, choices[0], width - 1);
      assert Swap(a + s + b, |a| + choices[0], |a| + width - 1) == a + t + b;
      ShuffledPart(a, t, b, choices[1..], width - 1);
    }
  }

  /** One step of the shuffle, with the generator's next choice. */
  lemma ShuffledStep<E>(s: seq<E>, begin: nat, width: nat, state: nat)
    requires width >= 2 && begin + width <= |s|
    ensures var next := NextState(state);
      Shuffled(s, begin, width, Draws(state, width))
      == Shuffled(Swap(s, begin + next % width, begin + width - 1), begin, width - 1, Draws(next, width - 1))
  {
    assert Draws(state, width)[1..] == Draws(NextState(state), width - 1);
  }

  method ShuffleRange<E>(random: Random, begin: int, end: int, v: Vector<E>)
    requires 0 <= begin <= end <= |v.elems| && end - begin <= MAX_RANGE
    modifies random, v
    ensures v.elems == Shuffled(old(v.elems), begin, end - begin, Draws(old(random.state), end - begin))
    ensures random.state == StateAfter(old(random.state), end - begin)
  {
    var rangeWidth := end - begin;
    while rangeWidth >= 2
      invariant 0 <= rangeWidth <= end - begin && |v.elems| == |old(v.elems)|
      invariant Shuffled(v.elems, begin, rangeWidth, Draws(random.state, rangeWidth))
        == Shuffled(old(v.elems), begin, end - begin, Draws(old(random.state), end - begin))
      invariant StateAfter(random.state, rangeWidth) == StateAfter(old(random.state), end - begin)
    {
      var lastInRange := begin + rangeWidth - 1;
      ShuffledStep(v.elems, begin, rangeWidth, random.state);
      var selected := random.Generate(rangeWidth);
      selected := begin + selected;
      v.elems := Swap(v.elems, selected, lastInRange);
      assert Shuffled(v.elems, begin, rangeWidth - 1, Draws(random.state, rangeWidth - 1))
        == Shuffled(old(v.elems), begin, end - begin, Draws(old(random.state), end - begin));
      rangeWidth := rangeWidth - 1;
    }
  }

  method Shuffle<E>(random: Random, v: Vector<E>)
    requires |v.elems| <= MAX_RANGE
    modifies random, v
    ensures v.elems == Shuffled(old(v.elems), 0, |old(v.elems)|, Draws(old(random.state), |old(v.elems)|))
    ensures random.state == StateAfter(old(random.state), |old(v.elems)|)
  {
    ShuffleRange(random, 0, |v.elems|, v);
  }

  // ----- Choices and permutations -------------------------------------------

  /** t rearranges [begin, begin + width) of s and leaves the rest alone. */
  ghost predicate RearrangesRange<E>(s: seq<E>, t: seq<E>, begin: nat, width: nat)
    requires begin + width <= |s|
  {
    && |t| == |s|
    && multiset(t) == multiset(s)
    && (forall k :: 0 <= k < |s| && !(begin <= k < begin + width) ==> t[k] == s[k])
  }

  lemma SwapMultiset<E>(s: seq<E>, i: nat, j: nat)
    requires i < |s| && j < |s|
    ensures multiset(Swap(s, i, j)) == multiset(s)
  {
  }

  /** Whatever the choices, only the order within the range changes. */
  lemma {:induction false} ShuffledRearranges<E>(s: seq<E>, begin: nat, width: nat, choices: seq<nat>)
    requires begin + width <= |s| && ValidChoices(width, choices)
    ensures RearrangesRange(s, Shuffled(s, begin, width, choices), begin, width)
    decreases width
  {
    if width >= 2 {
      SwapMultiset(s, begin + choices[0], begin + width - 1);
      ShuffledRearranges(Swap(s, begin + choices[0], begin + width - 1), begin, width - 1, choices[1..]);
    }
  }

  ghost predicate DistinctRange<E>(s: seq<E>, begin: nat, width: nat)
    requires begin + width <= |s|
  {
    forall i, j :: begin <= i < j < begin + width ==> s[i] != s[j]
  }

  lemma SwapDistinct<E>(s: seq<E>, begin: nat, width: nat, c: nat)
    requires 2 <= width && begin + width <= |s| && DistinctRange(s, begin, width) && c < width
    ensures DistinctRange(Swap(s, begin + c, begin + width - 1), begin, width - 1)
  {
  }

  /** The first choice is where the last element of the result came from. */
  lemma FirstChoice<E>(s: seq<E>, begin: nat, width: nat, c: seq<nat>)
    requires 2 <= width && begin + width <= |s| && ValidChoices(width, c)
    ensures Shuffled(s, begin, width, c)[begin + width - 1] == s[begin + c[0]]
  {
    ShuffledRearranges(Swap(s, begin + c[0], begin + width - 1), begin, width - 1, c[1..]);
  }

  /** Different choices give different orders. */
  lemma {:induction false} ChoicesDetermined<E>(s: seq<E>, begin: nat, width: nat, c: seq<nat>, d: seq<nat>)
    requires begin + width <= |s| && ValidChoices(width, c) && ValidChoices(width, d)
    requires DistinctRange(s, begin, width)
    requires Shuffled(s, begin, width, c) == Shuffled(s, begin, width, d)
    ensures c == d
    decreases width
  {
    if width >= 2 {
      FirstChoice(s, begin, width, c);
      FirstChoice(s, begin, width, d);
      assert s[begin + c[0]] == s[begin + d[0]];
      assert c[0] == d[0];
      SwapDistinct(s, begin, width, c[0]);
      ChoicesDetermined(Swap(s, begin + c[0], begin + width - 1), begin, width - 1, c[1..], d[1..]);
      assert c == [c[0]] + c[1..] && d == [d[0]] + d[1..];
    }
  }

  /** Every rearrangement of the range is reached by some choices. */
  lemma {:induction false} ChoicesExist<E>(s: seq<E>, t: seq<E>, begin: nat, width: nat) returns (c: seq<nat>)
    requires begin + width <= |s| && RearrangesRange(s, t, begin, width)
    ensures ValidChoices(width, c) && Shuffled(s, begin, width, c) == t
    decreases width
  {
    if width < 2 {
      c := [];
      SingletonRearrangement(s, t, begin, width);
    } else {
      var last := begin + width - 1;
      var k := FindInRange(s, t, begin, width);
      var s1 := Swap(s, k, last);
      SwapMultiset(s, k, last);
      var rest := ChoicesExist(s1, t, begin, width - 1);
      c := [k - begin] + rest;
      assert c[1..] == rest;
    }
  }

  lemma MultisetParts<E>(s: seq<E>, begin: nat, end: nat)
    requires begin <= end <= |s|
    ensures multiset(s) == multiset(s[..begin]) + multiset(s[end..]) + multiset(s[begin..end])
  {
    assert s == s[..begin] + s[begin..end] + s[end..];
  }

  lemma RangeMultiset<E>(s: seq<E>, t: seq<E>, begin: nat, width: nat)
    requires begin + width <= |s| && RearrangesRange(s, t, begin, width)
    ensures multiset(s[begin..begin + width]) == multiset(t[begin..begin + width])
  {
    var end := begin + width;
    MultisetParts(s, begin, end);
    MultisetParts(t, begin, end);
    assert s[..begin] == t[..begin] && s[end..] == t[end..];
    var around := multiset(s[..begin]) + multiset(s[end..]);
    assert multiset(s[begin..end]) == multiset(s) - around == multiset(t[begin..end]);
  }

  lemma FindInRange<E>(s: seq<E>, t: seq<E>, begin: nat, width: nat) returns (k: nat)
    requires 1 <= width && begin + width <= |s| && RearrangesRange(s, t, begin, width)
    ensures begin <= k < begin + width && s[k] == t[begin + width - 1]
  {
    RangeMultiset(s, t, begin, width);
    var x := t[begin + width - 1];
    assert x == t[begin..begin + width][width - 1];
    assert x in multiset(s[begin..begin + width]);
    var i :| 0 <= i < width && s[begin..begin + width][i] == x;
    k := begin + i;
  }

  lemma SingletonRearrangement<E>(s: seq<E>, t: seq<E>, begin: nat, width: nat)
    requires width < 2 && begin + width <= |s| && RearrangesRange(s, t, begin, width)
    ensures s == t
  {
    if width == 1 {
      var k := FindInRange(s, t, begin, width);
    }
  }

  /** On distinct elements the shuffle is a bijection between choice sequences
      and rearrangements of the range. */
  lemma ShuffleIsBijection<E>(s: seq<E>, t: seq<E>, begin: nat, width: nat)
    requires begin + width <= |s| && DistinctRange(s, begin, width)
    ensures RearrangesRange(s, t, begin, width) <==>
      exists c :: ValidChoices(width, c) && Shuffled(s, begin, width, c) == t
    ensures forall c, d ::
      (ValidChoices(width, c) && ValidChoices(width, d)
       && Shuffled(s, begin, width, c) == t && Shuffled(s, begin, width, d) == t) ==> c == d
  {
    if RearrangesRange(s, t, begin, width) {
      var c := ChoicesExist(s, t, begin, width);
    }
    forall c | ValidChoices(width, c) && Shuffled(s, begin, width, c) == t
      ensures RearrangesRange(s, t, begin, width)
    {
      ShuffledRearranges(s, begin, width, c);
    }
    forall c, d | ValidChoices(width, c) && ValidChoices(width, d)
      && Shuffled(s, begin, width, c) == t && Shuffled(s, begin, width, d) == t
      ensures c == d
    {
      ChoicesDetermined(s, begin, width, c, d);
    }
  }
}
