/**
  Taking the flags that are recognised out of the command line, in place.
 */
module CommandLine {
  import opened Basics
  import opened CStrings

  // An element of argv; None is the NULL behind the last argument.
  type Arg = Option<CString>

  ghost predicate AllArguments(args: seq<Arg>) {
    forall k :: 0 <= k < |args| ==> args[k].Some?
  }

  /** The arguments that are not recognised, in order. */
  function Kept(args: seq<Arg>, isFlag: CString -> bool): (r: seq<Arg>)
    requires AllArguments(args)
    ensures AllArguments(r) && |r| <= |args|
  {
    if args == [] then []
    else if isFlag(args[0].value) then Kept(args[1..], isFlag)
    else [args[0]] + Kept(args[1..], isFlag)
  }

  ghost predicate Increasing(s: seq<nat>) {
    forall j, k :: 0 <= j < k < |s| ==> s[j] < s[k]
  }

  /** From position begin on, positions are those that hold no flag. */
  ghost predicate AreUnflagged(positions: seq<nat>, args: seq<Arg>, begin: nat, isFlag: CString -> bool)
    requires AllArguments(args)
  {
    && Increasing(positions)
    && (forall k :: 0 <= k < |positions| ==> begin <= positions[k] < |args| && !isFlag(args[positions[k]].value))
    && (forall i :: begin <= i < |args| && !isFlag(args[i].value) ==> i in positions)
  }

  lemma IncreasingFrom(begin: nat, positions: seq<nat>)
    requires Increasing(positions) && forall k :: 0 <= k < |positions| ==> begin < positions[k]
    ensures Increasing([begin] + positions)
  {
  }

  lemma UnflaggedNext(positions: seq<nat>, args: seq<Arg>, begin: nat, isFlag: CString -> bool)
    requires AllArguments(args) && begin < |args| && !isFlag(args[begin].value)
    requires AreUnflagged(positions, args, begin + 1, isFlag)
    ensures AreUnflagged([begin] + positions, args, begin, isFlag)
  {
    var longer := [begin] + positions;
    IncreasingFrom(begin, positions);
    forall i | begin <= i < |args| && !isFlag(args[i].value)
      ensures i in longer
    {
      if i == begin { assert longer[0] == i; }
    }
  }

  ghost predicate Selects(kept: seq<Arg>, args: seq<Arg>, positions: seq<nat>) {
    && |positions| == |kept|
    && forall k :: 0 <= k < |kept| ==> positions[k] < |args| && kept[k] == args[positions[k]]
  }

  lemma SelectsNext(kept: seq<Arg>, args: seq<Arg>, positions: seq<nat>, begin: nat)
    requires Selects(kept, args, positions) && begin < |args|
    ensures Selects([args[begin]] + kept, args, [begin] + positions)
  {
  }

  /** Kept is a stable filter: it takes the arguments at exactly the positions
      that hold no flag, from left to right. */
  lemma {:induction false} KeptPositions(args: seq<Arg>, begin: nat, isFlag: CString -> bool)
    returns (positions: seq<nat>)
    requires AllArguments(args) && begin <= |args|
    ensures AreUnflagged(positions, args, begin, isFlag)
    ensures Selects(Kept(args[begin..], isFlag), args, positions)
    decreases |args| - begin
  {
    positions := [];
    if begin < |args| {
      positions := KeptPositions(args, begin + 1, isFlag);
      assert args[begin..][1..] == args[begin + 1..];
      if !isFlag(args[begin].value) {
        UnflaggedNext(positions, args, begin, isFlag);
        SelectsNext(Kept(args[begin + 1..], isFlag), args, positions, begin);
        positions := [begin] + positions;
      }
    }
  }

  /** argv holds argc arguments and a NULL behind them. */
  ghost predicate IsCommandLine(argv: seq<Arg>, argc: int) {
    0 <= argc < |argv| && AllArguments(argv[..argc]) && argv[argc] == None
  }

  /** Moves everything behind argument i, and the NULL, one place down. */
  method ShiftLeft(argv: array<Arg>, i: int, argc: int)
    requires 0 <= i < argc < argv.Length
    modifies argv
    ensures argv[..] == Shifted(old(argv[..]), i, argc)
  {
    var j := i;
    while j != argc
      invariant i <= j <= argc
      invariant forall k :: 0 <= k < argv.Length ==> argv[k] == old(if i <= k < j then argv[k + 1] else argv[k])
    {
      argv[j] := argv[j + 1];
      j := j + 1;
    }
  }

  ghost function Shifted(argv: seq<Arg>, i: int, argc: int): seq<Arg>
    requires 0 <= i < argc < |argv|
  {
    argv[..i] + argv[i + 1..argc + 1] + argv[argc..]
  }

  // ----- The loop -----------------------------------------------------------

  /** Arguments 1 to i have been looked at, argc of the argc0 arguments that
      there were in before are left, and the places they left hold NULL. */
  ghost predicate Parsed(argv: seq<Arg>, before: seq<Arg>, i: int, argc: int, argc0: int, isFlag: CString -> bool) {
    && 1 <= i <= argc <= argc0 < |argv| == |before|
    && AllArguments(argv[..argc]) && AllArguments(before[..argc0])
    && AllArguments(argv[i..argc]) && AllArguments(before[1..argc0])
    && argv[0] == before[0]
    && argv[1..i] + Kept(argv[i..argc], isFlag) == Kept(before[1..argc0], isFlag)
    && (forall k :: argc <= k <= argc0 ==> argv[k] == None)
    && argv[argc0 + 1..] == before[argc0 + 1..]
  }

  lemma KeepNext(argv: seq<Arg>, before: seq<Arg>, i: int, argc: int, argc0: int, isFlag: CString -> bool)
    requires Parsed(argv, before, i, argc, argc0, isFlag) && i < argc && !isFlag(argv[i].value)
    ensures Parsed(argv, before, i + 1, argc, argc0, isFlag)
  {
    assert argv[i..argc][1..] == argv[i + 1..argc];
    assert argv[1..i + 1] == argv[1..i] + [argv[i]];
    assert argv[1..i] + ([argv[i]] + Kept(argv[i + 1..argc], isFlag))
      == argv[1..i + 1] + Kept(argv[i + 1..argc], isFlag);
  }

  lemma ShiftedParts(argv: seq<Arg>, i: int, argc: int, argc0: int)
    requires 1 <= i < argc <= argc0 < |argv|
    ensures var shifted := Shifted(argv, i, argc);
      && |shifted| == |argv|
      && shifted[..i] == argv[..i] && shifted[i..argc - 1] == argv[i + 1..argc]
      && shifted[argc - 1] == argv[argc] && shifted[argc..] == argv[argc..]
  {
    var shifted, n := Shifted(argv, i, argc), argc - i;
    var front, middle := argv[..i], argv[i + 1..argc + 1];
    assert shifted == front + middle + argv[argc..] && |front + middle| == argc;
    assert shifted[..argc] == front + middle;
    assert middle[..n - 1] == argv[i + 1..argc];
    assert shifted[i..argc] == middle;
    assert shifted[i..argc - 1] == shifted[i..argc][..n - 1];
  }

  lemma RemoveNext(argv: seq<Arg>, before: seq<Arg>, i: int, argc: int, argc0: int, isFlag: CString -> bool)
    requires Parsed(argv, before, i, argc, argc0, isFlag) && i < argc && isFlag(argv[i].value)
    ensures Parsed(Shifted(argv, i, argc), before, i, argc - 1, argc0, isFlag)
    ensures Shifted(argv, i, argc)[1..i] == argv[1..i]
  {
    var shifted := Shifted(argv, i, argc);
    ShiftedParts(argv, i, argc, argc0);
    assert argv[i..argc][1..] == argv[i + 1..argc];
    assert shifted[1..i] == shifted[..i][1..] == argv[..i][1..] == argv[1..i];
    assert shifted[argc0 + 1..] == shifted[argc..][argc0 + 1 - argc..] == argv[argc0 + 1..];
    assert forall k :: argc <= k <= argc0 ==> shifted[k] == shifted[argc..][k - argc] == argv[k];
    assert shifted[..argc - 1] == argv[..i] + argv[i + 1..argc];
    assert forall k :: 0 <= k < argc ==> argv[k] == argv[..argc][k];
  }

  ghost predicate SomeAsks(args: seq<Arg>, asksForHelp: CString -> bool)
    requires AllArguments(args)
  {
    exists k :: 0 <= k < |args| && asksForHelp(args[k].value)
  }

  lemma SomeAsksAppend(args: seq<Arg>, arg: Arg, asksForHelp: CString -> bool)
    requires AllArguments(args) && arg.Some?
    ensures SomeAsks(args + [arg], asksForHelp) <==> SomeAsks(args, asksForHelp) || asksForHelp(arg.value)
  {
    var all := args + [arg];
    assert all[|args|] == arg;
    if k :| 0 <= k < |args| && asksForHelp(args[k].value) {
      assert all[k] == args[k];
    }
  }

  /** What is left on the command line: the program name, the arguments that
      were not recognised, and NULL in every place behind them. */
  ghost predicate Filtered(after: seq<Arg>, before: seq<Arg>, argc: int, argc0: int, isFlag: CString -> bool)
    requires 1 <= argc0 < |before| && AllArguments(before[1..argc0])
  {
    var kept := Kept(before[1..argc0], isFlag);
    && |after| == |before| && argc == 1 + |kept|
    && after[..argc] == [before[0]] + kept
    && (forall k :: argc <= k <= argc0 ==> after[k] == None)
    && after[argc0 + 1..] == before[argc0 + 1..]
  }

  lemma AllParsed(argv: seq<Arg>, before: seq<Arg>, argc: int, argc0: int, isFlag: CString -> bool)
    requires Parsed(argv, before, argc, argc, argc0, isFlag)
    ensures Filtered(argv, before, argc, argc0, isFlag)
    ensures argv[1..argc] == Kept(before[1..argc0], isFlag)
  {
    assert argv[argc..argc] == [];
    assert argv[1..argc] + [] == argv[1..argc];
    assert argv[..argc] == [argv[0]] + argv[1..argc];
  }

  lemma NothingParsed(argv: seq<Arg>, argc: int, isFlag: CString -> bool)
    requires IsCommandLine(argv, argc) && argc >= 1
    ensures Parsed(argv, argv, 1, argc, argc, isFlag)
  {
    assert argv[1..1] + Kept(argv[1..argc], isFlag) == Kept(argv[1..argc], isFlag);
  }

  /** The body of the loop for a flag. */
  method RemoveFlag(argv: array<Arg>, ghost before: seq<Arg>, i: int, argc: int, ghost argc0: int,
                    isFlag: CString -> bool)
    requires Parsed(argv[..], before, i, argc, argc0, isFlag) && i < argc && isFlag(argv[i].value)
    modifies argv
    ensures Parsed(argv[..], before, i, argc - 1, argc0, isFlag)
    ensures argv[..][1..i] == old(argv[..][1..i])
  {
    RemoveNext(argv[..], before, i, argc, argc0, isFlag);
    ShiftLeft(argv, i, argc);
  }

  /** ParseGoogleTestFlagsOnlyImpl, up to the printing of the help text. */
  method ParseGoogleTestFlagsOnly(argv: array<Arg>, argc0: int, isFlag: CString -> bool,
                                  asksForHelp: CString -> bool, helpFlag0: bool)
    returns (argc: int, helpFlag: bool)
    requires IsCommandLine(argv[..], argc0) && argc0 >= 1
    modifies argv
    ensures AllArguments(old(argv[..])[1..argc0])
    ensures Filtered(argv[..], old(argv[..]), argc, argc0, isFlag)
    ensures helpFlag <==> helpFlag0 || SomeAsks(Kept(old(argv[..])[1..argc0], isFlag), asksForHelp)
  {
    argc, helpFlag := argc0, helpFlag0;
    ghost var before := argv[..];
    NothingParsed(before, argc0, isFlag);
    var i := 1;
    ghost var looked: seq<Arg> := [];
    while i < argc
      invariant Parsed(argv[..], before, i, argc, argc0, isFlag)
      invariant looked == argv[..][1..i] && AllArguments(looked)
      invariant helpFlag <==> helpFlag0 || SomeAsks(looked, asksForHelp)
      decreases argc - i
    {
      var arg := argv[i].value;
      if isFlag(arg) {
        RemoveFlag(argv, before, i, argc, argc0, isFlag);
        argc := argc - 1;
        i := i - 1;
      } else {
        KeepNext(argv[..], before, i, argc, argc0, isFlag);
        SomeAsksAppend(looked, argv[i], asksForHelp);
        looked := looked + [argv[i]];
        if asksForHelp(arg) {
          helpFlag := true;
        }
      }
      i := i + 1;
    }
    AllParsed(argv[..], before, argc, argc0, isFlag);
  }
}
