/**
  What a set of linked_ptrs promises to its users, without rings: every live
  pointer holds at most one object, and an object is deleted when the last
  pointer holding it lets go.  LinkedPtr shows that the rings refine this.
 */
module RefCount {
  import opened Basics

  /** holds: what each live pointer holds; captured: every object ever taken
      over from a raw pointer; deleted: the objects deleted so far, in order. */
  datatype State<P(==), O(==)> = State(holds: map<P, Option<O>>, captured: set<O>, deleted: seq<O>)

  datatype Op<P, O> =
    | Construct(p: P, o: Option<O>)
    | CopyConstruct(p: P, q: P)
    | Assign(p: P, q: P)
    | Reset(p: P, o: Option<O>)
    | Destroy(p: P)

  ghost function Init<P, O>(): State<P, O> {
    State(map[], {}, [])
  }

  ghost predicate Fresh<P, O>(s: State<P, O>, o: Option<O>) {
    o.Some? ==> o.value !in s.captured
  }

  /** What the language demands of callers: constructors run on dead storage,
      everything else on live pointers; a raw pointer is captured only once. */
  ghost predicate Enabled<P, O>(s: State<P, O>, op: Op<P, O>) {
    match op
    case Construct(p, o) => p !in s.holds && Fresh(s, o)
    case CopyConstruct(p, q) => p !in s.holds && q in s.holds
    case Assign(p, q) => p in s.holds && q in s.holds
    case Reset(p, o) => p in s.holds && Fresh(s, o)
    case Destroy(p) => p in s.holds
  }

  ghost predicate Held<P, O>(s: State<P, O>, o: O) {
    exists p :: p in s.holds && s.holds[p] == Some(o)
  }

  /** p lets go of what it holds; the object goes with it if p was the last. */
  ghost function Release<P, O>(s: State<P, O>, p: P): State<P, O>
    requires p in s.holds
  {
    var s' := s.(holds := s.holds - {p});
    match s.holds[p]
    case None => s'
    case Some(o) => if Held(s', o) then s' else s'.(deleted := s.deleted + [o])
  }

  ghost function Capture<P, O>(s: State<P, O>, p: P, o: Option<O>): State<P, O> {
    State(s.holds[p := o], if o.Some? then s.captured + {o.value} else s.captured, s.deleted)
  }

  ghost function Copied<P, O>(s: State<P, O>, p: P, q: P): State<P, O>
    requires q in s.holds
  {
    s.(holds := s.holds[p := s.holds[q]])
  }

  ghost function Step<P, O>(s: State<P, O>, op: Op<P, O>): State<P, O>
    requires Enabled(s, op)
  {
    match op
    case Construct(p, o) => Capture(s, p, o)
    case CopyConstruct(p, q) => Copied(s, p, q)
    case Assign(p, q) =>
      if p == q then s
      else Copied(Release(s, p), p, q)
    case Reset(p, o) => Capture(Release(s, p), p, o)
    case Destroy(p) => Release(s, p)
  }

  ghost predicate EnabledRun<P, O>(s: State<P, O>, ops: seq<Op<P, O>>)
    decreases |ops|
  {
    ops == [] || (Enabled(s, ops[0]) && EnabledRun(Step(s, ops[0]), ops[1..]))
  }

  ghost function Run<P, O>(s: State<P, O>, ops: seq<Op<P, O>>): State<P, O>
    requires EnabledRun(s, ops)
    decreases |ops|
  {
    if ops == [] then s else Run(Step(s, ops[0]), ops[1..])
  }

  /** An object taken over is either held or deleted, never both and never
      deleted twice; nothing else is held or deleted. */
  ghost predicate Safe<P, O>(s: State<P, O>) {
    && NoDuplicates(s.deleted)
    && (forall p :: p in s.holds && s.holds[p].Some? ==> s.holds[p].value in s.captured)
    && (forall o :: o in s.deleted ==> o in s.captured)
    && (forall o :: o in s.captured ==> (o in s.deleted <==> !Held(s, o)))
  }

  lemma ReleaseSafe<P, O>(s: State<P, O>, p: P)
    requires Safe(s) && p in s.holds
    ensures Safe(Release(s, p))
    ensures Release(s, p).captured == s.captured
  {
    var s' := Release(s, p);
    forall o | o in s.captured
      ensures o in s'.deleted <==> !Held(s', o)
    {
      if Held(s, o) {
        var q :| q in s.holds && s.holds[q] == Some(o);
        if q != p { assert q in s'.holds && s'.holds[q] == Some(o); }
      }
    }
  }

  lemma CaptureSafe<P, O>(s: State<P, O>, p: P, o: Option<O>)
    requires Safe(s) && p !in s.holds && Fresh(s, o)
    ensures Safe(Capture(s, p, o))
  {
    var s' := Capture(s, p, o);
    forall x | x in s'.captured
      ensures x in s'.deleted <==> !Held(s', x)
    {
      if Some(x) == o {
        assert s'.holds[p] == Some(x);
      } else if Held(s, x) {
        var q :| q in s.holds && s.holds[q] == Some(x);
        assert s'.holds[q] == Some(x);
      }
    }
  }

  lemma ShareSafe<P, O>(s: State<P, O>, p: P, v: Option<O>)
    requires Safe(s) && p !in s.holds
    requires v.Some? ==> Held(s, v.value)
    ensures Safe(s.(holds := s.holds[p := v]))
  {
    var s' := s.(holds := s.holds[p := v]);
    forall x | x in s'.captured
      ensures x in s'.deleted <==> !Held(s', x)
    {
      if Held(s, x) {
        var q :| q in s.holds && s.holds[q] == Some(x);
        assert s'.holds[q] == Some(x);
      }
    }
  }

  lemma StepSafe<P, O>(s: State<P, O>, op: Op<P, O>)
    requires Safe(s) && Enabled(s, op)
    ensures Safe(Step(s, op))
  {
    match op
    case Construct(p, o) => CaptureSafe(s, p, o);
    case CopyConstruct(p, q) => ShareSafe(s, p, s.holds[q]);
    case Assign(p, q) =>
      if p != q {
        ReleaseSafe(s, p);
        var s' := Release(s, p);
        assert s'.holds[q] == s.holds[q];
        ShareSafe(s', p, s.holds[q]);
      }
    case Reset(p, o) =>
      ReleaseSafe(s, p);
      var s' := Release(s, p);
      assert s'.captured == s.captured;
      CaptureSafe(s', p, o);
    case Destroy(p) => ReleaseSafe(s, p);
  }

  /** Safety over whole runs: every run keeps every object either held or
      deleted exactly once. */
  lemma {:induction false} RunSafe<P, O>(s: State<P, O>, ops: seq<Op<P, O>>)
    requires Safe(s) && EnabledRun(s, ops)
    ensures Safe(Run(s, ops))
    decreases |ops|
  {
    if ops != [] {
      StepSafe(s, ops[0]);
      RunSafe(Step(s, ops[0]), ops[1..]);
    }
  }

  /** Starting with no pointers: nothing live is dangling, no object is deleted
      twice, and when every pointer is gone, every object is. */
  lemma EveryRunDeletesExactlyOnce<P, O>(ops: seq<Op<P, O>>)
    requires EnabledRun(Init(), ops)
    ensures var s := Run(Init(), ops);
            && NoDuplicates(s.deleted)
            && (forall p :: p in s.holds && s.holds[p].Some? ==> s.holds[p].value !in s.deleted)
            && (s.holds == map[] ==> (set o | o in s.deleted) == s.captured)
  {
    RunSafe<P, O>(Init(), ops);
    var s: State<P, O> := Run(Init(), ops);
    forall p | p in s.holds && s.holds[p].Some?
      ensures s.holds[p].value !in s.deleted
    {
      assert Held(s, s.holds[p].value);
    }
  }

  /** The moment of deletion: a step deletes nothing that stays held, and
      deletes exactly the object whose last pointer left in that step. */
  lemma DeletedExactlyWhenLastLeaves<P, O>(s: State<P, O>, op: Op<P, O>, o: O)
    requires Safe(s) && Enabled(s, op)
    ensures var s' := Step(s, op);
            && |s.deleted| <= |s'.deleted| <= |s.deleted| + 1
            && s'.deleted[..|s.deleted|] == s.deleted
            && (s'.deleted == s.deleted + [o] <==> Held(s, o) && !Held(s', o))
  {
    StepSafe(s, op);
    var s' := Step(s, op);
    if s'.deleted == s.deleted + [o] {
      assert o in s'.deleted && o !in s.deleted by {
        assert s'.deleted[|s.deleted|] == o;
      }
      assert o in s.captured;
    }
    if Held(s, o) && !Held(s', o) {
      assert o in s.captured && o !in s.deleted;
      assert o in s'.captured && o in s'.deleted;
    }
  }

  /** What every pointer holds after a step, and which objects have been taken
      over: only the pointer that is worked on changes. */
  lemma StepHolds<P, O>(s: State<P, O>, op: Op<P, O>)
    requires Enabled(s, op)
    ensures var s' := Step(s, op);
      match op
      case Construct(p, o) => s'.holds == s.holds[p := o] && s'.captured == s.captured + Objects(o)
      case Reset(p, o) => s'.holds == s.holds[p := o] && s'.captured == s.captured + Objects(o)
      case CopyConstruct(p, q) => s'.holds == s.holds[p := s.holds[q]] && s'.captured == s.captured
      case Assign(p, q) => s'.holds == s.holds[p := s.holds[q]] && s'.captured == s.captured
      case Destroy(p) => s'.holds == s.holds - {p} && s'.captured == s.captured
  {
  }

  /** A step deletes what was held before it and is held no more. */
  lemma StepDeletes<P, O>(s: State<P, O>, op: Op<P, O>, o: O)
    requires Safe(s) && Enabled(s, op)
    ensures var s' := Step(s, op);
      o in s'.deleted <==> o in s.deleted || (Some(o) in s.holds.Values && Some(o) !in s'.holds.Values)
  {
    var s' := Step(s, op);
    StepSafe(s, op);
    DeletedExactlyWhenLastLeaves(s, op, o);
    HeldIsValue(s, o);
    HeldIsValue(s', o);
    if s'.deleted == s.deleted + [o] { assert s'.deleted[|s.deleted|] == o; }
  }

  lemma HeldIsValue<P, O>(s: State<P, O>, o: O)
    ensures Held(s, o) <==> Some(o) in s.holds.Values
  {
  }

  ghost function Objects<O>(o: Option<O>): set<O> {
    if o.Some? then {o.value} else {}
  }

  /** Assigning one holder of an object to another holder deletes nothing and
      changes nothing. */
  lemma AssignWithinRingIsIdentity<P, O>(s: State<P, O>, p: P, q: P)
    requires p in s.holds && q in s.holds && s.holds[p] == s.holds[q]
    ensures Step(s, Assign(p, q)) == s
  {
    if p != q && s.holds[p].Some? {
      var s' := s.(holds := s.holds - {p});
      assert s'.holds[q] == s.holds[p];
      assert s'.holds[p := s.holds[q]] == s.holds;
    } else {
      assert (s.holds - {p})[p := s.holds[q]] == s.holds;
    }
  }
}
