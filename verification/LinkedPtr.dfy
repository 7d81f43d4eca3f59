/**
  linked_ptr: the smart pointers to one object sit on a circular singly linked
  list that is spliced and cut in place.  The link_ of a linked_ptr is embedded
  in it, so a link is identified here with the pointer it belongs to.
 */
module LinkedPtrs {
  import opened Basics
  import opened RefCount

  /** The pointers s form one cycle of next fields, in this order. */
  ghost predicate IsCycle(s: seq<LinkedPtr>)
    reads s
  {
    && |s| > 0
    && NoDuplicates(s)
    && forall i :: 0 <= i < |s| ==> s[i].next == s[if i + 1 < |s| then i + 1 else 0]
  }

  ghost function Last(s: seq<LinkedPtr>): LinkedPtr
    requires |s| > 0
  {
    s[|s| - 1]
  }

  class Object {
  }

  class LinkedPtr {
    var value: Object?
    var next: LinkedPtr?

    constructor ()
      ensures value == null && next == null
    {
      value, next := null, null;
    }

    method JoinNew()
      modifies this`next
      ensures IsCycle([this])
    {
      next := this;
    }

    /** Walks ptr's cycle to its last link and splices this link in there.
        Only this link and that last one are written. */
    method Join(ptr: LinkedPtr, ghost ring: seq<LinkedPtr>)
      requires IsCycle(ring) && ring[0] == ptr && this !in ring
      modifies this`next, Last(ring)`next
      ensures IsCycle(ring + [this])
    {
      var p := ptr;
      ghost var i := 0;
      while p.next != ptr
        invariant 0 <= i < |ring| && p == ring[i]
        decreases |ring| - i
      {
        assert p.next == ring[if i + 1 < |ring| then i + 1 else 0];
        p := p.next;
        i := i + 1;
      }
      assert p.next == ring[if i + 1 < |ring| then i + 1 else 0];
      p.next := this;
      next := ptr;
    }

    /** Walks to the link before this one and cuts this link out.  Only that
        one is written; a link alone in its cycle is left as it is. */
    method Depart(ghost ring: seq<LinkedPtr>) returns (last: bool)
      requires IsCycle(ring) && ring[0] == this
      modifies Last(ring)`next
      ensures last <==> |ring| == 1
      ensures last ==> next == old(next)
      ensures !last ==> IsCycle(ring[1..])
    {
      assert ring[0].next == ring[if 1 < |ring| then 1 else 0];
      if next == this {
        return true;
      }
      var p := next;
      ghost var i := 1;
      while p.next != this
        invariant 1 <= i < |ring| && p == ring[i]
        decreases |ring| - i
      {
        assert p.next == ring[if i + 1 < |ring| then i + 1 else 0];
        p := p.next;
        i := i + 1;
      }
      assert p.next == ring[if i + 1 < |ring| then i + 1 else 0];
      p.next := next;
      return false;
    }
  }

  type Rings = map<LinkedPtr, seq<LinkedPtr>>

  /** Every pointer is on the ring it is mapped to, and that ring is the ring
      of all its members: the rings partition the pointers. */
  ghost predicate IsPartition(m: Rings) {
    forall p :: p in m ==> OnOwnRing(m, p)
  }

  ghost predicate OnOwnRing(m: Rings, p: LinkedPtr)
    requires p in m
  {
    p in m[p] && forall q :: q in m[p] ==> q in m && m[q] == m[p]
  }

  ghost function ToOption(o: Object?): Option<Object> {
    if o == null then None else Some(o)
  }

  ghost function IndexOf<T>(s: seq<T>, x: T): (k: nat)
    requires x in s
    ensures k < |s| && s[k] == x
  {
    var k :| 0 <= k < |s| && s[k] == x;
    k
  }

  /** The ring s as read off from p. */
  ghost function From(s: seq<LinkedPtr>, p: LinkedPtr): (r: seq<LinkedPtr>)
    requires p in s
    ensures |r| == |s| && r[0] == p
  {
    var k := IndexOf(s, p);
    seq(|s|, i requires 0 <= i < |s| => s[if i + k < |s| then i + k else i + k - |s|])
  }

  lemma FromMembers(s: seq<LinkedPtr>, p: LinkedPtr, x: LinkedPtr)
    requires p in s
    ensures x in From(s, p) <==> x in s
  {
    var k := IndexOf(s, p);
    if x in s {
      var j := IndexOf(s, x);
      assert From(s, p)[if j >= k then j - k else j - k + |s|] == x;
    }
  }

  /** A cycle may be entered anywhere. */
  lemma FromCycle(s: seq<LinkedPtr>, p: LinkedPtr)
    requires IsCycle(s) && p in s
    ensures IsCycle(From(s, p))
  {
    var k := IndexOf(s, p);
    var r := From(s, p);
    forall i | 0 <= i < |r|
      ensures r[i].next == r[if i + 1 < |r| then i + 1 else 0]
    {
      var j := if i + k < |s| then i + k else i + k - |s|;
      assert s[j].next == s[if j + 1 < |s| then j + 1 else 0];
    }
  }

  ghost function Remove(m: Rings, p: LinkedPtr): Rings
    requires p in m && p in m[p]
  {
    var r := From(m[p], p);
    map x | x in m && x != p :: if x in m[p] then r[1..] else m[x]
  }

  ghost function Add(m: Rings, p: LinkedPtr, q: LinkedPtr): Rings
    requires q in m && q in m[q]
  {
    var r := From(m[q], q) + [p];
    map x | x in m.Keys + {p} :: if x == p || x in m[q] then r else m[x]
  }

  lemma RemovePartition(m: Rings, p: LinkedPtr)
    requires IsPartition(m) && p in m && NoDuplicates(From(m[p], p))
    ensures IsPartition(Remove(m, p))
    ensures forall x :: x in m && x != p ==> (x in m[p] <==> x in From(m[p], p)[1..])
  {
    var r := From(m[p], p);
    forall x ensures x in r[1..] <==> x in m[p] && x != p {
      FromMembers(m[p], p, x);
      assert r == [p] + r[1..];
      if x in r[1..] { var j := IndexOf(r[1..], x); assert r[j + 1] == x; }
    }
    var m' := Remove(m, p);
    assert OnOwnRing(m, p);
    forall x | x in m'
      ensures OnOwnRing(m', x)
    {
      assert OnOwnRing(m, x);
      forall y | y in m'[x]
        ensures y in m' && m'[y] == m'[x]
      {
        if x !in m[p] { assert m[y] == m[x]; }
      }
    }
  }

  lemma AddMembers(s: seq<LinkedPtr>, p: LinkedPtr, q: LinkedPtr, x: LinkedPtr)
    requires q in s
    ensures x in From(s, q) + [p] <==> x == p || x in s
  {
    FromMembers(s, q, x);
  }

  lemma AddPartition(m: Rings, p: LinkedPtr, q: LinkedPtr)
    requires IsPartition(m) && q in m && p !in m && q in m[q]
    ensures IsPartition(Add(m, p, q))
  {
    var m' := Add(m, p, q);
    forall x | x in m'
      ensures OnOwnRing(m', x)
    {
      if x == p || x in m[q] {
        AddMembers(m[q], p, q, x);
        forall y | y in m'[x]
          ensures y in m' && m'[y] == m'[x]
        {
          AddMembers(m[q], p, q, y);
          assert OnOwnRing(m, q);
        }
      } else {
        assert OnOwnRing(m, x) && OnOwnRing(m, q);
        assert forall y :: y in m[x] ==> y !in m[q];
      }
    }
  }

  /** All the linked_ptrs of a program, and the deletions they have caused. */
  class Heap {
    // Every live pointer, mapped to the pointers on its ring in ring order.
    ghost var ring: Rings
    ghost var captured: set<Object>
    var deleted: seq<Object>

    ghost predicate Cyclic()
      requires IsPartition(ring)
      reads this, ring.Keys
    {
      assert forall p :: p in ring.Keys ==> OnOwnRing(ring, p);
      forall p :: p in ring.Keys ==> IsCycle(ring[p])
    }

    /** The pointers on one ring hold one object, and no two rings hold the
        same; a pointer that holds none is on a ring of its own. */
    ghost predicate Valued()
      reads this, ring.Keys
    {
      && (forall p, q :: p in ring.Keys && q in ring.Keys && q in ring[p] ==> q.value == p.value)
      && (forall p, q :: p in ring.Keys && q in ring.Keys && p.value != null && p.value == q.value ==> q in ring[p])
      && (forall p :: p in ring.Keys && p.value == null ==> |ring[p]| == 1)
      && (forall p :: p in ring.Keys && p.value != null ==> p.value in captured)
    }

    ghost predicate Valid()
      reads this, ring.Keys
    {
      IsPartition(ring) && Cyclic() && Valued()
    }

    ghost function View(): State<LinkedPtr, Object>
      reads this, ring.Keys
    {
      State(map p | p in ring.Keys :: ToOption(p.value), captured, deleted)
    }

    /** p is alone on its ring exactly if it is the last to hold its object. */
    ghost predicate AloneIsLast(p: LinkedPtr)
      requires p in ring.Keys
      reads this, ring.Keys
    {
      p.value != null ==>
        (|ring[p]| == 1 <==> !Held(View().(holds := View().holds - {p}), p.value))
    }

    lemma AloneIffNotHeld(p: LinkedPtr)
      requires Valid() && p in ring.Keys
      ensures AloneIsLast(p)
    {
      var s' := View().(holds := View().holds - {p});
      var r := From(ring[p], p);
      FromCycle(ring[p], p);
      if |r| > 1 && p.value != null {
        FromMembers(ring[p], p, r[1]);
        assert s'.holds[r[1]] == Some(p.value);
      }
      if p.value != null && Held(s', p.value) {
        var q :| q in s'.holds && s'.holds[q] == Some(p.value);
        FromMembers(ring[p], p, q);
        assert q in r && r[0] == p != q;
      }
    }

    /** Cutting p out of its ring by one write leaves every ring a cycle. */
    twostate lemma CyclicAfterRemove(p: LinkedPtr)
      requires old(IsPartition(ring) && Cyclic()) && p in old(ring) && p in old(ring)[p]
      requires NoDuplicates(From(old(ring)[p], p))
      requires ring == Remove(old(ring), p)
      requires forall x :: x in old(ring) && x != Last(From(old(ring)[p], p)) ==> x.next == old(x.next)
      requires |old(ring)[p]| > 1 ==> IsCycle(From(old(ring)[p], p)[1..])
      ensures IsPartition(ring) && Cyclic()
    {
      var r := From(old(ring)[p], p);
      RemovePartition(old(ring), p);
      assert OnOwnRing(old(ring), p);
      FromMembers(old(ring)[p], p, Last(r));
      forall x | x in ring.Keys
        ensures IsCycle(ring[x])
      {
        assert OnOwnRing(old(ring), x);
        FromMembers(old(ring)[p], p, x);
        if x !in old(ring)[p] {
          var s := ring[x];
          assert s == old(ring)[x] && old(IsCycle(s));
          assert Last(r) !in s;
        }
      }
    }

    /** The ring side of depart(): p leaves its ring, every other ring is
        untouched, and p learns whether it was alone. */
    method Unlink(p: LinkedPtr) returns (last: bool)
      requires Valid() && p in ring.Keys
      modifies this`ring, ring.Keys`next
      ensures ring == Remove(old(ring), p) && IsPartition(ring) && Cyclic()
      ensures last <==> |old(ring)[p]| == 1
    {
      assert OnOwnRing(ring, p);
      ghost var r := From(ring[p], p);
      FromCycle(ring[p], p);
      FromMembers(ring[p], p, Last(r));
      last := p.Depart(r);
      ring := Remove(ring, p);
      CyclicAfterRemove(p);
    }

    twostate lemma ValuedAfterRemove(p: LinkedPtr)
      requires old(Valid()) && p in old(ring) && NoDuplicates(From(old(ring)[p], p))
      requires ring == Remove(old(ring), p) && captured == old(captured)
      requires forall x :: x in old(ring) ==> x.value == old(x.value)
      ensures Valued()
    {
      var before := old(ring);
      RemovePartition(before, p);
      assert OnOwnRing(before, p);
      forall x | x in ring.Keys
        ensures forall y :: y in ring.Keys ==> (y in ring[x] <==> y in before[x])
        ensures x.value == null ==> |ring[x]| == 1
      {
        assert OnOwnRing(before, x);
      }
    }

    twostate lemma ViewAfterRemove(p: LinkedPtr)
      requires p in old(ring) && p in old(ring)[p]
      requires ring == Remove(old(ring), p)
      requires forall x :: x in ring.Keys ==> x.value == old(x.value)
      ensures View().holds == old(View()).holds - {p}
    {
    }

    twostate lemma ReleaseAfterRemove(p: LinkedPtr)
      requires old(Valid()) && p in old(ring) && old(AloneIsLast(p))
      requires ring == Remove(old(ring), p) && captured == old(captured)
      requires forall x :: x in old(ring) ==> x.value == old(x.value)
      requires deleted == if old(|ring[p]| == 1 && p.value != null) then old(deleted) + [p.value] else old(deleted)
      ensures View() == Release(old(View()), p)
    {
      ViewAfterRemove(p);
    }

    /** depart(): takes p off its ring and deletes the object if p was alone. */
    method Depart(p: LinkedPtr)
      requires Valid() && p in ring.Keys
      modifies this, ring.Keys`next
      ensures Valid() && ring == Remove(old(ring), p)
      ensures View() == Release(old(View()), p)
    {
      assert OnOwnRing(ring, p);
      FromCycle(ring[p], p);
      AloneIffNotHeld(p);
      var last := Unlink(p);
      if last && p.value != null {
        deleted := deleted + [p.value];
      }
      ValuedAfterRemove(p);
      ReleaseAfterRemove(p);
    }

    /** A ring that no write has touched is still a cycle. */
    twostate lemma StillCyclic(x: LinkedPtr)
      requires old(IsPartition(ring) && Cyclic()) && x in old(ring)
      requires forall y :: y in old(ring)[x] ==> y in old(ring) && y.next == old(y.next)
      ensures IsCycle(old(ring)[x])
    {
      assert OnOwnRing(old(ring), x);
      var s := old(ring)[x];
      assert old(IsCycle(s));
    }

    /** Nothing but p has changed, and p is on a ring of its own. */
    twostate predicate Alone(p: LinkedPtr)
      reads this, ring.Keys
    {
      && p !in old(ring) && ring == old(ring)[p := [p]] && IsCycle([p])
      && forall x :: x in old(ring) ==> x.value == old(x.value) && x.next == old(x.next)
    }

    twostate lemma CyclicAlone(p: LinkedPtr)
      requires old(IsPartition(ring) && Cyclic()) && Alone(p)
      ensures IsPartition(ring) && Cyclic()
    {
      forall x | x in ring
        ensures OnOwnRing(ring, x) && IsCycle(ring[x])
      {
        if x != p {
          assert OnOwnRing(old(ring), x);
          StillCyclic(x);
        }
      }
    }

    twostate lemma ValuedAlone(p: LinkedPtr)
      requires old(Valid()) && Alone(p)
      requires p.value != null ==> p.value !in old(captured)
      requires captured == old(captured) + if p.value == null then {} else {p.value}
      ensures Valued()
    {
      assert forall x :: x in old(ring) ==> OnOwnRing(old(ring), x);
    }

    twostate lemma ViewAlone(p: LinkedPtr)
      requires p !in old(ring) && ring == old(ring)[p := [p]]
      requires forall x :: x in old(ring) ==> x.value == old(x.value)
      ensures View().holds == old(View()).holds[p := ToOption(p.value)]
    {
    }

    twostate lemma ValidAfterCapture(p: LinkedPtr)
      requires old(Valid()) && Alone(p) && (p.value != null ==> p.value !in old(captured))
      requires captured == old(captured) + if p.value == null then {} else {p.value}
      requires deleted == old(deleted)
      ensures Valid()
      ensures View() == Capture(old(View()), p, ToOption(p.value))
    {
      CyclicAlone(p);
      ValuedAlone(p);
      ViewAlone(p);
    }

    /** capture(): p starts a ring of its own around a raw pointer. */
    method CaptureRaw(p: LinkedPtr, o: Object?)
      requires Valid() && p !in ring.Keys && (o != null ==> o !in captured)
      modifies this, p
      ensures Valid()
      ensures p.value == o
      ensures View() == Capture(old(View()), p, ToOption(o))
    {
      p.value := o;
      p.JoinNew();
      ring := ring[p := [p]];
      captured := captured + if o == null then {} else {o};
      ValidAfterCapture(p);
    }

    /** p is new on the ring that is now read off from ring[p][0]. */
    ghost predicate Joined(before: Rings, p: LinkedPtr)
      reads this
    {
      && p !in before && p in ring && |ring[p]| > 1
      && var q := ring[p][0];
         q in before && q in before[q] && ring == Add(before, p, q)
    }

    twostate lemma CyclicAfterAdd(p: LinkedPtr)
      requires old(IsPartition(ring) && Cyclic()) && Joined(old(ring), p)
      requires IsCycle(ring[p])
      requires var q := ring[p][0];
        forall x :: x in old(ring) && x != Last(From(old(ring)[q], q)) ==> x.next == old(x.next)
      ensures IsPartition(ring) && Cyclic()
    {
      var q := ring[p][0];
      AddPartition(old(ring), p, q);
      assert OnOwnRing(old(ring), q);
      FromMembers(old(ring)[q], q, Last(From(old(ring)[q], q)));
      forall x | x in ring.Keys
        ensures IsCycle(ring[x])
      {
        if x != p && x !in old(ring)[q] {
          assert OnOwnRing(old(ring), x);
          StillCyclic(x);
        }
      }
    }

    lemma RingsAfterAdd(before: Rings, p: LinkedPtr, x: LinkedPtr, y: LinkedPtr)
      requires IsPartition(before) && Joined(before, p) && x in ring.Keys && y in ring.Keys
      ensures var q := ring[p][0];
        y in ring[x] <==>
          (if x == p || x in before[q] then y == p || y in before[q] else y in before[x] && y != p)
    {
      var q := ring[p][0];
      AddMembers(before[q], p, q, y);
      if x != p && x !in before[q] { assert OnOwnRing(before, x); }
    }

    lemma RingKept(before: Rings, p: LinkedPtr, x: LinkedPtr)
      requires Joined(before, p) && x in before && x !in before[ring[p][0]]
      ensures ring[x] == before[x]
    {
    }

    twostate lemma NullAfterAdd(p: LinkedPtr)
      requires old(Valued()) && Joined(old(ring), p) && p.value == ring[p][0].value != null
      requires forall x :: x in old(ring) ==> x.value == old(x.value)
      ensures forall x :: x in ring.Keys && x.value == null ==> |ring[x]| == 1
    {
      var before, q := old(ring), ring[p][0];
      forall x | x in ring.Keys && x.value == null
        ensures |ring[x]| == 1
      {
        assert x in before && old(x.value) == null;
        assert x !in before[q];
        RingKept(before, p, x);
      }
    }

    twostate lemma SharedAfterAdd(p: LinkedPtr)
      requires old(IsPartition(ring) && Valued()) && Joined(old(ring), p)
      requires p.value == ring[p][0].value != null
      requires forall x :: x in old(ring) ==> x.value == old(x.value)
      ensures forall x, y :: x in ring.Keys && y in ring.Keys && y in ring[x] ==> y.value == x.value
      ensures forall x, y :: x in ring.Keys && y in ring.Keys && x.value != null && x.value == y.value ==> y in ring[x]
    {
      var before, q := old(ring), ring[p][0];
      forall x, y | x in ring.Keys && y in ring.Keys
        ensures y in ring[x] <==>
          (if x == p || x in before[q] then y == p || y in before[q] else y in before[x] && y != p)
      {
        RingsAfterAdd(before, p, x, y);
      }
    }

    twostate lemma ValuedAfterAdd(p: LinkedPtr)
      requires old(IsPartition(ring) && Valued()) && Joined(old(ring), p) && captured == old(captured)
      requires p.value == ring[p][0].value != null
      requires forall x :: x in old(ring) ==> x.value == old(x.value)
      ensures Valued()
    {
      SharedAfterAdd(p);
      NullAfterAdd(p);
    }

    twostate lemma ViewAfterAdd(p: LinkedPtr)
      requires Joined(old(ring), p) && captured == old(captured) && deleted == old(deleted)
      requires p.value == ring[p][0].value
      requires forall x :: x in old(ring) ==> x.value == old(x.value)
      ensures View() == Copied(old(View()), p, ring[p][0])
    {
      assert View().holds == old(View()).holds[p := old(View()).holds[ring[p][0]]];
    }

    /** p has joined a ring, and nothing else has happened. */
    twostate predicate OnlyJoined(p: LinkedPtr)
      reads this, ring.Keys
    {
      && Joined(old(ring), p) && captured == old(captured) && deleted == old(deleted)
      && IsPartition(ring) && Cyclic()
    }

    twostate lemma ValidAfterAdd(p: LinkedPtr)
      requires old(Valid()) && OnlyJoined(p) && p.value == ring[p][0].value != null
      requires forall x :: x in old(ring) ==> x.value == old(x.value)
      ensures Valid()
      ensures View() == Copied(old(View()), p, ring[p][0])
    {
      ValuedAfterAdd(p);
      ViewAfterAdd(p);
    }

    /** The ring side of copy(): p joins q's ring behind its last member. */
    method Link(p: LinkedPtr, q: LinkedPtr)
      requires IsPartition(ring) && Cyclic() && p !in ring.Keys && q in ring.Keys
      modifies this`ring, p`next, ring.Keys`next
      ensures OnlyJoined(p) && ring[p][0] == q
    {
      assert OnOwnRing(ring, q);
      ghost var r := From(ring[q], q);
      FromCycle(ring[q], q);
      FromMembers(ring[q], q, p);
      FromMembers(ring[q], q, Last(r));
      p.Join(q, r);
      ring := Add(ring, p, q);
      CyclicAfterAdd(p);
    }

    /** No pointer's value is touched. */
    method LinkOnly(p: LinkedPtr, q: LinkedPtr)
      requires IsPartition(ring) && Cyclic() && p !in ring.Keys && q in ring.Keys
      modifies this`ring, p`next, ring.Keys`next
      ensures OnlyJoined(p) && ring[p][0] == q
      ensures p.value == old(p.value) && forall x :: x in old(ring) ==> x.value == old(x.value)
    {
      Link(p, q);
    }

    /** copy() of a pointer that holds an object. */
    method Share(p: LinkedPtr, q: LinkedPtr)
      requires Valid() && p !in ring.Keys && q in ring.Keys
      requires p.value == q.value != null
      modifies this`ring, p`next, ring.Keys`next
      ensures Valid()
      ensures View() == Copied(old(View()), p, q)
    {
      LinkOnly(p, q);
      ValidAfterAdd(p);
    }

    /** copy() of a pointer that holds nothing. */
    method ShareNothing(p: LinkedPtr, q: LinkedPtr)
      requires Valid() && p !in ring.Keys && q in ring.Keys
      requires p.value == q.value == null
      modifies this`ring, p`next
      ensures Valid()
      ensures View() == Copied(old(View()), p, q)
    {
      p.JoinNew();
      ring := ring[p := [p]];
      ValidAfterCapture(p);
    }

    /** copy(): p joins the ring of q, or starts its own if q holds nothing. */
    method Copy(p: LinkedPtr, q: LinkedPtr)
      requires Valid() && p !in ring.Keys && q in ring.Keys
      modifies this`ring, p, ring.Keys`next
      ensures Valid()
      ensures p.value == q.value == old(q.value)
      ensures View() == Copied(old(View()), p, q)
    {
      p.value := q.value;
      if p.value != null {
        Share(p, q);
      } else {
        ShareNothing(p, q);
      }
    }

    method Construct(o: Object?) returns (p: LinkedPtr)
      requires Valid() && (o != null ==> o !in captured)
      modifies this
      ensures Valid() && fresh(p) && p.value == o
      ensures Enabled(old(View()), RefCount.Construct(p, ToOption(o)))
      ensures View() == Step(old(View()), RefCount.Construct(p, ToOption(o)))
    {
      p := new LinkedPtr();
      assert p !in ring.Keys;
      CaptureRaw(p, o);
    }

    method CopyConstruct(q: LinkedPtr) returns (p: LinkedPtr)
      requires Valid() && q in ring.Keys
      modifies this`ring, ring.Keys`next
      ensures Valid() && fresh(p) && p.value == q.value == old(q.value)
      ensures Enabled(old(View()), RefCount.CopyConstruct(p, q))
      ensures View() == Step(old(View()), RefCount.CopyConstruct(p, q))
    {
      p := new LinkedPtr();
      assert p !in ring.Keys;
      Copy(p, q);
    }

    /** Releases the object of p, and joins the ring of q. */
    method Replace(p: LinkedPtr, q: LinkedPtr)
      requires Valid() && p in ring.Keys && q in ring.Keys && p != q
      modifies this, p, ring.Keys`next
      ensures Valid()
      ensures p.value == q.value == old(q.value)
      ensures View() == Copied(Release(old(View()), p), p, q)
    {
      Depart(p);
      assert p !in ring.Keys && q in ring.Keys;
      Copy(p, q);
    }

    /** operator=: does nothing if p and q are the same pointer. */
    method Assign(p: LinkedPtr, q: LinkedPtr)
      requires Valid() && p in ring.Keys && q in ring.Keys
      modifies this, p, ring.Keys`next
      ensures Valid()
      ensures p.value == q.value == old(q.value)
      ensures View() == Step(old(View()), RefCount.Assign(p, q))
    {
      if q != p {
        Replace(p, q);
      }
    }

    method Reset(p: LinkedPtr, o: Object?)
      requires Valid() && p in ring.Keys && (o != null ==> o !in captured)
      modifies this, p, ring.Keys`next
      ensures Valid()
      ensures p.value == o
      ensures View() == Step(old(View()), RefCount.Reset(p, ToOption(o)))
    {
      Depart(p);
      CaptureRaw(p, o);
    }

    method Destroy(p: LinkedPtr)
      requires Valid() && p in ring.Keys
      modifies this, ring.Keys`next
      ensures Valid()
      ensures View() == Step(old(View()), RefCount.Destroy(p))
    {
      Depart(p);
    }

    constructor ()
      ensures Valid() && View() == Init()
    {
      ring, captured, deleted := map[], {}, [];
    }
  }
}
