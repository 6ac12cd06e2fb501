/**
  `linked_ptr`: every pointer to an object is on a circular list through the `next` links, and the
  last one to leave deletes the object. The pool records which pointers exist and what was deleted.
 */
module LinkedPointers {
  import opened Wrappers

  class Object {
    constructor () {
    }
  }

  class LinkedPtr {
    var value: Object?
    var next: LinkedPtr?

    /** Storage for a pointer that is not constructed yet. */
    constructor ()
      ensures value == null && next == null
    {
      value, next := null, null;
    }
  }

  /** The pointers of `r` are distinct and linked in a circle in this order. */
  ghost predicate IsRing(r: seq<LinkedPtr>)
    reads r
  {
    && r != [] && Distinct(r)
    && (forall i | 0 <= i < |r| - 1 :: r[i].next == r[i + 1])
    && r[|r| - 1].next == r[0]
  }

  lemma DistinctRotated<T>(r: seq<T>, i: nat)
    requires Distinct(r) && i <= |r|
    ensures Distinct(r[i..] + r[..i])
  {
    var s := r[i..] + r[..i];
    forall m, n | 0 <= m < n < |s| ensures s[m] != s[n] {
      var m' := if m < |r| - i then m + i else m - (|r| - i);
      var n' := if n < |r| - i then n + i else n - (|r| - i);
      assert s[m] == r[m'] && s[n] == r[n'] && m' != n';
    }
  }

  /** A circle can be entered anywhere. */
  lemma Rotated(r: seq<LinkedPtr>, p: LinkedPtr) returns (s: seq<LinkedPtr>)
    requires IsRing(r) && p in r
    ensures IsRing(s) && s[0] == p && |s| == |r| && forall q :: q in s <==> q in r
  {
    var i :| 0 <= i < |r| && r[i] == p;
    s := r[i..] + r[..i];
    DistinctRotated(r, i);
    assert r == r[..i] + r[i..];
    hide Distinct;
    forall k | 0 <= k < |s| - 1 ensures s[k].next == s[k + 1] {
      if k < |r| - i - 1 {
        assert s[k] == r[k + i];
      } else if k == |r| - i - 1 {
        assert s[k] == r[|r| - 1] && s[k + 1] == r[0];
      } else {
        assert s[k] == r[k - (|r| - i)] && s[k + 1] == r[k - (|r| - i) + 1];
      }
    }
    assert s[|s| - 1] == if i == 0 then r[|r| - 1] else r[i - 1];
  }

  lemma RingOfOne(p: LinkedPtr)
    requires p.next == p
    ensures IsRing([p])
  {
  }

  /** A circle is a matter of its own links only. */
  twostate lemma RingKept(r: seq<LinkedPtr>)
    requires old(IsRing(r)) && forall p | p in r :: p.next == old(p.next)
    ensures IsRing(r)
  {
    forall i | 0 <= i < |r| ensures r[i].next == old(r[i].next) {
      assert r[i] in r;
    }
  }

  class Pool {
    // every live pointer; those that hold nothing; the circle of each object held
    ghost var live: set<LinkedPtr>
    ghost var nulls: set<LinkedPtr>
    ghost var ring: map<Object, seq<LinkedPtr>>
    // every object ever captured
    ghost var captured: set<Object>
    // the objects deleted, in order
    var deleted: seq<Object>

    ghost predicate Valid()
      reads this, live
    {
      NullsAlone() && (forall o | o in ring :: Circled(o)) && Housed() && Books()
    }

    /** A pointer that holds nothing is a circle of its own. */
    ghost predicate NullsAlone()
      reads this, live
    {
      nulls <= live && forall p | p in nulls :: p.value == null && p.next == p
    }

    /** Every live pointer is in the circle of the object it holds. */
    ghost predicate Housed()
      reads this, live
    {
      forall p | p in live :: p in nulls || (p.value != null && p.value in ring && p in ring[p.value])
    }

    /** Every captured object is either held or deleted, and no object is deleted twice. */
    ghost predicate Books()
      reads this
    {
      && Distinct(deleted)
      && (forall o | o in deleted :: o !in ring)
      && captured == ring.Keys + set o | o in deleted
    }

    ghost predicate Circled(o: Object)
      requires o in ring
      reads this, live
    {
      && (forall p | p in ring[o] :: p in live && p.value == o)
      && IsRing(ring[o])
    }

    constructor ()
      ensures Valid() && live == {} && captured == {} && deleted == []
    {
      live, nulls, ring, captured, deleted := {}, {}, map[], {}, [];
    }

    /** `join`: walk to the pointer before `ptr` and link in behind it. */
    method Join(self: LinkedPtr, ptr: LinkedPtr, ghost r: seq<LinkedPtr>)
      requires IsRing(r) && r[0] == ptr && self !in r
      modifies r, self
      ensures IsRing(r + [self])
      ensures forall p | p in r :: p.value == old(p.value)
      ensures self.value == old(self.value)
    {
      var p := ptr;
      ghost var k := 0;
      while p.next != ptr
        invariant 0 <= k < |r| && p == r[k] && p.next == if k + 1 < |r| then r[k + 1] else r[0]
        decreases |r| - k
      {
        p := p.next;
        k := k + 1;
      }
      assert k == |r| - 1;
      p.next := self;
      self.next := ptr;
      ghost var s := r + [self];
      assert forall i | 0 <= i < |r| :: s[i] == r[i];
    }

    /** `depart`: unlink from the circle; true for its last member. */
    method Depart(self: LinkedPtr, ghost r: seq<LinkedPtr>) returns (last: bool)
      requires IsRing(r) && r[0] == self
      modifies r
      ensures (last <==> |r| == 1) && self !in r[1..]
      ensures !last ==> IsRing(r[1..])
      ensures forall p | p in r :: p.value == old(p.value)
    {
      assert |r| > 1 ==> self.next == r[1];
      if self.next == self {
        return true;
      }
      var p := self.next;
      ghost var k := 1;
      while p.next != self
        invariant 1 <= k < |r| && p == r[k] && p.next == if k + 1 < |r| then r[k + 1] else r[0]
        decreases |r| - k
      {
        p := p.next;
        k := k + 1;
      }
      assert k == |r| - 1;
      p.next := self.next;
      ghost var s := r[1..];
      assert forall i | 0 <= i < |s| :: s[i] == r[i + 1];
      return false;
    }

    /** `linked_ptr(T* ptr)`: a new pointer takes over an object never captured before, or nothing. */
    method Capture(self: LinkedPtr, ptr: Object?)
      requires Valid() && self !in live && ptr !in captured
      modifies this, self
      ensures Valid() && live == old(live) + {self}
      ensures self.value == ptr && deleted == old(deleted)
      ensures captured == old(captured) + if ptr == null then {} else {ptr}
      ensures ring == if ptr == null then old(ring) else old(ring)[ptr := [self]]
    {
      hide Valid;
      self.value := ptr;
      if ptr == null {
        JoinNew(self);
      } else {
        JoinFirst(self);
      }
    }

    /** `join_new` of the first pointer to an object. */
    method JoinFirst(self: LinkedPtr)
      requires Valid() && self !in live && self.value != null && self.value !in captured
      modifies this, self`next
      ensures Valid() && live == old(live) + {self} && deleted == old(deleted)
      ensures captured == old(captured) + {self.value} && ring == old(ring)[self.value := [self]]
    {
      hide IsRing, Distinct;
      ghost var v := self.value;
      self.next := self;
      RingOfOne(self);
      live := live + {self};
      ring := ring[v := [self]];
      captured := captured + {v};
    }

    /** `linked_ptr(linked_ptr const&)`: a new pointer shares what another live one holds. */
    method Copy(self: LinkedPtr, ptr: LinkedPtr)
      requires Valid() && self !in live && ptr in live
      modifies this, self, live
      ensures Valid() && live == old(live) + {self}
      ensures self.value == ptr.value && forall p | p in old(live) :: p.value == old(p.value)
      ensures deleted == old(deleted) && captured == old(captured) && ring.Keys == old(ring.Keys)
    {
      hide Valid;
      self.value := ptr.value;
      if self.value != null {
        JoinCircle(self, ptr);
      } else {
        JoinNew(self);
      }
    }

    /** `join_new` of a pointer that holds nothing. */
    method JoinNew(self: LinkedPtr)
      requires Valid() && self !in live && self.value == null
      modifies this`live, this`nulls, self`next
      ensures Valid() && live == old(live) + {self}
    {
      self.next := self;
      nulls := nulls + {self};
      live := live + {self};
    }

    method JoinCircle(self: LinkedPtr, ptr: LinkedPtr)
      requires Valid() && self !in live && ptr in live && ptr.value != null && self.value == ptr.value
      modifies this`live, this`ring, self, live
      ensures Valid() && live == old(live) + {self}
      ensures self.value == ptr.value && forall p | p in old(live) :: p.value == old(p.value)
      ensures ring.Keys == old(ring.Keys)
    {
      hide IsRing, Distinct;
      assert Circled(ptr.value);
      ghost var r := JoinLinks(self, ptr);
      Enlist(self, r);
    }

    ghost method Enlist(self: LinkedPtr, r: seq<LinkedPtr>)
      requires self !in live && self.value != null && self.value in ring
      requires NullsAlone() && Housed() && Books() && forall o | o in ring && o != self.value :: Circled(o)
      requires IsRing(r) && forall p :: p in r <==> p in ring[self.value] || p == self
      requires forall p | p in r :: p == self || (p in live && p.value == self.value)
      modifies this`live, this`ring
      ensures Valid() && live == old(live) + {self} && ring.Keys == old(ring.Keys)
    {
      hide IsRing, Distinct;
      live := live + {self};
      ring := ring[self.value := r];
    }

    /** The links alone: `self` enters the circle of `ptr`, every other circle is as before. */
    method JoinLinks(self: LinkedPtr, ptr: LinkedPtr) returns (ghost r: seq<LinkedPtr>)
      requires Valid() && self !in live && ptr in live && ptr.value != null && self.value == ptr.value
      modifies self, live
      ensures ptr.value in ring && IsRing(r) && forall p :: p in r <==> p in ring[ptr.value] || p == self
      ensures NullsAlone() && forall o | o in ring && o != ptr.value :: Circled(o)
      ensures self.value == old(self.value) && forall p | p in live :: p.value == old(p.value)
    {
      hide IsRing, Distinct;
      ghost var v := ptr.value;
      assert Circled(v);
      r := Rotated(ring[v], ptr);
      Join(self, ptr, r);
      forall o | o in ring && o != v ensures Circled(o) {
        assert old(Circled(o));
        assert forall p | p in ring[o] :: p !in r && p != self;
        RingKept(ring[o]);
      }
      r := r + [self];
    }

    /** The links alone: `self` leaves its circle, every other circle is as before. */
    method DepartLinks(self: LinkedPtr) returns (last: bool, ghost r: seq<LinkedPtr>)
      requires Valid() && self in live && self.value != null
      modifies live
      ensures last <==> r == []
      ensures r != [] ==> IsRing(r)
      ensures self.value in ring && forall p :: p in r <==> p in ring[self.value] && p != self
      ensures NullsAlone() && forall o | o in ring && o != self.value :: Circled(o)
      ensures forall p | p in live :: p.value == old(p.value)
    {
      hide IsRing, Distinct;
      ghost var v := self.value;
      assert Circled(v);
      r := Rotated(ring[v], self);
      last := Depart(self, r);
      forall o | o in ring && o != v ensures Circled(o) {
        assert old(Circled(o));
        assert forall p | p in ring[o] :: p !in r;
        RingKept(ring[o]);
      }
      assert r == [self] + r[1..];
      r := r[1..];
    }

    /** The object of `self` is held by no other live pointer. */
    ghost predicate LastHolder(self: LinkedPtr)
      reads this, live, self
    {
      self.value != null && forall p | p in live && p != self :: p.value != self.value
    }

    /** `~linked_ptr`: leave the circle; the last pointer to an object deletes it. */
    method Destroy(self: LinkedPtr)
      requires Valid() && self in live
      modifies this, live
      ensures Valid() && live == old(live) - {self} && captured == old(captured)
      ensures forall p | p in old(live) :: p.value == old(p.value)
      ensures deleted == old(deleted) + if old(LastHolder(self)) then [old(self.value)] else []
      ensures ring.Keys == old(ring.Keys) - if old(LastHolder(self)) then {old(self.value)} else {}
    {
      hide IsRing, Distinct;
      if self.value == null {
        // alone in its circle: deletes nothing
        nulls := nulls - {self};
        live := live - {self};
        return;
      }
      assert Circled(self.value);
      ghost var r;
      var last;
      last, r := DepartLinks(self);
      assert !last ==> r[0] in r && r[0] in old(live) && old(r[0].value) == old(self.value);
      assert old(LastHolder(self)) <==> last;
      if last {
        Delete(self);
      } else {
        Unlist(self, r);
      }
    }

    /** `delete value_`, after the last pointer has left. */
    method Delete(self: LinkedPtr)
      requires self in live && self.value != null && self.value in ring
      requires NullsAlone() && Housed() && Books() && forall o | o in ring && o != self.value :: Circled(o)
      requires forall p | p in ring[self.value] :: p == self
      modifies this
      ensures Valid() && live == old(live) - {self} && captured == old(captured)
      ensures deleted == old(deleted) + [self.value] && ring.Keys == old(ring.Keys) - {self.value}
    {
      hide IsRing;
      live := live - {self};
      deleted := deleted + [self.value];
      ring := ring - {self.value};
    }

    ghost method Unlist(self: LinkedPtr, r: seq<LinkedPtr>)
      requires self in live && self.value != null && self.value in ring
      requires NullsAlone() && Housed() && Books() && forall o | o in ring && o != self.value :: Circled(o)
      requires IsRing(r) && forall p :: p in r <==> p in ring[self.value] && p != self
      requires forall p | p in r :: p in live && p.value == self.value
      modifies this
      ensures Valid() && live == old(live) - {self} && captured == old(captured)
      ensures deleted == old(deleted) && ring.Keys == old(ring.Keys)
    {
      hide IsRing, Distinct;
      live := live - {self};
      ring := ring[self.value := r];
    }

    /** `operator=`: nothing for a pointer assigned to itself, else let go and share. */
    method Assign(self: LinkedPtr, ptr: LinkedPtr)
      requires Valid() && self in live && ptr in live
      modifies this, live
      ensures Valid() && live == old(live) && captured == old(captured)
      ensures self.value == old(ptr.value) && forall p | p in live && p != self :: p.value == old(p.value)
      ensures deleted == old(deleted) + if self != ptr && old(LastHolder(self)) then [old(self.value)] else []
    {
      hide Valid;
      if ptr != self {
        Destroy(self);
        Copy(self, ptr);
      }
    }

    /** `reset`: let go, and take over another object or nothing. */
    method Reset(self: LinkedPtr, ptr: Object?)
      requires Valid() && self in live && ptr !in captured
      modifies this, live
      ensures Valid() && live == old(live)
      ensures captured == old(captured) + if ptr == null then {} else {ptr}
      ensures self.value == ptr && forall p | p in live && p != self :: p.value == old(p.value)
      ensures deleted == old(deleted) + if old(LastHolder(self)) then [old(self.value)] else []
    {
      hide Valid;
      Destroy(self);
      Capture(self, ptr);
    }

    /** An object that was captured is deleted once or not at all: exactly when no live pointer holds it. */
    lemma DeletedExactlyOnce(o: Object)
      requires Valid() && o in captured
      ensures multiset(deleted)[o] == if exists p | p in live :: p.value == o then 0 else 1
    {
      CountDistinct(deleted, o);
      if o in ring {
        assert Circled(o);
        assert ring[o][0] in ring[o];
      }
    }

    /** The circle of a live pointer, from that pointer on. */
    lemma CircleOf(p: LinkedPtr) returns (r: seq<LinkedPtr>)
      requires Valid() && p in live
      ensures IsRing(r) && r[0] == p
      ensures forall q | q in live :: q in r <==> p == q || (p.value != null && p.value == q.value)
      ensures forall q | q in r :: q in live
    {
      if p in nulls {
        r := [p];
        RingOfOne(p);
      } else {
        assert Circled(p.value);
        r := Rotated(ring[p.value], p);
      }
    }

    /** The walk from one live pointer meets another exactly when both hold the same object. */
    lemma SameCircleExactly(p: LinkedPtr, q: LinkedPtr)
      requires Valid() && p in live && q in live
      ensures (exists n: nat :: After(p, n) == q) <==> p == q || (p.value != null && p.value == q.value)
    {
      hide Valid;
      var r := CircleOf(p);
      if n: nat :| After(p, n) == q {
        AfterInRing(r, n);
      }
      if q in r {
        var i :| 0 <= i < |r| && r[i] == q;
        AfterInRing(r, i);
      }
    }

    /** The walks in `join` and `depart` come back: every live pointer is on a circle through itself. */
    lemma WalkReturns(p: LinkedPtr) returns (n: nat)
      requires Valid() && p in live
      ensures n > 0 && After(p, n) == p && forall k | 0 < k < n :: After(p, k) != p
      ensures forall k: nat :: After(p, k) != null && After(p, k) in live
    {
      hide Valid;
      var r := CircleOf(p);
      n := |r|;
      forall k: nat ensures After(p, k) == r[Turn(k, n)] {
        AfterInRing(r, k);
      }
      assert Turn(n, n) == 0;
    }
  }

  lemma CountDistinct<T>(s: seq<T>, x: T)
    requires Distinct(s)
    ensures multiset(s)[x] == if x in s then 1 else 0
  {
    if s != [] {
      assert s == s[..|s| - 1] + [s[|s| - 1]];
      CountDistinct(s[..|s| - 1], x);
    }
  }

  /** The pointer `n` links further on. */
  ghost function After(p: LinkedPtr, n: nat): (q: LinkedPtr?)
    reads *
  {
    if n == 0 then p else
      var before := After(p, n - 1);
      if before == null then null else before.next
  }

  /** Where `n` steps around a circle of `m` places end. */
  ghost function Turn(n: nat, m: nat): (i: nat)
    requires m > 0
    ensures i < m && (n < m ==> i == n)
  {
    if n == 0 then 0 else if Turn(n - 1, m) == m - 1 then 0 else Turn(n - 1, m) + 1
  }

  lemma {:induction false} AfterInRing(r: seq<LinkedPtr>, n: nat)
    requires IsRing(r)
    ensures After(r[0], n) == r[Turn(n, |r|)]
  {
    if n > 0 {
      AfterInRing(r, n - 1);
    }
  }
}
