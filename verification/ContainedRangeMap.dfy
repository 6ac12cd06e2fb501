/**
  The tree of nested address ranges as a value: what one node's `StoreRange` and `RetrieveRange` compute on
  the shape of the tree, and the containment guarantees. `ContainedRangeMaps` has the nodes on the heap.
 */
module ContainedRanges {
  import opened Addresses
  import opened Wrappers

  datatype Tree<+E> = Node(base: Address, high: Address, entry: E, kids: seq<Tree<E>>)
  {
    function Own(): Range<E> {
      Range(base, high, entry)
    }
  }

  // ----- What a node's children hold -----

  /** Every range stored below a node, at any depth. */
  ghost function All<E>(kids: seq<Tree<E>>): set<Range<E>> {
    if kids == [] then {} else {kids[0].Own()} + All(kids[0].kids) + All(kids[1..])
  }

  /** The hierarchy guarantees: siblings disjoint and ordered, children properly inside. */
  ghost predicate Ok<E>(kids: seq<Tree<E>>) {
    && (forall i | 0 <= i < |kids| :: kids[i].base <= kids[i].high && Ok(kids[i].kids))
    && (forall i, k | 0 <= i < |kids| && k in kids[i].kids :: k.Own().ProperlyInside(kids[i].base, kids[i].high))
    && (forall i, j | 0 <= i < j < |kids| :: kids[i].high < kids[j].base)
  }

  lemma {:induction false} AllConcat<E>(a: seq<Tree<E>>, b: seq<Tree<E>>)
    ensures All(a + b) == All(a) + All(b)
  {
    if a == [] {
      assert a + b == b;
    } else {
      assert (a + b)[1..] == a[1..] + b;
      AllConcat(a[1..], b);
    }
  }

  /** A stored range is a child's own or stored below a child. */
  lemma {:induction false} AllIsSome<E>(kids: seq<Tree<E>>, r: Range<E>) returns (i: nat)
    requires r in All(kids)
    ensures i < |kids| && (r == kids[i].Own() || r in All(kids[i].kids))
  {
    if r == kids[0].Own() || r in All(kids[0].kids) {
      i := 0;
    } else {
      i := AllIsSome(kids[1..], r);
      i := i + 1;
    }
  }

  lemma {:induction false} AllHasKid<E>(kids: seq<Tree<E>>, i: nat)
    requires i < |kids|
    ensures kids[i].Own() in All(kids)
    ensures All(kids[i].kids) <= All(kids)
  {
    if i > 0 {
      AllHasKid(kids[1..], i - 1);
    }
  }

  /** Nesting is transitive: everything below a child is properly inside the child. */
  lemma {:induction false} BelowIsInside<E>(kids: seq<Tree<E>>, i: nat, r: Range<E>)
    requires Ok(kids) && i < |kids| && r in All(kids[i].kids)
    ensures r.base <= r.high && r.ProperlyInside(kids[i].base, kids[i].high)
    decreases kids
  {
    var t := kids[i];
    var j := AllIsSome(t.kids, r);
    assert t.kids[j] in t.kids;
    if r in All(t.kids[j].kids) {
      BelowIsInside(t.kids, j, r);
    }
  }

  lemma {:induction false} OkSlice<E>(kids: seq<Tree<E>>, i: nat, j: nat)
    requires Ok(kids) && i <= j <= |kids|
    ensures Ok(kids[i..j])
  {
    var s := kids[i..j];
    assert forall k | 0 <= k < |s| :: s[k] == kids[i + k];
  }

  // ----- lower_bound -----

  /** Position of the first child whose key is not below `a`; the number of children if none. */
  function LowerBound<E>(kids: seq<Tree<E>>, a: Address): (i: nat)
    ensures i <= |kids|
    ensures i < |kids| ==> a <= kids[i].high
    ensures forall k | 0 <= k < i :: kids[k].high < a
  {
    if kids == [] || a <= kids[0].high then 0 else 1 + LowerBound(kids[1..], a)
  }

  // ----- StoreRange on shapes -----

  /** The new range is entirely within one existing child. */
  predicate WithinKid<E>(kids: seq<Tree<E>>, base: Address, high: Address) {
    var ib := LowerBound(kids, base);
    ib == LowerBound(kids, high) && ib < |kids| && base >= kids[ib].base
  }

  /** The child found for `high` starts at or below `high`, so it is at least partly inside. */
  predicate ContainsHigh<E>(kids: seq<Tree<E>>, high: Address) {
    var ih := LowerBound(kids, high);
    ih < |kids| && high >= kids[ih].base
  }

  /** The new range contains a part of some child but not all of it. */
  predicate PartialOverlap<E>(kids: seq<Tree<E>>, base: Address, high: Address) {
    var ib, ih := LowerBound(kids, base), LowerBound(kids, high);
    (ib < |kids| && base > kids[ib].base) || (ContainsHigh(kids, high) && high < kids[ih].high)
  }

  /** One past the last child to be moved under the new range. */
  function BlockEnd<E>(kids: seq<Tree<E>>, high: Address): (end: nat)
    ensures LowerBound(kids, high) <= end <= |kids|
  {
    if ContainsHigh(kids, high) then LowerBound(kids, high) + 1 else LowerBound(kids, high)
  }

  /** The outcome of storing [base, high] among `kids`: whether accepted, and the new children. */
  function Store<E>(kids: seq<Tree<E>>, base: Address, high: Address, entry: E): (r: (bool, seq<Tree<E>>))
    requires base <= high
    decreases kids
  {
    var ib := LowerBound(kids, base);
    if WithinKid(kids, base, high) then
      if kids[ib].base == base && kids[ib].high == high then
        (false, kids)
      else
        var (ok, sub) := Store(kids[ib].kids, base, high, entry);
        (ok, kids[ib := kids[ib].(kids := sub)])
    else
      if PartialOverlap(kids, base, high) then
        (false, kids)
      else
        var end := BlockEnd(kids, high);
        LowerBoundMonotone(kids, base, high);
        (true, kids[..ib] + [Node(base, high, entry, kids[ib..end])] + kids[end..])
  }

  /** `StoreRange` as called: the size is turned into a high address, with wrap-around, and tested. */
  function StoreSized<E>(kids: seq<Tree<E>>, base: Address, size: Address, entry: E): (r: (bool, seq<Tree<E>>)) {
    var high := Wrap(base + size - 1);
    if size <= 0 || high < base then (false, kids) else Store(kids, base, high, entry)
  }

  ghost predicate AllCompatible<E>(kids: seq<Tree<E>>, base: Address, high: Address) {
    forall r | r in All(kids) :: r.Compatible(base, high)
  }

  lemma LowerBoundMonotone<E>(kids: seq<Tree<E>>, a: Address, b: Address)
    requires a <= b
    ensures LowerBound(kids, a) <= LowerBound(kids, b)
  {
  }

  /** Siblings of the one child that may meet the new range are disjoint from it, at every depth. */
  lemma {:induction false} CompatibleThroughKid<E>(kids: seq<Tree<E>>, ib: nat, base: Address, high: Address)
    requires Ok(kids) && ib < |kids| && base <= high
    requires kids[ib].base <= base && high <= kids[ib].high
    requires (kids[ib].base, kids[ib].high) != (base, high)
    ensures AllCompatible(kids, base, high) <==> AllCompatible(kids[ib].kids, base, high)
  {
    AllHasKid(kids, ib);
    if AllCompatible(kids[ib].kids, base, high) {
      forall r | r in All(kids) ensures r.Compatible(base, high) {
        var i := AllIsSome(kids, r);
        if r != kids[i].Own() {
          BelowIsInside(kids, i, r);
        }
      }
    }
  }

  /** The partial-overlap test fires only when some child cuts, or is cut by, the new range. */
  lemma {:induction false} OverlapCuts<E>(kids: seq<Tree<E>>, base: Address, high: Address)
    requires Ok(kids) && base <= high && !WithinKid(kids, base, high) && PartialOverlap(kids, base, high)
    ensures !AllCompatible(kids, base, high)
  {
    var ib, ih := LowerBound(kids, base), LowerBound(kids, high);
    LowerBoundMonotone(kids, base, high);
    if ib < |kids| && base > kids[ib].base {
      AllHasKid(kids, ib);
      assert !kids[ib].Own().Compatible(base, high);
    } else {
      AllHasKid(kids, ih);
      if ib < ih {
        assert base <= kids[ib].high < kids[ih].base;
      }
      assert !kids[ih].Own().Compatible(base, high);
    }
  }

  /** With no partial overlap, the children split into those below, inside and above the new range. */
  lemma {:induction false} KidsSplit<E>(kids: seq<Tree<E>>, base: Address, high: Address, i: nat)
    requires Ok(kids) && base <= high && i < |kids|
    requires !WithinKid(kids, base, high) && !PartialOverlap(kids, base, high)
    ensures i < LowerBound(kids, base) ==> kids[i].high < base
    ensures LowerBound(kids, base) <= i < BlockEnd(kids, high) ==> kids[i].Own().ProperlyInside(base, high)
    ensures BlockEnd(kids, high) <= i ==> high < kids[i].base
  {
    var ib, ih := LowerBound(kids, base), LowerBound(kids, high);
    LowerBoundMonotone(kids, base, high);
    if ib <= i < BlockEnd(kids, high) {
      assert base <= kids[ib].base <= kids[i].base;
      if i < ih {
        assert kids[i].high < high;
      }
    }
    if ih < i {
      assert high <= kids[ih].high < kids[i].base;
    }
  }

  lemma {:induction false} NoOverlapCompatible<E>(kids: seq<Tree<E>>, base: Address, high: Address)
    requires Ok(kids) && base <= high && !WithinKid(kids, base, high) && !PartialOverlap(kids, base, high)
    ensures AllCompatible(kids, base, high)
  {
    forall r | r in All(kids) ensures r.Compatible(base, high) {
      var i := AllIsSome(kids, r);
      KidsSplit(kids, base, high, i);
      if r != kids[i].Own() {
        BelowIsInside(kids, i, r);
      }
    }
  }

  /**
    The main result about `StoreRange`: accepted exactly when the new range is disjoint from,
    properly inside or properly around every range stored anywhere in the tree; an accepted
    range is added and nothing else changes; a refused one changes nothing.
   */
  lemma {:induction false} StoreCorrect<E>(kids: seq<Tree<E>>, base: Address, high: Address, entry: E)
    requires Ok(kids) && base <= high
    ensures var (ok, kids') := Store(kids, base, high, entry);
            && (ok <==> AllCompatible(kids, base, high))
            && (ok ==> Ok(kids') && All(kids') == All(kids) + {Range(base, high, entry)})
            && (!ok ==> kids' == kids)
    decreases kids
  {
    var ib := LowerBound(kids, base);
    if WithinKid(kids, base, high) {
      if kids[ib].base == base && kids[ib].high == high {
        AllHasKid(kids, ib);
      } else {
        StoreCorrect(kids[ib].kids, base, high, entry);
        CompatibleThroughKid(kids, ib, base, high);
        var (ok, sub) := Store(kids[ib].kids, base, high, entry);
        if ok {
          KidReplaced(kids, ib, sub, Range(base, high, entry));
        } else {
          assert kids[ib].(kids := sub) == kids[ib];
        }
      }
    } else if PartialOverlap(kids, base, high) {
      OverlapCuts(kids, base, high);
    } else {
      NoOverlapCompatible(kids, base, high);
      LowerBoundMonotone(kids, base, high);
      forall i: nat | i < |kids|
        ensures i < ib ==> kids[i].high < base
        ensures ib <= i < BlockEnd(kids, high) ==> kids[i].Own().ProperlyInside(base, high)
        ensures BlockEnd(kids, high) <= i ==> high < kids[i].base
      {
        KidsSplit(kids, base, high, i);
      }
      BlockMoved(kids, base, high, entry, ib, BlockEnd(kids, high));
    }
  }

  /** Storing below one child keeps the node's guarantees. */
  lemma {:induction false} KidReplaced<E>(kids: seq<Tree<E>>, i: nat, sub: seq<Tree<E>>, r: Range<E>)
    requires Ok(kids) && i < |kids| && Ok(sub)
    requires All(sub) == All(kids[i].kids) + {r}
    requires r.ProperlyInside(kids[i].base, kids[i].high)
    ensures var kids' := kids[i := kids[i].(kids := sub)];
            Ok(kids') && All(kids') == All(kids) + {r}
  {
    var t := kids[i].(kids := sub);
    forall k | k in sub ensures k.Own().ProperlyInside(t.base, t.high) {
      var n :| 0 <= n < |sub| && sub[n] == k;
      AllHasKid(sub, n);
      if k.Own() != r {
        BelowIsInside(kids, i, k.Own());
      }
    }
    OkUpdate(kids, i, t);
    AllSplit(kids, i);
    AllSplit(kids[i := t], i);
    assert kids[i := t][..i] == kids[..i];
    assert kids[i := t][i + 1..] == kids[i + 1..];
  }

  lemma {:induction false} OkUpdate<E>(kids: seq<Tree<E>>, i: nat, t: Tree<E>)
    requires Ok(kids) && i < |kids|
    requires t.base == kids[i].base && t.high == kids[i].high && Ok(t.kids)
    requires forall k | k in t.kids :: k.Own().ProperlyInside(t.base, t.high)
    ensures Ok(kids[i := t])
  {
    var kids' := kids[i := t];
    assert forall n | 0 <= n < |kids'| && n != i :: kids'[n] == kids[n];
  }

  lemma {:induction false} AllSplit<E>(kids: seq<Tree<E>>, i: nat)
    requires i < |kids|
    ensures All(kids) == All(kids[..i]) + {kids[i].Own()} + All(kids[i].kids) + All(kids[i + 1..])
  {
    assert kids == kids[..i] + kids[i..];
    AllConcat(kids[..i], kids[i..]);
    assert kids[i..][1..] == kids[i + 1..];
  }

  /** Moving the block of contained children under the new node loses and adds nothing else. */
  lemma {:induction false} BlockMoved<E>(kids: seq<Tree<E>>, base: Address, high: Address, entry: E, ib: nat, end: nat)
    requires Ok(kids) && base <= high && ib <= end <= |kids|
    requires forall i | 0 <= i < ib :: kids[i].high < base
    requires forall i | ib <= i < end :: kids[i].Own().ProperlyInside(base, high)
    requires forall i | end <= i < |kids| :: high < kids[i].base
    ensures var kids' := kids[..ib] + [Node(base, high, entry, kids[ib..end])] + kids[end..];
            Ok(kids') && All(kids') == All(kids) + {Range(base, high, entry)}
  {
    var t := Node(base, high, entry, kids[ib..end]);
    OkSlice(kids, ib, end);
    OkSlice(kids, 0, ib);
    OkSlice(kids, end, |kids|);
    OkGlue(kids[..ib], t, kids[end..]);
    AllBlock(kids, t, ib, end);
  }

  lemma {:induction false} AllBlock<E>(kids: seq<Tree<E>>, t: Tree<E>, ib: nat, end: nat)
    requires ib <= end <= |kids| && t.kids == kids[ib..end]
    ensures All(kids[..ib] + [t] + kids[end..]) == All(kids) + {t.Own()}
  {
    hide All;
    var kids' := kids[..ib] + [t] + kids[end..];
    AllSplit(kids', ib);
    assert kids'[..ib] == kids[..ib] && kids'[ib + 1..] == kids[end..];
    assert kids == kids[..ib] + (kids[ib..end] + kids[end..]);
    AllConcat(kids[..ib], kids[ib..end] + kids[end..]);
    AllConcat(kids[ib..end], kids[end..]);
  }

  lemma {:induction false} OkGlue<E>(a: seq<Tree<E>>, t: Tree<E>, b: seq<Tree<E>>)
    requires Ok(a) && Ok(b) && t.base <= t.high && Ok(t.kids)
    requires forall k | k in t.kids :: k.Own().ProperlyInside(t.base, t.high)
    requires forall i | 0 <= i < |a| :: a[i].high < t.base
    requires forall i | 0 <= i < |b| :: t.high < b[i].base
    ensures Ok(a + [t] + b)
  {
    var s := a + [t] + b;
    forall i | 0 <= i < |s|
      ensures s[i] == (if i < |a| then a[i] else if i == |a| then t else b[i - |a| - 1])
      ensures s[i].base <= s[i].high && Ok(s[i].kids)
      ensures forall k | k in s[i].kids :: k.Own().ProperlyInside(s[i].base, s[i].high)
    {
    }
    forall i, j | 0 <= i < j < |s| ensures s[i].high < s[j].base {
      if i < |a| < j {
        assert a[i].high < t.base <= t.high < b[j - |a| - 1].base;
      }
    }
  }

  // ----- RetrieveRange on shapes -----

  function Retrieve<E>(kids: seq<Tree<E>>, address: Address): (r: Option<E>)
    decreases kids
  {
    var i := LowerBound(kids, address);
    if i == |kids| || address < kids[i].base then
      None
    else
      match Retrieve(kids[i].kids, address)
      case Some(e) => Some(e)
      case None => Some(kids[i].entry)
  }

  /** `r` is the unique smallest stored range containing the address. */
  ghost predicate Smallest<E>(stored: set<Range<E>>, address: Address, r: Range<E>) {
    && r in stored && r.Contains(address)
    && forall s | s in stored && s.Contains(address) :: s == r || r.ProperlyInside(s.base, s.high)
  }

  ghost predicate Covered<E>(stored: set<Range<E>>, address: Address) {
    exists r :: r in stored && r.Contains(address)
  }

  /** Only the child found by `lower_bound` can hold ranges containing the address. */
  lemma {:induction false} ContainingIsBelow<E>(kids: seq<Tree<E>>, address: Address, s: Range<E>)
    requires Ok(kids) && s in All(kids) && s.Contains(address)
    ensures var i := LowerBound(kids, address);
            && i < |kids| && kids[i].base <= address
            && (s == kids[i].Own() || s in All(kids[i].kids))
  {
    var j := AllIsSome(kids, s);
    if s != kids[j].Own() {
      BelowIsInside(kids, j, s);
    }
    assert address <= kids[j].high && kids[j].base <= address;
    assert LowerBound(kids, address) == j;
  }

  /** The main result about `RetrieveRange`. */
  lemma {:induction false} RetrieveCorrect<E>(kids: seq<Tree<E>>, address: Address) returns (r: Option<Range<E>>)
    requires Ok(kids)
    ensures Retrieve(kids, address).Some? <==> r.Some?
    ensures r.None? ==> !Covered(All(kids), address)
    ensures r.Some? ==> Smallest(All(kids), address, r.value) && Retrieve(kids, address) == Some(r.value.entry)
    decreases kids
  {
    var i := LowerBound(kids, address);
    if i == |kids| || address < kids[i].base {
      r := None;
      forall s | s in All(kids) ensures !s.Contains(address) {
        if s.Contains(address) {
          ContainingIsBelow(kids, address, s);
        }
      }
    } else {
      AllHasKid(kids, i);
      r := RetrieveCorrect(kids[i].kids, address);
      if r.None? {
        r := Some(kids[i].Own());
      } else {
        BelowIsInside(kids, i, r.value);
      }
      forall s | s in All(kids) && s.Contains(address)
        ensures s == r.value || r.value.ProperlyInside(s.base, s.high)
      {
        ContainingIsBelow(kids, address, s);
        assert s in All(kids[i].kids) ==> Covered(All(kids[i].kids), address);
      }
    }
  }

  lemma SmallestUnique<E>(stored: set<Range<E>>, address: Address, r: Range<E>, q: Range<E>)
    requires Smallest(stored, address, r) && Smallest(stored, address, q)
    ensures r == q
  {
    assert r == q || r.ProperlyInside(q.base, q.high);
    assert r == q || q.ProperlyInside(r.base, r.high);
  }

  /** Two trees that store the same ranges answer every address alike. */
  lemma {:induction false} SameStoredSameAnswer<E>(a: seq<Tree<E>>, b: seq<Tree<E>>, address: Address)
    requires Ok(a) && Ok(b) && All(a) == All(b)
    ensures Retrieve(a, address) == Retrieve(b, address)
  {
    var ra := RetrieveCorrect(a, address);
    var rb := RetrieveCorrect(b, address);
    if ra.Some? && rb.Some? {
      SmallestUnique(All(a), address, ra.value, rb.value);
    }
  }

  // ----- Whole runs of stores -----

  /** The arguments of one `StoreRange` call. */
  datatype Request<+E> = Request(base: Address, size: Address, entry: E)
  {
    predicate Valid() {
      Fits(base, size)
    }

    /** The range asked for; meaningful when the geometry is valid. */
    function ToRange(): (r: Range<E>)
      ensures Valid() ==> r.base == base && r.high == base + size - 1 && r.base <= r.high
    {
      Range(base, Wrap(base + size - 1), entry)
    }
  }

  /** A list of calls, one after the other: whether each is accepted, and the tree in the end. */
  function StoreAll<E>(kids: seq<Tree<E>>, rs: seq<Request<E>>): (r: (seq<bool>, seq<Tree<E>>))
    ensures |r.0| == |rs|
    decreases |rs|
  {
    if rs == [] then ([], kids)
    else
      var (ok, kids') := StoreSized(kids, rs[0].base, rs[0].size, rs[0].entry);
      var (rest, kids'') := StoreAll(kids', rs[1..]);
      ([ok] + rest, kids'')
  }

  /** The ranges of the requests that were accepted. */
  ghost function AcceptedRanges<E>(rs: seq<Request<E>>, accepted: seq<bool>): set<Range<E>>
    requires |accepted| == |rs|
  {
    set i | 0 <= i < |rs| && accepted[i] :: rs[i].ToRange()
  }

  lemma AcceptedMore<E>(rs: seq<Request<E>>, accepted: seq<bool>)
    requires |accepted| == |rs| > 0
    ensures AcceptedRanges(rs, accepted) ==
      (if accepted[0] then {rs[0].ToRange()} else {}) + AcceptedRanges(rs[1..], accepted[1..])
  {
    var a, b := AcceptedRanges(rs, accepted), AcceptedRanges(rs[1..], accepted[1..]);
    forall i | 0 < i < |rs| && accepted[i] ensures rs[i].ToRange() in b {
      assert rs[1..][i - 1] == rs[i] && accepted[1..][i - 1];
    }
    forall i | 0 <= i < |rs| - 1 && accepted[1..][i] ensures rs[1..][i].ToRange() in a {
      assert accepted[i + 1];
    }
  }

  /** One call, from any tree that meets the guarantees and with any arguments. */
  lemma {:induction false} StoreSizedCorrect<E>(kids: seq<Tree<E>>, q: Request<E>)
    requires Ok(kids)
    ensures var (ok, kids') := StoreSized(kids, q.base, q.size, q.entry);
            && (ok <==> q.Valid() && AllCompatible(kids, q.base, q.ToRange().high))
            && (ok ==> Ok(kids') && All(kids') == All(kids) + {q.ToRange()})
            && (!ok ==> kids' == kids)
  {
    hide Store, All, Ok, AllCompatible;
    OverflowTest(q.base, q.size);
    if q.Valid() {
      var high := q.ToRange().high;
      StoreCorrect(kids, q.base, high, q.entry);
      assert StoreSized(kids, q.base, q.size, q.entry) == Store(kids, q.base, high, q.entry);
      assert q.ToRange() == Range(q.base, high, q.entry);
    }
  }

  /** Every run keeps the guarantees, whichever calls it refuses, and stores exactly what it has accepted. */
  lemma {:induction false} RunKeepsOk<E>(kids: seq<Tree<E>>, rs: seq<Request<E>>)
    requires Ok(kids)
    ensures var (accepted, kids') := StoreAll(kids, rs);
      Ok(kids') && All(kids') == All(kids) + AcceptedRanges(rs, accepted)
    decreases |rs|
  {
    hide All, Ok, AcceptedRanges, StoreSized;
    if rs == [] {
      NoneAccepted(rs);
    } else {
      StoreSizedCorrect(kids, rs[0]);
      var (ok, kids') := StoreSized(kids, rs[0].base, rs[0].size, rs[0].entry);
      RunKeepsOk(kids', rs[1..]);
      var accepted := StoreAll(kids, rs).0;
      assert accepted[0] == ok && accepted[1..] == StoreAll(kids', rs[1..]).0;
      AcceptedMore(rs, accepted);
    }
  }

  lemma NoneAccepted<E>(rs: seq<Request<E>>)
    requires rs == []
    ensures AcceptedRanges(rs, []) == {}
  {
  }

  ghost predicate PairwiseCompatible<E>(rs: seq<Request<E>>) {
    && (forall q | q in rs :: q.Valid())
    && forall i, j | 0 <= i < |rs| && 0 <= j < |rs| && i != j ::
         rs[i].ToRange().Compatible(rs[j].base, rs[j].ToRange().high)
  }

  lemma {:induction false} AllAccepted<E>(kids: seq<Tree<E>>, rs: seq<Request<E>>)
    requires Ok(kids) && PairwiseCompatible(rs)
    requires forall q | q in rs :: AllCompatible(kids, q.base, q.ToRange().high)
    ensures false !in StoreAll(kids, rs).0 && Ok(StoreAll(kids, rs).1)
    ensures All(StoreAll(kids, rs).1) == All(kids) + set q | q in rs :: q.ToRange()
    decreases |rs|
  {
    if rs != [] {
      var r := rs[0];
      StoreSizedCorrect(kids, r);
      var kids' := StoreSized(kids, r.base, r.size, r.entry).1;
      forall q | q in rs[1..] ensures AllCompatible(kids', q.base, q.ToRange().high) {
        var n :| 0 <= n < |rs[1..]| && rs[1..][n] == q;
        assert q == rs[n + 1] && q in rs;
        assert rs[0].ToRange().Compatible(q.base, q.ToRange().high);
      }
      AllAccepted(kids', rs[1..]);
      assert forall q :: q in rs <==> q == r || q in rs[1..];
    }
  }

  /**
    Insertion order is irrelevant: pairwise compatible ranges are all accepted in any order, and
    every address then gets the same answer.
   */
  lemma OrderIrrelevant<E>(rs: seq<Request<E>>, qs: seq<Request<E>>, address: Address)
    requires PairwiseCompatible(rs) && multiset(rs) == multiset(qs)
    ensures false !in StoreAll([], rs).0 && false !in StoreAll([], qs).0
    ensures Retrieve(StoreAll([], rs).1, address) == Retrieve(StoreAll([], qs).1, address)
  {
    assert forall q :: q in qs <==> q in multiset(qs);
    assert forall q :: q in rs <==> q in multiset(rs);
    AllAccepted([], rs);
    PermutedCompatible(rs, qs);
    AllAccepted([], qs);
    SameStoredSameAnswer(StoreAll([], rs).1, StoreAll([], qs).1, address);
  }

  lemma PermutedCompatible<E>(rs: seq<Request<E>>, qs: seq<Request<E>>)
    requires PairwiseCompatible(rs) && multiset(rs) == multiset(qs)
    ensures PairwiseCompatible(qs)
  {
    assert forall q :: q in qs <==> q in multiset(qs);
    assert forall q :: q in rs <==> q in multiset(rs);
    forall i, j | 0 <= i < |qs| && 0 <= j < |qs| && i != j
      ensures qs[i].ToRange().Compatible(qs[j].base, qs[j].ToRange().high)
    {
      assert qs[i] in rs && qs[j] in rs;
      var m, n: nat;
      if qs[i] == qs[j] {
        Twice(qs, i, j);
        m, n := TwoPlaces(rs, qs[i]);
      } else {
        m :| 0 <= m < |rs| && rs[m] == qs[i];
        n :| 0 <= n < |rs| && rs[n] == qs[j];
      }
      assert rs[m].ToRange().Compatible(rs[n].base, rs[n].ToRange().high);
    }
  }

  lemma Twice<T>(s: seq<T>, i: nat, j: nat)
    requires i < |s| && j < |s| && i != j && s[i] == s[j]
    ensures multiset(s)[s[i]] >= 2
  {
    var a, b := if i < j then i else j, if i < j then j else i;
    assert s == s[..a] + [s[a]] + s[a + 1..b] + [s[b]] + s[b + 1..];
  }

  lemma {:induction false} TwoPlaces<T>(s: seq<T>, x: T) returns (i: nat, j: nat)
    requires multiset(s)[x] >= 2
    ensures i < j < |s| && s[i] == x && s[j] == x
  {
    assert s == [s[0]] + s[1..];
    if s[0] == x {
      assert x in multiset(s[1..]);
      j :| j < |s[1..]| && s[1..][j] == x;
      i, j := 0, j + 1;
    } else {
      i, j := TwoPlaces(s[1..], x);
      i, j := i + 1, j + 1;
    }
  }
}
