/**
  The heap structure: each node owns the map from high address to child node, kept in key order
  as `std::map` keeps it, and `StoreRange` moves child pointers between nodes in place.
 */
module ContainedRangeMaps {
  import opened Addresses
  import opened Wrappers
  import opened ContainedRanges

  /** A (key, value) pair of a node's map, with what the child represents and the nodes it owns. */
  datatype Link<E> = Link(high: Address, node: ContainedRangeMap<E>,
                          ghost shape: Tree<E>, ghost footprint: set<ContainedRangeMap<E>>)

  ghost function Shapes<E>(links: seq<Link<E>>): (s: seq<Tree<E>>)
    ensures |s| == |links|
  {
    seq(|links|, i requires 0 <= i < |links| => links[i].shape)
  }

  /** No two children share a node. */
  ghost predicate Apart<E>(links: seq<Link<E>>) {
    forall i, j | 0 <= i < j < |links| :: links[i].footprint !! links[j].footprint
  }

  lemma ApartSlice<E>(links: seq<Link<E>>, i: nat, j: nat)
    requires Apart(links) && i <= j <= |links|
    ensures Apart(links[i..j])
  {
  }

  lemma ApartGlue<E>(links: seq<Link<E>>, i: nat, j: nat, l: Link<E>)
    requires Apart(links) && i <= j <= |links|
    requires forall k | 0 <= k < |links| && !(i <= k < j) :: links[k].footprint !! l.footprint
    ensures Apart(links[..i] + [l] + links[j..])
  {
    var s := links[..i] + [l] + links[j..];
    forall m, n | 0 <= m < n < |s| ensures s[m].footprint !! s[n].footprint {
      var m' := if m < i then m else m - i - 1 + j;
      var n' := if n < i then n else n - i - 1 + j;
      assert m != i ==> s[m] == links[m'];
      assert n != i ==> s[n] == links[n'];
    }
  }

  lemma ShapesGlue<E>(links: seq<Link<E>>, i: nat, j: nat, l: Link<E>)
    requires i <= j <= |links|
    ensures Shapes(links[..i] + [l] + links[j..]) == Shapes(links)[..i] + [l.shape] + Shapes(links)[j..]
    ensures Shapes(links[i..j]) == Shapes(links)[i..j]
  {
    var s := links[..i] + [l] + links[j..];
    assert forall k | i < k < |s| :: s[k] == links[k - i - 1 + j];
  }

  class ContainedRangeMap<E> {
    const base_: Address
    const entry_: E
    // In key order. A node without a map and a node with an empty map behave alike.
    var links: seq<Link<E>>
    ghost var Repr: set<ContainedRangeMap<E>>

    ghost predicate Valid()
      reads this, Repr
      decreases Repr
      ensures Valid() ==> this in Repr
    {
      && this in Repr
      && (forall l | l in links :: l.footprint <= Repr && this !in l.footprint && l.node in l.footprint)
      && (forall l | l in links :: Mirrors(l))
      && Apart(links)
    }

    /** What a link says about its child is what the child is. */
    ghost predicate Mirrors(l: Link<E>)
      requires this in Repr && l.footprint <= Repr && this !in l.footprint && l.node in l.footprint
      reads Repr
      decreases Repr, 0
    {
      && l.footprint == l.node.Repr && l.node.Valid()
      && l.shape == Node(l.node.base_, l.high, l.node.entry_, l.node.Shape())
    }

    ghost function Shape(): (s: seq<Tree<E>>)
      reads this
      ensures |s| == |links|
    {
      Shapes(links)
    }

    /** A root: its geometry and entry are never looked at. */
    constructor Root(base: Address, entry: E)
      ensures Valid() && fresh(Repr) && Shape() == []
    {
      base_, entry_ := base, entry;
      links := [];
      Repr := {this};
    }

    /** A new child that takes over existing nodes. */
    constructor Child(base: Address, entry: E, ls: seq<Link<E>>, ghost footprint: set<ContainedRangeMap<E>>)
      ensures base_ == base && entry_ == entry && links == ls && Repr == {this} + footprint
    {
      base_, entry_ := base, entry;
      links := ls;
      Repr := {this} + footprint;
    }

    /** `map_->lower_bound`, as a scan over the keys. */
    method FirstAtLeast(a: Address) returns (i: nat)
      requires Valid()
      ensures i == LowerBound(Shape(), a)
    {
      i := 0;
      while i < |links| && links[i].high < a
        invariant i <= |links|
        invariant forall k | 0 <= k < i :: Shape()[k].high < a
      {
        assert Mirrors(links[i]);
        i := i + 1;
      }
      assert i < |links| ==> Mirrors(links[i]);
      LowerBoundIs(Shape(), a, i);
    }

    method StoreRange(base: Address, size: Address, entry: E) returns (ok: bool)
      requires Valid()
      modifies Repr
      decreases Repr
      ensures Valid() && fresh(Repr - old(Repr)) && old(Repr) <= Repr
      ensures (ok, Shape()) == StoreSized(old(Shape()), base, size, entry)
    {
      var high := Wrap(base + size - 1);
      if size <= 0 || high < base {
        return false;
      }
      OverflowTest(base, size);
      var ib := FirstAtLeast(base);
      var ih := FirstAtLeast(high);
      assert ib < |links| ==> Mirrors(links[ib]);
      if ib == ih && ib < |links| && base >= links[ib].node.base_ {
        assert WithinKid(Shape(), base, high);
        ok := StoreWithin(ib, base, size, entry);
      } else {
        ok := StoreHere(ib, ih, base, high, entry);
      }
    }

    /** The new range is within the child at `ib`: refuse the child's own geometry, else pass it on. */
    method StoreWithin(ib: nat, base: Address, size: Address, entry: E) returns (ok: bool)
      requires Valid() && Fits(base, size)
      requires WithinKid(Shape(), base, base + size - 1) && ib == LowerBound(Shape(), base)
      modifies Repr
      decreases Repr, 1
      ensures Valid() && fresh(Repr - old(Repr)) && old(Repr) <= Repr
      ensures (ok, Shape()) == StoreSized(old(Shape()), base, size, entry)
    {
      assert Mirrors(links[ib]);
      if links[ib].node.base_ == base && links[ib].high == base + size - 1 {
        OverflowTest(base, size);
        return false;
      }
      StoreGoesDown(Shape(), base, size, entry);
      ok := StoreBelow(ib, base, size, entry);
    }

    /** Pass the new range on to the child at `i`. */
    method StoreBelow(i: nat, base: Address, size: Address, entry: E) returns (ok: bool)
      requires Valid() && i < |links|
      modifies Repr
      decreases Repr, 0
      ensures Valid() && fresh(Repr - old(Repr)) && old(Repr) <= Repr
      ensures var r := StoreSized(old(Shape())[i].kids, base, size, entry);
              ok == r.0 && Shape() == old(Shape())[i := old(Shape())[i].(kids := r.1)]
    {
      var l := links[i];
      assert Mirrors(l);
      ok := l.node.StoreRange(base, size, entry);
      var l' := Link(l.high, l.node, l.shape.(kids := l.node.Shape()), l.node.Repr);
      ghost var was := links;
      links := links[i := l'];
      Repr := Repr + l.node.Repr;
      assert Mirrors(l');
      forall k | k in links && k != l' ensures Mirrors(k) {
        var n :| 0 <= n < |was| && was[n] == k && n != i;
        assert old(Mirrors(was[n]));
      }
    }

    /** The new range is not within a child: refuse it or make it a child of this node. */
    method StoreHere(ib: nat, ih: nat, base: Address, high: Address, entry: E) returns (ok: bool)
      requires Valid() && base <= high && !WithinKid(Shape(), base, high)
      requires ib == LowerBound(Shape(), base) && ih == LowerBound(Shape(), high)
      modifies this
      ensures Valid() && fresh(Repr - old(Repr)) && old(Repr) <= Repr
      ensures (ok, Shape()) == Store(old(Shape()), base, high, entry)
    {
      assert ib < |links| ==> Mirrors(links[ib]);
      assert ih < |links| ==> Mirrors(links[ih]);
      var containsHigh := ih < |links| && high >= links[ih].node.base_;
      if (ib < |links| && base > links[ib].node.base_) || (containsHigh && high < links[ih].high) {
        return false;
      }
      LowerBoundMonotone(Shape(), base, high);
      var end := if containsHigh then ih + 1 else ih;
      assert end == BlockEnd(Shape(), high) && !PartialOverlap(Shape(), base, high);
      InsertAround(ib, end, base, high, entry);
      return true;
    }

    /** Move the children from `ib` up to `end` under a new node and put that node in their place. */
    method InsertAround(ib: nat, end: nat, base: Address, high: Address, entry: E)
      requires Valid() && ib <= end <= |links|
      modifies this
      ensures Valid() && fresh(Repr - old(Repr)) && old(Repr) <= Repr
      ensures Shape() == old(Shape())[..ib] + [Node(base, high, entry, old(Shape())[ib..end])] + old(Shape())[end..]
    {
      ghost var block := set o | o in Repr && exists l :: l in links[ib..end] && o in l.footprint;
      var child := new ContainedRangeMap.Child(base, entry, links[ib..end], block);
      ApartSlice(links, ib, end);
      forall k | k in child.links ensures k in links && child.Mirrors(k) {
        assert k in links && Mirrors(k);
      }
      var l := Link(high, child, Node(base, high, entry, child.Shape()), child.Repr);
      ApartGlue(links, ib, end, l);
      ShapesGlue(links, ib, end, l);
      links := links[..ib] + [l] + links[end..];
      Repr := Repr + {child};
      assert Mirrors(l);
      forall k | k in links && k != l ensures Mirrors(k) {
        assert k in old(links) && old(Mirrors(k));
      }
    }

    /** Read-only search for the most specific descendant. */
    method RetrieveRange(address: Address) returns (r: Option<E>)
      requires Valid()
      ensures r == Retrieve(Shape(), address)
      decreases Repr
    {
      var i := FirstAtLeast(address);
      assert i < |links| ==> Mirrors(links[i]);
      if i == |links| || address < links[i].node.base_ {
        return None;
      }
      r := links[i].node.RetrieveRange(address);
      if r.None? {
        r := Some(links[i].node.entry_);
      }
    }

    /** The nodes that deleting the children deletes, each after those below it. */
    method Descendants() returns (freed: seq<ContainedRangeMap<E>>)
      requires Valid()
      ensures Carry(freed, PostOrder(Shape()))
      ensures Distinct(freed) && this !in freed && forall n | n in freed :: n in Repr
      decreases Repr
    {
      hide PostOrder;
      PostOrderNone(Shape()[..0]);
      freed := [];
      for i := 0 to |links|
        invariant Carry(freed, PostOrder(Shape()[..i]))
        invariant Distinct(freed) && forall n | n in freed :: exists k | 0 <= k < i :: n in links[k].footprint
      {
        assert links[i] in links && Mirrors(links[i]);
        var child := links[i].node;
        var below := child.Descendants();
        PostOrderMore(Shape(), i);
        DistinctJoin(freed, below + [child], links, i);
        freed := freed + (below + [child]);
      }
      assert Shape()[..|links|] == Shape();
    }

    /** Every node below is deleted, once, those of inner ranges first, and the map is empty. */
    method Clear() returns (freed: seq<ContainedRangeMap<E>>)
      requires Valid()
      modifies this
      ensures Valid() && Repr == old(Repr) && Shape() == []
      ensures Distinct(freed) && this !in freed && Carry(freed, PostOrder(old(Shape())))
      ensures Ok(old(Shape())) ==> Frees(freed, All(old(Shape())))
    {
      ghost var shape := Shape();
      freed := Descendants();
      if Ok(shape) {
        FreesAll(freed, shape);
      }
      links := [];
    }
  }

  /** The ranges of a tree, each after those below it. */
  ghost function PostOrder<E>(kids: seq<Tree<E>>): (rs: seq<Range<E>>)
  {
    if kids == [] then []
    else
      var last := kids[|kids| - 1];
      PostOrder(kids[..|kids| - 1]) + (PostOrder(last.kids) + [last.Own()])
  }

  /** The nodes carry the bases and entries of the ranges, in order. */
  ghost predicate Carry<E>(nodes: seq<ContainedRangeMap<E>>, rs: seq<Range<E>>) {
    |nodes| == |rs| && forall i | 0 <= i < |nodes| :: (nodes[i].base_, nodes[i].entry_) == (rs[i].base, rs[i].entry)
  }

  lemma PostOrderNone<E>(kids: seq<Tree<E>>)
    requires kids == []
    ensures PostOrder(kids) == []
  {
  }

  lemma PostOrderMore<E>(kids: seq<Tree<E>>, i: nat)
    requires i < |kids|
    ensures PostOrder(kids[..i + 1]) == PostOrder(kids[..i]) + (PostOrder(kids[i].kids) + [kids[i].Own()])
  {
    assert kids[..i + 1][..i] == kids[..i];
  }

  /** No range of the list lies inside one before it, and none is there twice. */
  ghost predicate InnerFirst<E>(rs: seq<Range<E>>) {
    Distinct(rs) && forall i, j | 0 <= i < j < |rs| :: !rs[j].ProperlyInside(rs[i].base, rs[i].high)
  }

  /** The list holds exactly these ranges, each once, and the inner ones before those around them. */
  ghost predicate Lists<E>(rs: seq<Range<E>>, ranges: set<Range<E>>) {
    InnerFirst(rs) && (forall r | r in rs :: r in ranges) && forall r | r in ranges :: r in rs
  }

  lemma {:induction false} PostOrderIs<E>(kids: seq<Tree<E>>)
    requires Ok(kids)
    ensures Lists(PostOrder(kids), All(kids))
    decreases kids
  {
    hide Ok, Lists;
    if kids == [] {
      ListsNone(kids);
    } else {
      var n := |kids| - 1;
      OkParts(kids);
      PostOrderIs(kids[..n]);
      PostOrderIs(kids[n].kids);
      AllSnoc(kids);
      RangesApart(kids);
      ListsJoin(PostOrder(kids[..n]), PostOrder(kids[n].kids), kids[n].Own(), All(kids[..n]), All(kids[n].kids));
    }
  }

  lemma ListsNone<E>(kids: seq<Tree<E>>)
    requires kids == []
    ensures Lists(PostOrder(kids), All(kids))
  {
  }

  lemma ListsJoin<E>(a: seq<Range<E>>, b: seq<Range<E>>, last: Range<E>, x: set<Range<E>>, y: set<Range<E>>)
    requires Lists(a, x) && Lists(b, y) && last.base <= last.high
    requires forall r | r in x :: r.base <= r.high < last.base
    requires forall r | r in y :: r.base <= r.high && r.ProperlyInside(last.base, last.high)
    ensures Lists(a + (b + [last]), x + ({last} + y))
  {
    hide InnerFirst;
    InnerFirstJoin(a, b, last);
  }

  lemma OkParts<E>(kids: seq<Tree<E>>)
    requires Ok(kids) && kids != []
    ensures Ok(kids[..|kids| - 1]) && Ok(kids[|kids| - 1].kids)
    ensures kids[|kids| - 1].base <= kids[|kids| - 1].high
  {
    OkSlice(kids, 0, |kids| - 1);
  }

  lemma AllSnoc<E>(kids: seq<Tree<E>>)
    requires kids != []
    ensures var n := |kids| - 1; All(kids) == All(kids[..n]) + ({kids[n].Own()} + All(kids[n].kids))
  {
    var n := |kids| - 1;
    assert kids == kids[..n] + [kids[n]] && [kids[n]][1..] == [];
    AllConcat(kids[..n], [kids[n]]);
  }

  /** What is stored at the last child or below lies above everything else, and below it inside it. */
  lemma RangesApart<E>(kids: seq<Tree<E>>)
    requires Ok(kids) && kids != []
    ensures var last := kids[|kids| - 1];
      && (forall r | r in All(kids[..|kids| - 1]) :: r.base <= r.high < last.base)
      && (forall r | r in All(last.kids) :: r.base <= r.high && r.ProperlyInside(last.base, last.high))
  {
    var n := |kids| - 1;
    OkSlice(kids, 0, n);
    forall r | r in All(kids[..n]) ensures r.base <= r.high < kids[n].base {
      var i := AllIsSome(kids[..n], r);
      if r != kids[i].Own() {
        BelowIsInside(kids, i, r);
      }
    }
    forall r | r in All(kids[n].kids) ensures r.base <= r.high && r.ProperlyInside(kids[n].base, kids[n].high) {
      BelowIsInside(kids, n, r);
    }
  }

  lemma InnerFirstJoin<E>(a: seq<Range<E>>, b: seq<Range<E>>, last: Range<E>)
    requires InnerFirst(a) && InnerFirst(b) && last.base <= last.high
    requires forall r | r in a :: r.base <= r.high < last.base
    requires forall r | r in b :: r.base <= r.high && r.ProperlyInside(last.base, last.high)
    ensures InnerFirst(a + (b + [last]))
  {
    var c := a + (b + [last]);
    forall i, j | 0 <= i < j < |c| ensures c[i] != c[j] && !c[j].ProperlyInside(c[i].base, c[i].high) {
      assert i < |a| ==> c[i] in a;
      assert |a| <= i < |a| + |b| ==> c[i] == b[i - |a|] && c[i] in b;
      assert |a| <= j < |a| + |b| ==> c[j] == b[j - |a|] && c[j] in b;
    }
  }

  lemma {:induction false} DistinctCount<T>(s: seq<T>, elements: set<T>)
    requires Distinct(s) && (forall x | x in s :: x in elements) && forall x | x in elements :: x in s
    ensures |s| == |elements|
  {
    if s == [] {
      assert elements == {};
    } else {
      var x := s[0];
      assert s == [x] + s[1..];
      DistinctCount(s[1..], elements - {x});
    }
  }

  /** There are as many nodes as ranges, and one for each range. */
  ghost predicate Frees<E>(nodes: seq<ContainedRangeMap<E>>, ranges: set<Range<E>>) {
    |nodes| == |ranges| && forall r | r in ranges :: exists n | n in nodes :: n.base_ == r.base && n.entry_ == r.entry
  }

  lemma FreesAll<E>(nodes: seq<ContainedRangeMap<E>>, kids: seq<Tree<E>>)
    requires Ok(kids) && Carry(nodes, PostOrder(kids))
    ensures Frees(nodes, All(kids))
  {
    hide PostOrder, Ok, All;
    PostOrderIs(kids);
    var rs := PostOrder(kids);
    DistinctCount(rs, All(kids));
    forall r | r in All(kids) ensures exists n | n in nodes :: n.base_ == r.base && n.entry_ == r.entry {
      var i :| 0 <= i < |rs| && rs[i] == r;
      assert nodes[i] in nodes;
    }
  }

  /** Nodes of different children are different. */
  lemma DistinctJoin<E>(a: seq<ContainedRangeMap<E>>, b: seq<ContainedRangeMap<E>>, links: seq<Link<E>>, i: nat)
    requires i < |links| && Apart(links) && Distinct(a) && Distinct(b)
    requires forall n | n in a :: exists k | 0 <= k < i :: n in links[k].footprint
    requires forall n | n in b :: n in links[i].footprint
    ensures Distinct(a + b)
    ensures forall n | n in a + b :: exists k | 0 <= k < i + 1 :: n in links[k].footprint
  {
    var c := a + b;
    forall m, n | 0 <= m < n < |c| ensures c[m] != c[n] {
      if m < |a| && n >= |a| {
        assert c[m] in a && c[n] in b;
      }
    }
  }

  lemma {:induction false} StoreGoesDown<E>(kids: seq<Tree<E>>, base: Address, size: Address, entry: E)
    requires Fits(base, size)
    requires WithinKid(kids, base, base + size - 1)
    requires var i := LowerBound(kids, base); (kids[i].base, kids[i].high) != (base, base + size - 1)
    ensures var i := LowerBound(kids, base);
            var r := StoreSized(kids[i].kids, base, size, entry);
            StoreSized(kids, base, size, entry) == (r.0, kids[i := kids[i].(kids := r.1)])
  {
    OverflowTest(base, size);
  }

  lemma LowerBoundIs<E>(kids: seq<Tree<E>>, a: Address, i: nat)
    requires i <= |kids| && (forall k | 0 <= k < i :: kids[k].high < a)
    requires i < |kids| ==> a <= kids[i].high
    ensures i == LowerBound(kids, a)
  {
  }
}
