/** Disjoint ranges keyed by high address, and symbols keyed by address. */
module RangeMaps {
  import opened Addresses
  import opened Wrappers

  /** The ranges of a map in key order: each well formed, each wholly below the next. */
  ghost predicate Ordered<E>(rs: seq<Range<E>>) {
    && (forall i | 0 <= i < |rs| :: rs[i].base <= rs[i].high && rs[i].high - rs[i].base + 1 < LIMIT)
    && forall i, j | 0 <= i < j < |rs| :: rs[i].high < rs[j].base
  }

  function Size<E>(r: Range<E>): (s: Address)
    ensures r.base <= r.high && r.high - r.base + 1 < LIMIT ==> s == r.high - r.base + 1
  {
    Wrap(r.high - r.base + 1)
  }

  ghost function Elements<T>(s: seq<T>): set<T> {
    set x | x in s
  }

  /** First position whose high address is not below `a`. */
  function LowerBound<E>(rs: seq<Range<E>>, a: Address): (i: nat)
    ensures i <= |rs|
    ensures i < |rs| ==> a <= rs[i].high
    ensures forall k | 0 <= k < i :: rs[k].high < a
  {
    if rs == [] || a <= rs[0].high then 0 else 1 + LowerBound(rs[1..], a)
  }

  /** First position whose high address is above `a`. */
  function UpperBound<E>(rs: seq<Range<E>>, a: Address): (i: nat)
    ensures i <= |rs|
    ensures i < |rs| ==> a < rs[i].high
    ensures forall k | 0 <= k < i :: rs[k].high <= a
  {
    if rs == [] || a < rs[0].high then 0 else 1 + UpperBound(rs[1..], a)
  }

  lemma {:induction false} OrderedGlue<E>(rs: seq<Range<E>>, i: nat, r: Range<E>)
    requires Ordered(rs) && i <= |rs| && r.base <= r.high && r.high - r.base + 1 < LIMIT
    requires forall k | 0 <= k < i :: rs[k].high < r.base
    requires i < |rs| ==> r.high < rs[i].base
    ensures Ordered(rs[..i] + [r] + rs[i..])
  {
    var s := rs[..i] + [r] + rs[i..];
    forall m, n | 0 <= m < n < |s| ensures s[m].high < s[n].base {
      assert m > i ==> s[m] == rs[m - 1];
      assert n > i ==> s[n] == rs[n - 1];
      assert m < i ==> s[m] == rs[m];
      assert n < i ==> s[n] == rs[n];
      assert i < n ==> rs[i].base <= rs[i].high && rs[i].base <= rs[n - 1].base;
    }
  }

  lemma ElementsGlue<T>(s: seq<T>, i: nat, x: T)
    requires i <= |s|
    ensures Elements(s[..i] + [x] + s[i..]) == Elements(s) + {x}
  {
    assert s == s[..i] + s[i..];
  }

  /** `r` contains the address, seen as membership in an unordered set. */
  ghost predicate Holds<E>(rs: set<Range<E>>, address: Address, r: Range<E>) {
    r in rs && r.Contains(address)
  }

  /** `r` is the highest stored range wholly below the address. */
  ghost predicate HighestBelow<E>(rs: set<Range<E>>, address: Address, r: Range<E>) {
    r in rs && r.high < address && forall s | s in rs && s.high < address :: s.high <= r.high
  }

  ghost predicate Uncovered<E>(rs: set<Range<E>>, address: Address) {
    forall s | s in rs :: !s.Contains(address)
  }

  /** The value the lookup functions hand back: entry, reported base, reported size. */
  datatype Found<+E> = Found(entry: E, base: Address, size: Address)

  class RangeMap<E> {
    var map_: seq<Range<E>>

    ghost predicate Valid()
      reads this
    {
      Ordered(map_)
    }

    constructor ()
      ensures Valid() && map_ == []
    {
      map_ := [];
    }

    /** Succeeds exactly when the range is valid and disjoint from every stored one. */
    method StoreRange(base: Address, size: Address, entry: E) returns (ok: bool)
      requires Valid()
      modifies this
      ensures Valid()
      ensures ok <==> Fits(base, size) && forall r | r in old(map_) :: r.Disjoint(base, base + size - 1)
      ensures ok ==> Elements(map_) == Elements(old(map_)) + {Range(base, base + size - 1, entry)}
      ensures !ok ==> map_ == old(map_)
    {
      var high := Wrap(base + size - 1);
      OverflowTest(base, size);
      if size <= 0 || high < base {
        return false;
      }
      var ib := LowerBound(map_, base);
      var ih := LowerBound(map_, high);
      if ib != ih {
        assert map_[if ib < |map_| then ib else ih] in map_;
        return false;
      }
      if ih != |map_| {
        if map_[ih].base <= high {
          assert map_[ih] in map_;
          return false;
        }
      }
      forall r | r in map_ ensures r.Disjoint(base, high) {
        var k :| 0 <= k < |map_| && map_[k] == r;
      }
      OrderedGlue(map_, ih, Range(base, high, entry));
      ElementsGlue(map_, ih, Range(base, high, entry));
      map_ := map_[..ih] + [Range(base, high, entry)] + map_[ih..];
      return true;
    }

    /** Agrees with a linear scan of the stored set. */
    method RetrieveRange(address: Address) returns (found: Option<Found<E>>)
      requires Valid()
      ensures found == Retrieve(map_, address)
    {
      var i := LowerBound(map_, address);
      if i == |map_| {
        return None;
      }
      if address < map_[i].base {
        return None;
      }
      return Some(Found(map_[i].entry, map_[i].base, Size(map_[i])));
    }

    /** Falls back to the nearest range below; then the reported base is that range's high address. */
    method RetrieveNearestRange(address: Address) returns (found: Option<Found<E>>)
      requires Valid()
      ensures found == RetrieveNearest(map_, address)
    {
      found := RetrieveRange(address);
      if found.Some? {
        return;
      }
      var i := UpperBound(map_, address);
      if i == 0 {
        return None;
      }
      i := i - 1;
      return Some(Found(map_[i].entry, map_[i].high, Size(map_[i])));
    }

    /** Walks to the given position in key order; the reported base is again the high address. */
    method RetrieveRangeAtIndex(index: int) returns (found: Option<Found<E>>)
      requires Valid()
      requires 0 <= index || 0 < |map_|
      ensures found.None? <==> index >= |map_|
      ensures found.Some? ==>
                var r := map_[if index < 0 then 0 else index];
                found.value == Found(r.entry, r.high, r.high - r.base + 1)
    {
      if index >= |map_| {
        return None;
      }
      var at := 0;
      while at < index
        invariant 0 <= at < |map_| && (0 <= index ==> at <= index) && (index < 0 ==> at == 0)
      {
        at := at + 1;
      }
      return Some(Found(map_[at].entry, map_[at].high, Size(map_[at])));
    }

    method Clear()
      modifies this
      ensures Valid() && map_ == []
    {
      map_ := [];
    }
  }

  function Retrieve<E>(rs: seq<Range<E>>, address: Address): (found: Option<Found<E>>) {
    var i := LowerBound(rs, address);
    if i == |rs| || address < rs[i].base then None
    else Some(Found(rs[i].entry, rs[i].base, Size(rs[i])))
  }

  function RetrieveNearest<E>(rs: seq<Range<E>>, address: Address): (found: Option<Found<E>>) {
    if Retrieve(rs, address).Some? then Retrieve(rs, address)
    else
      var i := UpperBound(rs, address);
      if i == 0 then None else Some(Found(rs[i - 1].entry, rs[i - 1].high, Size(rs[i - 1])))
  }

  /** The search by key agrees with the unordered set: it finds the one range that contains the address. */
  lemma {:induction false} RetrieveCorrect<E>(rs: seq<Range<E>>, address: Address)
    requires Ordered(rs)
    ensures Retrieve(rs, address).None? <==> Uncovered(Elements(rs), address)
    ensures forall r | Holds(Elements(rs), address, r) ::
              Retrieve(rs, address) == Some(Found(r.entry, r.base, r.high - r.base + 1))
  {
    var i := LowerBound(rs, address);
    if i < |rs| && rs[i].base <= address {
      assert Holds(Elements(rs), address, rs[i]);
    }
    forall r | Holds(Elements(rs), address, r)
      ensures i < |rs| && r == rs[i]
    {
      var k :| 0 <= k < |rs| && rs[k] == r;
      assert i <= k;
    }
  }

  /** The fallback finds the highest range wholly below an uncovered address, and fails when there is none. */
  lemma {:induction false} NearestBelow<E>(rs: seq<Range<E>>, address: Address) returns (r: Option<Range<E>>)
    requires Ordered(rs) && Uncovered(Elements(rs), address)
    ensures r.None? ==> RetrieveNearest(rs, address).None? && forall s | s in rs :: address < s.base
    ensures r.Some? ==> HighestBelow(Elements(rs), address, r.value)
    ensures r.Some? ==>
              var q := r.value; RetrieveNearest(rs, address) == Some(Found(q.entry, q.high, q.high - q.base + 1))
  {
    assert Retrieve(rs, address).None? by {
      RetrieveCorrect(rs, address);
    }
    hide LowerBound, Retrieve;
    var i := UpperBound(rs, address);
    if i == 0 {
      r := None;
      forall s | s in rs ensures address < s.base {
        var k :| 0 <= k < |rs| && rs[k] == s;
        assert !rs[k].Contains(address);
      }
    } else {
      r := Some(rs[i - 1]);
      assert !rs[i - 1].Contains(address);
      assert forall k | i <= k < |rs| :: rs[i].high <= rs[k].high;
      LastBelow(rs, address, i - 1);
    }
  }

  /** The containing range with its base; else the highest range wholly below with its high address; else nothing. */
  lemma NearestCorrect<E>(rs: seq<Range<E>>, address: Address)
    requires Ordered(rs)
    ensures forall r | Holds(Elements(rs), address, r) ::
              RetrieveNearest(rs, address) == Some(Found(r.entry, r.base, r.high - r.base + 1))
    ensures forall r | Uncovered(Elements(rs), address) && HighestBelow(Elements(rs), address, r) ::
              RetrieveNearest(rs, address) == Some(Found(r.entry, r.high, r.high - r.base + 1))
    ensures RetrieveNearest(rs, address).None? <==> forall s | s in rs :: address < s.base
  {
    RetrieveCorrect(rs, address);
    hide Retrieve;
    if Uncovered(Elements(rs), address) {
      var q := NearestBelow(rs, address);
      forall r | HighestBelow(Elements(rs), address, r) ensures q == Some(r) {
        OneHigh(rs, r, q.value);
      }
    }
  }

  lemma OneHigh<E>(rs: seq<Range<E>>, r: Range<E>, q: Range<E>)
    requires Ordered(rs) && r in rs && q in rs && r.high == q.high
    ensures r == q
  {
    var i :| 0 <= i < |rs| && rs[i] == r;
    var j :| 0 <= j < |rs| && rs[j] == q;
  }

  lemma {:induction false} LastBelow<E>(rs: seq<Range<E>>, address: Address, i: nat)
    requires Ordered(rs) && i < |rs| && rs[i].high < address
    requires forall k | i < k < |rs| :: address < rs[k].high
    ensures HighestBelow(Elements(rs), address, rs[i])
  {
    forall s | s in rs && s.high < address ensures s.high <= rs[i].high {
      var k :| 0 <= k < |rs| && rs[k] == s;
      assert k <= i;
    }
  }

  // ----- Symbols by address -----

  datatype Symbol<+E> = Symbol(address: Address, entry: E)

  ghost predicate Ascending<E>(ss: seq<Symbol<E>>) {
    forall i, j | 0 <= i < j < |ss| :: ss[i].address < ss[j].address
  }

  /** `s` is the stored symbol with the highest address not above the given one. */
  ghost predicate HighestAtOrBelow<E>(ss: seq<Symbol<E>>, address: Address, s: Symbol<E>) {
    s in ss && s.address <= address && forall t | t in ss && t.address <= address :: t.address <= s.address
  }

  /** First position whose address is above `a`. */
  function SymbolsUpTo<E>(ss: seq<Symbol<E>>, a: Address): (i: nat)
    ensures i <= |ss|
    ensures i < |ss| ==> a < ss[i].address
    ensures forall k | 0 <= k < i :: ss[k].address <= a
  {
    if ss == [] || a < ss[0].address then 0 else 1 + SymbolsUpTo(ss[1..], a)
  }

  lemma AscendingGlue<E>(ss: seq<Symbol<E>>, i: nat, s: Symbol<E>)
    requires Ascending(ss) && i <= |ss|
    requires i > 0 ==> ss[i - 1].address < s.address
    requires i < |ss| ==> s.address < ss[i].address
    ensures Ascending(ss[..i] + [s] + ss[i..])
  {
    var r := ss[..i] + [s] + ss[i..];
    forall m, n | 0 <= m < n < |r| ensures r[m].address < r[n].address {
      assert m > i ==> r[m] == ss[m - 1];
      assert n > i ==> r[n] == ss[n - 1];
    }
  }

  /** The symbol just before the first one above the address. */
  function Predecessor<E>(ss: seq<Symbol<E>>, address: Address): (found: Option<Symbol<E>>) {
    var i := SymbolsUpTo(ss, address);
    if i == 0 then None else Some(ss[i - 1])
  }

  lemma {:induction false} PredecessorCorrect<E>(ss: seq<Symbol<E>>, address: Address)
    requires Ascending(ss)
    ensures Predecessor(ss, address).None? <==> forall s | s in ss :: address < s.address
    ensures forall s | HighestAtOrBelow(ss, address, s) :: Predecessor(ss, address) == Some(s)
    ensures Predecessor(ss, address).Some? ==> HighestAtOrBelow(ss, address, Predecessor(ss, address).value)
  {
    var i := SymbolsUpTo(ss, address);
    assert i > 0 ==> ss[i - 1] in ss;
    forall s | s in ss && s.address <= address
      ensures 0 < i && s.address <= ss[i - 1].address && (s.address == ss[i - 1].address ==> s == ss[i - 1])
    {
      var k :| 0 <= k < |ss| && ss[k] == s;
      assert k < i;
    }
  }

  class AddressMap<E> {
    var map_: seq<Symbol<E>>

    ghost predicate Valid()
      reads this
    {
      Ascending(map_)
    }

    constructor ()
      ensures Valid() && map_ == []
    {
      map_ := [];
    }

    method Store(address: Address, entry: E) returns (ok: bool)
      requires Valid()
      modifies this
      ensures Valid()
      ensures ok <==> forall s | s in old(map_) :: s.address != address
      ensures ok ==> Elements(map_) == Elements(old(map_)) + {Symbol(address, entry)}
      ensures !ok ==> map_ == old(map_)
    {
      var i := SymbolsUpTo(map_, address);
      if i > 0 && map_[i - 1].address == address {
        assert map_[i - 1] in map_;
        return false;
      }
      forall s | s in map_ ensures s.address != address {
        var k :| 0 <= k < |map_| && map_[k] == s;
      }
      ElementsGlue(map_, i, Symbol(address, entry));
      AscendingGlue(map_, i, Symbol(address, entry));
      map_ := map_[..i] + [Symbol(address, entry)] + map_[i..];
      return true;
    }

    method Retrieve(address: Address) returns (found: Option<Symbol<E>>)
      requires Valid()
      ensures found == Predecessor(map_, address)
    {
      var i := SymbolsUpTo(map_, address);
      if i == 0 {
        return None;
      }
      return Some(map_[i - 1]);
    }

    method Clear()
      modifies this
      ensures Valid() && map_ == []
    {
      map_ := [];
    }
  }
}
