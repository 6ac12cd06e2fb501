/** The path written for an object of the application, and the object found from a path. */
module ObjectNames {
  import opened Decimals
  import opened Paths
  import opened Wrappers

  datatype QObject = QObject(name: string, className: string, metaObject: int, children: seq<QObject>)

  /** An object, as its index among the parentless objects followed by an index among children at each level. */
  type Position = seq<nat>

  function Parent(p: Position): (q: Position)
    requires |p| > 1
    ensures |q| == |p| - 1
  {
    p[..|p| - 1]
  }

  function Index(p: Position): nat
    requires p != []
  {
    p[|p| - 1]
  }

  predicate Exists(roots: seq<QObject>, p: Position)
    decreases |p|, 1
  {
    p != [] && (|p| > 1 ==> Exists(roots, Parent(p))) && Index(p) < |Siblings(roots, p)|
  }

  /** The objects beside `p`, itself included. */
  function Siblings(roots: seq<QObject>, p: Position): seq<QObject>
    requires p != [] && (|p| > 1 ==> Exists(roots, Parent(p)))
    decreases |p|, 0
  {
    if |p| == 1 then roots else At(roots, Parent(p)).children
  }

  function At(roots: seq<QObject>, p: Position): QObject
    requires Exists(roots, p)
    decreases |p|, 2
  {
    Siblings(roots, p)[Index(p)]
  }

  /** How many of `objects` have this meta object. */
  function CountOf(objects: seq<QObject>, metaObject: int): nat {
    if objects == [] then 0
    else
      CountOf(objects[..|objects| - 1], metaObject) + if objects[|objects| - 1].metaObject == metaObject then 1 else 0
  }

  function Generated(className: string, index: nat): string {
    className + "-" + Print(index)
  }

  /** The object's own name; else its class and 0, or its class and its place among the siblings of the class. */
  function RawName(roots: seq<QObject>, p: Position): string
    requires Exists(roots, p)
  {
    var o := At(roots, p);
    if o.name != "" then o.name
    else if |p| == 1 then Generated(o.className, 0)
    else Generated(o.className, 1 + CountOf(Siblings(roots, p)[..Index(p)], o.metaObject))
  }

  function Name(roots: seq<QObject>, p: Position): string
    requires Exists(roots, p)
  {
    EscapeName(RawName(roots, p))
  }

  /** The names from the outermost ancestor down to the object. */
  function Names(roots: seq<QObject>, p: Position): (r: seq<string>)
    requires Exists(roots, p)
    ensures |r| == |p|
  {
    if |p| == 1 then [Name(roots, p)] else Names(roots, Parent(p)) + [Name(roots, p)]
  }

  /** `rawObjectName`: count the siblings of the same class up to the object. */
  method RawObjectName(roots: seq<QObject>, p: Position) returns (r: string)
    requires Exists(roots, p)
    ensures r == RawName(roots, p)
  {
    var o := At(roots, p);
    if o.name != "" {
      return o.name;
    }
    if |p| == 1 {
      return Generated(o.className, 0);
    }
    var siblings := Siblings(roots, p);
    var index, i := 1, 0;
    while i != Index(p)
      invariant 0 <= i <= Index(p)
      invariant index == 1 + CountOf(siblings[..i], o.metaObject)
      decreases Index(p) - i
    {
      assert siblings[..i + 1][..i] == siblings[..i];
      if siblings[i].metaObject == o.metaObject {
        index := index + 1;
      }
      i := i + 1;
    }
    return Generated(o.className, index);
  }

  /** `objectPath`: prepend the names while walking to the parent. */
  method ObjectPath(roots: seq<QObject>, p: Position) returns (path: string)
    requires Exists(roots, p)
    ensures path == Join(Names(roots, p))
  {
    hide At, Siblings, EscapeName, RawName, Join;
    var components: seq<string> := [];
    var current := p;
    while current != []
      invariant current != [] ==> Exists(roots, current)
      invariant Names(roots, p) == if current == [] then components else Names(roots, current) + components
      decreases |current|
    {
      var name := RawObjectName(roots, current);
      components := [EscapeName(name)] + components;
      assert |current| > 1 ==> Exists(roots, Parent(current));
      current := current[..|current| - 1];
    }
    return Join(components);
  }

  /** All of them exist. Top-level widgets are any such list, in the order the toolkit gives. */
  predicate Listed(roots: seq<QObject>, objects: seq<Position>) {
    forall q | q in objects :: Exists(roots, q)
  }

  /** The place of the first text equal to `name`, or the length. */
  function First(names: seq<string>, name: string): (i: nat)
    ensures i <= |names| && (i < |names| ==> names[i] == name)
    ensures forall j | 0 <= j < i :: names[j] != name
  {
    if names == [] || names[0] == name then 0 else 1 + First(names[1..], name)
  }

  function NamesOf(roots: seq<QObject>, objects: seq<Position>): (r: seq<string>)
    requires Listed(roots, objects)
    ensures |r| == |objects| && forall i | 0 <= i < |r| :: r[i] == Name(roots, objects[i])
  {
    seq(|objects|, i requires 0 <= i < |objects| => Name(roots, objects[i]))
  }

  function Children(roots: seq<QObject>, p: Position): (r: seq<Position>)
    requires Exists(roots, p)
    ensures |r| == |At(roots, p).children|
    ensures forall i | 0 <= i < |r| :: r[i] == p + [i] && Parent(r[i]) == p && Exists(roots, r[i])
  {
    seq(|At(roots, p).children|, i requires 0 <= i < |At(roots, p).children| => Child(roots, p, i))
  }

  function Child(roots: seq<QObject>, p: Position, i: nat): (q: Position)
    requires Exists(roots, p) && i < |At(roots, p).children|
    ensures q == p + [i] && Parent(q) == p && Exists(roots, q)
  {
    var q := p + [i];
    assert Parent(q) == p;
    q
  }

  /** Follow the names one by one, always taking the first object of that name. */
  function Follow(roots: seq<QObject>, topLevel: seq<Position>, names: seq<string>): (r: Option<Position>)
    requires Listed(roots, topLevel) && names != []
    ensures r.Some? ==> Exists(roots, r.value)
  {
    var name := names[|names| - 1];
    if |names| == 1 then FirstOf(roots, topLevel, name)
    else
      var parent := Follow(roots, topLevel, names[..|names| - 1]);
      if parent.None? then None else FirstOf(roots, Children(roots, parent.value), name)
  }

  function FirstOf(roots: seq<QObject>, candidates: seq<Position>, name: string): (r: Option<Position>)
    requires Listed(roots, candidates)
    ensures r.Some? ==> Exists(roots, r.value) && r.value in candidates && Name(roots, r.value) == name
  {
    var i := First(NamesOf(roots, candidates), name);
    if i < |candidates| then Some(candidates[i]) else None
  }

  method FindFirst(roots: seq<QObject>, candidates: seq<Position>, name: string) returns (r: Option<Position>)
    requires Listed(roots, candidates)
    ensures r == FirstOf(roots, candidates, name)
  {
    hide Exists, At, Siblings, EscapeName, RawName;
    for i := 0 to |candidates|
      invariant forall j | 0 <= j < i :: Name(roots, candidates[j]) != name
    {
      var raw := RawObjectName(roots, candidates[i]);
      if EscapeName(raw) == name {
        return Some(candidates[i]);
      }
    }
    return None;
  }

  /** `findObject`: the parts of a path are joined and split again at every level. */
  method FindObject(roots: seq<QObject>, topLevel: seq<Position>, path: string) returns (r: Option<Position>)
    requires Listed(roots, topLevel)
    ensures r == Follow(roots, topLevel, Split(path))
    decreases |Split(path)|
  {
    hide Split, Join, Exists, At, Siblings, FirstOf, Name;
    var parts := Split(path);
    var name := parts[|parts| - 1];
    parts := parts[..|parts| - 1];
    if parts == [] {
      r := FindFirst(roots, topLevel, name);
      return;
    }
    SplitInit(path);
    var parent := FindObject(roots, topLevel, Join(parts));
    if parent.None? {
      return None;
    }
    r := FindFirst(roots, Children(roots, parent.value), name);
  }

  /** At every level the object is the first of its name. */
  ghost predicate Leads(roots: seq<QObject>, topLevel: seq<Position>, p: Position)
    requires Listed(roots, topLevel) && Exists(roots, p)
    decreases |p|
  {
    if |p| == 1 then FirstOf(roots, topLevel, Name(roots, p)) == Some(p)
    else Leads(roots, topLevel, Parent(p))
         && FirstOf(roots, Children(roots, Parent(p)), Name(roots, p)) == Some(p)
  }

  lemma {:induction false} FollowFinds(roots: seq<QObject>, topLevel: seq<Position>, p: Position)
    requires Listed(roots, topLevel) && Exists(roots, p) && Leads(roots, topLevel, p)
    ensures Follow(roots, topLevel, Names(roots, p)) == Some(p)
    decreases |p|
  {
    hide Exists, At, Siblings, FirstOf, Children, Name, Listed;
    if |p| > 1 {
      assert Exists(roots, Parent(p)) by {
        ParentExists(roots, p);
      }
      FollowFinds(roots, topLevel, Parent(p));
      assert Names(roots, p)[..|p| - 1] == Names(roots, Parent(p));
    }
  }

  lemma ParentExists(roots: seq<QObject>, p: Position)
    requires Exists(roots, p) && |p| > 1
    ensures Exists(roots, Parent(p))
  {
  }

  /** What is found was reached from a top-level widget, and its last names are those followed. */
  lemma {:induction false} FoundHas(roots: seq<QObject>, topLevel: seq<Position>, names: seq<string>, p: Position)
    requires Listed(roots, topLevel) && names != [] && Follow(roots, topLevel, names) == Some(p)
    ensures |names| <= |p|
    ensures |names| == |p| ==> Names(roots, p) == names && Leads(roots, topLevel, p)
    decreases |names|
  {
    hide Exists, At, Siblings, FirstOf, Children, Name, Listed;
    var name := names[|names| - 1];
    if |names| > 1 {
      var init := names[..|names| - 1];
      var parent := Follow(roots, topLevel, init).value;
      FoundHas(roots, topLevel, init, parent);
      assert p in Children(roots, parent);
      assert Parent(p) == parent && p != [];
      assert names == init + [name];
    } else {
      assert Exists(roots, p) && p != [] by {
        NotEmpty(roots, p);
      }
    }
  }

  lemma NotEmpty(roots: seq<QObject>, p: Position)
    requires Exists(roots, p)
    ensures p != []
  {
  }

  /**
    The path of an object leads back to it exactly when the names on the way can be told apart in the
    joined path and the object and each of its ancestors is the first of its name where it is looked for.
   */
  lemma PathFindsExactly(roots: seq<QObject>, topLevel: seq<Position>, p: Position)
    requires Listed(roots, topLevel) && Exists(roots, p)
    ensures Follow(roots, topLevel, Split(Join(Names(roots, p)))) == Some(p)
       <==> Separable(Names(roots, p)) && Leads(roots, topLevel, p)
  {
    hide Exists, At, Siblings, Name, Split, Join, Leads, Follow;
    var names := Names(roots, p);
    var split := Split(Join(names));
    SplitJoinExactly(names);
    if Leads(roots, topLevel, p) {
      FollowFinds(roots, topLevel, p);
    }
    if Follow(roots, topLevel, split) == Some(p) {
      FoundHas(roots, topLevel, split, p);
      SplitJoinCount(names);
    }
  }

  /** Every object on the way has a name without three colons in a row, and none but the last ends in a colon. */
  ghost predicate PlainNames(roots: seq<QObject>, p: Position, isLast: bool)
    requires Exists(roots, p)
    decreases |p|
  {
    && !ThreeColons(RawName(roots, p))
    && (isLast || !EndsInColon(RawName(roots, p)))
    && (|p| > 1 ==> PlainNames(roots, Parent(p), false))
  }

  /** The same condition on the names the application gave. */
  lemma {:induction false} SeparableExactly(roots: seq<QObject>, p: Position)
    requires Exists(roots, p)
    ensures Separable(Names(roots, p)) <==> PlainNames(roots, p, true)
    ensures Separable(Names(roots, p)) && !EndsInColon(Name(roots, p)) <==> PlainNames(roots, p, false)
    decreases |p|
  {
    EscapeNameExactly(RawName(roots, p));
    var names := Names(roots, p);
    assert names[|p| - 1] == Name(roots, p);
    if |p| > 1 {
      var init := Names(roots, Parent(p));
      SeparableExactly(roots, Parent(p));
      assert forall i | 0 <= i < |init| :: names[i] == init[i];
      assert init[|init| - 1] == Name(roots, Parent(p));
      SeparableSplit(init, names);
    }
  }

  lemma SeparableSplit(init: seq<string>, names: seq<string>)
    requires |init| > 0 && |names| == |init| + 1 && names[..|init|] == init
    ensures Separable(names) <==> Separable(init) && !EndsInColon(init[|init| - 1]) && !Contains(names[|init|])
  {
    assert forall i | 0 <= i < |init| :: names[i] == init[i];
  }

  ghost predicate DistinctNames(roots: seq<QObject>, objects: seq<Position>)
    requires Listed(roots, objects)
  {
    forall i, j | 0 <= i < j < |objects| && objects[i] != objects[j] ::
      Name(roots, objects[i]) != Name(roots, objects[j])
  }

  /** Names are unique among top-level widgets and among the children of every object. */
  ghost predicate UniqueNames(roots: seq<QObject>, topLevel: seq<Position>)
    requires Listed(roots, topLevel)
  {
    && DistinctNames(roots, topLevel)
    && forall p | Exists(roots, p) :: DistinctNames(roots, Children(roots, p))
  }

  lemma DistinctIsFirst(roots: seq<QObject>, objects: seq<Position>, p: Position)
    requires Listed(roots, objects) && DistinctNames(roots, objects) && p in objects
    ensures FirstOf(roots, objects, Name(roots, p)) == Some(p)
  {
    hide Exists, At, Siblings, Name;
    var k :| 0 <= k < |objects| && objects[k] == p;
    assert NamesOf(roots, objects)[k] == Name(roots, p);
    var i := First(NamesOf(roots, objects), Name(roots, p));
    assert i <= k;
    assert NamesOf(roots, objects)[i] == Name(roots, objects[i]);
  }

  lemma {:induction false} UniqueLeads(roots: seq<QObject>, topLevel: seq<Position>, p: Position)
    requires Listed(roots, topLevel) && Exists(roots, p) && UniqueNames(roots, topLevel) && p[..1] in topLevel
    ensures Leads(roots, topLevel, p)
    decreases |p|
  {
    if |p| == 1 {
      assert p[..1] == p;
      DistinctIsFirst(roots, topLevel, p);
    } else {
      var parent := Parent(p);
      ParentExists(roots, p);
      var children := Children(roots, parent);
      assert p == parent + [Index(p)] == children[Index(p)];
      hide Exists, At, Siblings, Name, FirstOf, Children;
      assert parent[..1] == p[..1];
      UniqueLeads(roots, topLevel, parent);
      DistinctIsFirst(roots, children, p);
    }
  }

  /** With unique names that hold no troublesome colons, every object under a top-level widget is found again. */
  lemma UniqueNamesFound(roots: seq<QObject>, topLevel: seq<Position>, p: Position)
    requires Listed(roots, topLevel) && Exists(roots, p) && UniqueNames(roots, topLevel) && p[..1] in topLevel
    ensures Follow(roots, topLevel, Split(Join(Names(roots, p)))) == Some(p) <==> PlainNames(roots, p, true)
  {
    UniqueLeads(roots, topLevel, p);
    PathFindsExactly(roots, topLevel, p);
    SeparableExactly(roots, p);
  }

  /** Different as the application gives them, and without the text that separators are replaced by. */
  ghost predicate DistinctGiven(roots: seq<QObject>, objects: seq<Position>)
    requires Listed(roots, objects)
  {
    && (forall p | p in objects :: !Replaced(RawName(roots, p)))
    && forall i, j | 0 <= i < j < |objects| && objects[i] != objects[j] ::
         RawName(roots, objects[i]) != RawName(roots, objects[j])
  }

  /** The names the application gives are unique among top-level widgets and among the children of every object. */
  ghost predicate UniqueGiven(roots: seq<QObject>, topLevel: seq<Position>)
    requires Listed(roots, topLevel)
  {
    && DistinctGiven(roots, topLevel)
    && forall p | Exists(roots, p) :: DistinctGiven(roots, Children(roots, p))
  }

  lemma GivenStayDistinct(roots: seq<QObject>, objects: seq<Position>)
    requires Listed(roots, objects) && DistinctGiven(roots, objects)
    ensures DistinctNames(roots, objects)
  {
    hide Exists, At, Siblings, RawName, EscapeName, Replaced;
    forall i, j | 0 <= i < j < |objects| && objects[i] != objects[j]
      ensures Name(roots, objects[i]) != Name(roots, objects[j])
    {
      if Name(roots, objects[i]) == Name(roots, objects[j]) {
        EscapeNameInjective(RawName(roots, objects[i]), RawName(roots, objects[j]));
      }
    }
  }

  /**
    With unique names that do not hold the replacement text, every object under a top-level widget is found again from
    its path exactly when no name on the way has three colons in a row and none but the last ends in a colon.
   */
  lemma GivenNamesFound(roots: seq<QObject>, topLevel: seq<Position>, p: Position)
    requires Listed(roots, topLevel) && Exists(roots, p) && UniqueGiven(roots, topLevel) && p[..1] in topLevel
    ensures Follow(roots, topLevel, Split(Join(Names(roots, p)))) == Some(p) <==> PlainNames(roots, p, true)
  {
    hide Exists, At, Siblings, Follow, Split, Join, Names, PlainNames, DistinctGiven, DistinctNames;
    GivenStayDistinct(roots, topLevel);
    forall q | Exists(roots, q) ensures DistinctNames(roots, Children(roots, q)) {
      GivenStayDistinct(roots, Children(roots, q));
    }
    UniqueNamesFound(roots, topLevel, p);
  }

  /**
    Siblings without a name of their own get different ones, if a class name stands for one meta object; so do they
    after the replacement, if no class name holds its text.
   */
  lemma UnnamedSiblingsDiffer(roots: seq<QObject>, p: Position, i: nat, j: nat)
    requires Exists(roots, p) && i < j < |At(roots, p).children|
    requires var a, b := At(roots, p).children[i], At(roots, p).children[j];
      a.name == "" && b.name == "" && (a.className == b.className ==> a.metaObject == b.metaObject)
    ensures RawName(roots, Children(roots, p)[i]) != RawName(roots, Children(roots, p)[j])
    ensures var a, b := At(roots, p).children[i], At(roots, p).children[j];
      !Replaced(a.className) && !Replaced(b.className) ==>
        Name(roots, Children(roots, p)[i]) != Name(roots, Children(roots, p)[j])
  {
    hide Replaced, EscapeName;
    var s := At(roots, p).children;
    var m, n := 1 + CountOf(s[..i], s[i].metaObject), 1 + CountOf(s[..j], s[j].metaObject);
    UnnamedRaw(roots, p, i);
    UnnamedRaw(roots, p, j);
    var x, y := Generated(s[i].className, m), Generated(s[j].className, n);
    if x == y {
      GeneratedInjective(s[i].className, m, s[j].className, n);
      CountGrows(s, i, j);
    }
    if !Replaced(s[i].className) && !Replaced(s[j].className) && EscapeName(x) == EscapeName(y) {
      GeneratedNotReplaced(s[i].className, m);
      GeneratedNotReplaced(s[j].className, n);
      EscapeNameInjective(x, y);
    }
  }

  lemma GeneratedNotReplaced(c: string, m: nat)
    requires !Replaced(c)
    ensures !Replaced(Generated(c, m))
  {
    var s := Generated(c, m);
    forall i: nat ensures !ReplacedAt(s, i) {
      assert !ReplacedAt(c, i);
      if |c| < i + 2 < |s| {
        DigitsAfter(c, m, i + 2);
      }
    }
  }

  lemma UnnamedRaw(roots: seq<QObject>, p: Position, i: nat)
    requires Exists(roots, p) && i < |At(roots, p).children| && At(roots, p).children[i].name == ""
    ensures var s := At(roots, p).children;
      RawName(roots, Children(roots, p)[i]) == Generated(s[i].className, 1 + CountOf(s[..i], s[i].metaObject))
  {
    var q := Children(roots, p)[i];
    assert Siblings(roots, q) == At(roots, p).children && Index(q) == i;
  }

  lemma {:induction false} CountGrows(s: seq<QObject>, i: nat, j: nat)
    requires i < j <= |s|
    ensures CountOf(s[..j], s[i].metaObject) > CountOf(s[..i], s[i].metaObject)
  {
    assert s[..j][..j - 1] == s[..j - 1];
    if i < j - 1 {
      CountGrows(s, i, j - 1);
    }
  }

  lemma DigitsAfter(c: string, m: nat, k: nat)
    requires |c| < k < |Generated(c, m)|
    ensures IsDigit(Generated(c, m)[k])
  {
    assert Generated(c, m)[k] == Print(m)[k - |c| - 1];
    assert AllDigits(Print(m)) && Print(m)[k - |c| - 1] in Print(m);
  }

  /** The last dash separates the class from the number. */
  lemma GeneratedInjective(c: string, m: nat, d: string, n: nat)
    requires Generated(c, m) == Generated(d, n)
    ensures c == d && m == n
  {
    var s := Generated(c, m);
    assert s[|c|] == '-' && s[|d|] == '-';
    assert s[|c| + 1..] == Print(m) && s[|d| + 1..] == Print(n);
    if |c| < |d| {
      DigitsAfter(c, m, |d|);
    } else if |d| < |c| {
      DigitsAfter(d, n, |c|);
    }
    assert c == s[..|c|] == s[..|d|] == d;
    PrintInjective(m, n);
  }
}
