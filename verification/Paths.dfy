/** Splitting and joining at "::", and replacing "::" inside a name. */
module Paths {

  const SEPARATOR := "::"

  /** `s` has a separator at `i`. */
  predicate SeparatorAt(s: string, i: nat) {
    i + 1 < |s| && s[i] == ':' && s[i + 1] == ':'
  }

  ghost predicate Contains(s: string) {
    exists i: nat :: SeparatorAt(s, i)
  }

  /** Where the first separator starts, or the length. */
  function FirstSeparator(s: string): (i: nat)
    ensures i <= |s| && forall j: nat | j < i :: !SeparatorAt(s, j)
    ensures if i < |s| then SeparatorAt(s, i) else !Contains(s)
  {
    if s == [] then 0
    else if SeparatorAt(s, 0) then 0
    else
      var i := FirstSeparator(s[1..]);
      assert forall j: nat | j > 0 :: SeparatorAt(s, j) <==> SeparatorAt(s[1..], j - 1);
      i + 1
  }

  /** `QString::split`: cut at every separator from the left, empty parts kept. */
  function Split(s: string): (parts: seq<string>)
    ensures parts != []
    decreases |s|
  {
    var i := FirstSeparator(s);
    if i == |s| then [s] else [s[..i]] + Split(s[i + 2..])
  }

  /** `QStringList::join`. */
  function Join(parts: seq<string>): (s: string)
  {
    if parts == [] then []
    else if |parts| == 1 then parts[0]
    else parts[0] + SEPARATOR + Join(parts[1..])
  }

  predicate EndsInColon(s: string) {
    s != [] && s[|s| - 1] == ':'
  }

  /** No part holds a separator, and no part but the last ends in a colon. */
  ghost predicate Separable(parts: seq<string>) {
    && (forall i | 0 <= i < |parts| :: !Contains(parts[i]))
    && (forall i | 0 <= i < |parts| - 1 :: !EndsInColon(parts[i]))
  }

  lemma FirstSeparatorIs(s: string, i: nat)
    requires if i < |s| then SeparatorAt(s, i) else i == |s|
    requires forall j: nat | j < i :: !SeparatorAt(s, j)
    ensures FirstSeparator(s) == i
  {
  }

  lemma SplitHead(p: string, rest: string)
    requires !Contains(p) && !EndsInColon(p)
    ensures Split(p + SEPARATOR + rest) == [p] + Split(rest)
  {
    var s := p + SEPARATOR + rest;
    assert SeparatorAt(s, |p|);
    forall j: nat | j < |p| ensures !SeparatorAt(s, j) {
      assert !SeparatorAt(p, j);
    }
    FirstSeparatorIs(s, |p|);
    assert s[..|p|] == p && s[|p| + 2..] == rest;
  }

  lemma JoinHead(p: string, rest: seq<string>)
    requires rest != []
    ensures Join([p] + rest) == p + SEPARATOR + Join(rest)
  {
    assert ([p] + rest)[1..] == rest;
  }

  /** What splitting yields joins to the same text. */
  lemma {:induction false} JoinSplit(s: string)
    ensures Join(Split(s)) == s
    decreases |s|
  {
    var i := FirstSeparator(s);
    if i < |s| {
      JoinSplit(s[i + 2..]);
      var p, rest := s[..i], Split(s[i + 2..]);
      assert Split(s) == [p] + rest;
      hide FirstSeparator, Split, Contains;
      JoinHead(p, rest);
      assert s == p + SEPARATOR + s[i + 2..];
    }
  }

  /** What splitting yields can be told apart again. */
  lemma {:induction false} SplitSeparable(s: string)
    ensures Separable(Split(s))
    decreases |s|
  {
    var i := FirstSeparator(s);
    if i < |s| {
      SplitSeparable(s[i + 2..]);
      var p := s[..i];
      assert forall j: nat :: SeparatorAt(p, j) ==> SeparatorAt(s, j);
      assert EndsInColon(p) ==> SeparatorAt(s, i - 1);
      var parts, rest := Split(s), Split(s[i + 2..]);
      assert parts == [p] + rest;
      assert forall k | 0 < k < |parts| :: parts[k] == rest[k - 1];
    }
  }

  lemma {:induction false} SplitJoin(parts: seq<string>)
    requires parts != [] && Separable(parts)
    ensures Split(Join(parts)) == parts
  {
    if |parts| == 1 {
      assert !Contains(parts[0]);
    } else {
      var rest := parts[1..];
      assert forall k | 0 <= k < |rest| :: rest[k] == parts[k + 1];
      SplitJoin(rest);
      SplitHead(parts[0], Join(rest));
    }
  }

  /** Splitting undoes joining exactly for separable parts. */
  lemma SplitJoinExactly(parts: seq<string>)
    requires parts != []
    ensures Split(Join(parts)) == parts <==> Separable(parts)
  {
    if Separable(parts) {
      SplitJoin(parts);
    } else {
      SplitSeparable(Join(parts));
    }
  }

  /** All parts but the last, joined, split into the same parts. */
  lemma SplitInit(s: string)
    ensures var parts := Split(s); |parts| > 1 ==> Split(Join(parts[..|parts| - 1])) == parts[..|parts| - 1]
  {
    var parts := Split(s);
    SplitSeparable(s);
    if |parts| > 1 {
      var init := parts[..|parts| - 1];
      assert Separable(init);
      SplitJoin(init);
    }
  }

  /** One more character in front adds at most one part and takes none away. */
  lemma {:induction false} SplitCount(s: string)
    requires s != []
    ensures |Split(s[1..])| <= |Split(s)| <= |Split(s[1..])| + 1
    decreases |s|
  {
    var t := s[1..];
    if SeparatorAt(s, 0) {
      assert Split(s) == [s[..0]] + Split(s[2..]);
      assert s[2..] == t[1..];
      SplitCount(t);
    } else {
      var i := FirstSeparator(t);
      assert forall j: nat | j > 0 :: SeparatorAt(s, j) <==> SeparatorAt(t, j - 1);
      FirstSeparatorIs(s, i + 1);
      assert i < |t| ==> s[i + 3..] == t[i + 2..];
    }
  }

  lemma {:induction false} SplitCountJoin(p: string, rest: string)
    ensures |Split(p + SEPARATOR + rest)| >= 1 + |Split(rest)|
    decreases |p|
  {
    var s := p + SEPARATOR + rest;
    if p == [] {
      assert SeparatorAt(s, 0) && s[2..] == rest;
    } else {
      assert s[1..] == p[1..] + SEPARATOR + rest;
      SplitCountJoin(p[1..], rest);
      SplitCount(s);
    }
  }

  /** Joined parts never split into fewer. */
  lemma {:induction false} SplitJoinCount(parts: seq<string>)
    requires parts != []
    ensures |Split(Join(parts))| >= |parts|
  {
    if |parts| > 1 {
      SplitJoinCount(parts[1..]);
      SplitCountJoin(parts[0], Join(parts[1..]));
    }
  }

  /** `name.replace("::", ":_:")`, from the left. */
  function EscapeName(s: string): (r: string)
    decreases |s|
  {
    if s == [] then []
    else if SeparatorAt(s, 0) then ":_:" + EscapeName(s[2..])
    else [s[0]] + EscapeName(s[1..])
  }

  predicate ThreeColonsAt(s: string, i: nat) {
    SeparatorAt(s, i) && SeparatorAt(s, i + 1)
  }

  ghost predicate ThreeColons(s: string) {
    exists i: nat :: ThreeColonsAt(s, i)
  }

  /** A separator survives the replacement exactly in a run of three or more colons. */
  lemma {:induction false} EscapeNameExactly(s: string)
    ensures Contains(EscapeName(s)) <==> ThreeColons(s)
    ensures EndsInColon(EscapeName(s)) <==> EndsInColon(s)
    ensures s != [] ==> EscapeName(s) != [] && EscapeName(s)[0] == s[0]
    decreases |s|
  {
    if s != [] {
      var n := if SeparatorAt(s, 0) then 2 else 1;
      EscapeNameExactly(s[n..]);
      if n == 2 {
        EscapeNamePair(s);
      } else {
        EscapeNameSingle(s);
      }
    }
  }

  lemma EscapeNameSingle(s: string)
    requires s != [] && !SeparatorAt(s, 0)
    requires var t := s[1..];
      && (Contains(EscapeName(t)) <==> ThreeColons(t))
      && (EndsInColon(EscapeName(t)) <==> EndsInColon(t))
      && (t != [] ==> EscapeName(t) != [] && EscapeName(t)[0] == t[0])
    ensures Contains(EscapeName(s)) <==> ThreeColons(s)
    ensures EndsInColon(EscapeName(s)) <==> EndsInColon(s)
  {
    hide Contains, ThreeColons, EndsInColon;
    var t := s[1..];
    var e, f := EscapeName(s), EscapeName(t);
    assert e == [s[0]] + f;
    SingleStep(s, t, e, f);
  }

  lemma SingleStep(s: string, t: string, e: string, f: string)
    requires s != [] && t == s[1..] && e == [s[0]] + f && !SeparatorAt(s, 0)
    requires if t == [] then f == [] else f != [] && f[0] == t[0]
    requires Contains(f) <==> ThreeColons(t)
    requires EndsInColon(f) <==> EndsInColon(t)
    ensures Contains(e) <==> ThreeColons(s)
    ensures EndsInColon(e) <==> EndsInColon(s)
  {
    hide Contains, ThreeColons;
    assert !SeparatorAt(e, 0);
    assert e[1..] == f;
    Shift(e, f, 1);
    ShiftThree(s, t, 1);
  }

  lemma ShiftThree(s: string, t: string, n: nat)
    requires n <= |s| && s[n..] == t && forall i: nat | i < n :: !ThreeColonsAt(s, i)
    ensures ThreeColons(s) <==> ThreeColons(t)
  {
    if i: nat :| ThreeColonsAt(s, i) {
      assert ThreeColonsAt(t, i - n);
    }
    if i: nat :| ThreeColonsAt(t, i) {
      assert ThreeColonsAt(s, i + n);
    }
  }

  /** Looking for a separator past a first part that has none of its own. */
  lemma Shift(s: string, t: string, n: nat)
    requires n <= |s| && s[n..] == t && forall i: nat | i < n :: !SeparatorAt(s, i)
    ensures Contains(s) <==> Contains(t)
  {
    if i: nat :| SeparatorAt(s, i) {
      assert SeparatorAt(t, i - n);
    }
    if i: nat :| SeparatorAt(t, i) {
      assert SeparatorAt(s, i + n);
    }
  }

  lemma EscapeNamePair(s: string)
    requires SeparatorAt(s, 0)
    requires var t := s[2..];
      && (Contains(EscapeName(t)) <==> ThreeColons(t))
      && (EndsInColon(EscapeName(t)) <==> EndsInColon(t))
      && (t != [] ==> EscapeName(t) != [] && EscapeName(t)[0] == t[0])
    ensures Contains(EscapeName(s)) <==> ThreeColons(s)
    ensures EndsInColon(EscapeName(s)) <==> EndsInColon(s)
  {
    var t := s[2..];
    var e, f := EscapeName(s), EscapeName(t);
    assert e == ":_:" + f;
    if t != [] && t[0] == ':' {
      assert SeparatorAt(e, 2) && ThreeColonsAt(s, 0);
    } else {
      assert !SeparatorAt(e, 0) && !SeparatorAt(e, 1) && !SeparatorAt(e, 2);
      Shift(e, f, 3);
      ShiftThree(s, t, 2);
    }
  }

  // ----- When the replacement keeps names apart -----

  /** `s` has at `i` what a separator is replaced by. */
  predicate ReplacedAt(s: string, i: nat) {
    i + 2 < |s| && s[i] == ':' && s[i + 1] == '_' && s[i + 2] == ':'
  }

  ghost predicate Replaced(s: string) {
    exists i: nat :: ReplacedAt(s, i)
  }

  lemma NotReplacedTail(s: string, n: nat)
    requires !Replaced(s) && n <= |s|
    ensures !Replaced(s[n..])
  {
    if i: nat :| ReplacedAt(s[n..], i) {
      assert ReplacedAt(s, i + n);
    }
  }

  /** Where one name has a separator and the other has not, the other has what it is replaced by. */
  lemma OneSeparator(s: string, t: string)
    requires SeparatorAt(s, 0) && !SeparatorAt(t, 0) && EscapeName(s) == EscapeName(t)
    ensures Replaced(t)
  {
    var e := EscapeName(s);
    assert e[0] == ':' && e[1] == '_' && e[2] == ':';
    assert t != [] && e == [t[0]] + EscapeName(t[1..]);
    EscapeNameExactly(t[1..]);
    assert EscapeName(t[1..]) == e[1..] && t[1..] != [];
    assert t[1] == '_' && EscapeName(t[1..]) == [t[1]] + EscapeName(t[1..][1..]);
    assert t[1..][1..] == t[2..];
    EscapeNameExactly(t[2..]);
    assert EscapeName(t[2..]) == e[2..] && t[2..] != [];
    assert ReplacedAt(t, 0);
  }

  /** Names without the replacement text in them stay different. */
  lemma {:induction false} EscapeNameInjective(s: string, t: string)
    requires !Replaced(s) && !Replaced(t) && EscapeName(s) == EscapeName(t)
    ensures s == t
    decreases |s|
  {
    EscapeNameExactly(s);
    EscapeNameExactly(t);
    if s != [] && t != [] {
      if SeparatorAt(s, 0) && !SeparatorAt(t, 0) {
        OneSeparator(s, t);
      } else if !SeparatorAt(s, 0) && SeparatorAt(t, 0) {
        OneSeparator(t, s);
      } else {
        var n := if SeparatorAt(s, 0) then 2 else 1;
        var m := if n == 2 then 3 else 1;
        assert EscapeName(s)[m..] == EscapeName(s[n..]) && EscapeName(t)[m..] == EscapeName(t[n..]);
        NotReplacedTail(s, n);
        NotReplacedTail(t, n);
        EscapeNameInjective(s[n..], t[n..]);
        assert s == s[..n] + s[n..] && t == t[..n] + t[n..];
      }
    }
  }

  /**
    Some other name has the same outcome: the name has a separator that no colon follows, or the text that separators
    are replaced by, with neither of its colons part of a separator.
   */
  predicate Ambiguous(s: string)
    decreases |s|
  {
    if s == [] then false
    else if SeparatorAt(s, 0) then |s| == 2 || s[2] != ':' || Ambiguous(s[2..])
    else (ReplacedAt(s, 0) && !SeparatorAt(s, 2)) || Ambiguous(s[1..])
  }

  lemma EscapePair(s: string)
    ensures EscapeName("::" + s) == ":_:" + EscapeName(s)
  {
    assert ("::" + s)[2..] == s;
  }

  lemma EscapeSingle(c: char, s: string)
    requires c != ':' || s == [] || s[0] != ':'
    ensures EscapeName([c] + s) == [c] + EscapeName(s)
  {
    assert !SeparatorAt([c] + s, 0) && ([c] + s)[1..] == s;
  }

  lemma EscapeReplaced(s: string)
    requires s == [] || s[0] != ':'
    ensures EscapeName(":_:" + s) == ":_:" + EscapeName(s)
  {
    EscapeSingle(':', s);
    EscapeSingle('_', ":" + s);
    EscapeSingle(':', "_" + (":" + s));
    assert ":_:" + s == ":" + ("_" + (":" + s));
  }

  /** The other name: one separator written as its replacement, or the other way round. */
  lemma {:induction false} Partner(t: string) returns (s: string)
    requires Ambiguous(t)
    ensures s != t && EscapeName(s) == EscapeName(t)
    decreases |t|
  {
    if SeparatorAt(t, 0) {
      assert t == "::" + t[2..];
      EscapePair(t[2..]);
      if |t| == 2 || t[2] != ':' {
        s := ":_:" + t[2..];
        EscapeReplaced(t[2..]);
      } else {
        var p := Partner(t[2..]);
        s := "::" + p;
        EscapePair(p);
        assert s[2..] == p;
      }
    } else if ReplacedAt(t, 0) && !SeparatorAt(t, 2) {
      assert t == ":_:" + t[3..];
      s := "::" + t[3..];
      EscapePair(t[3..]);
      EscapeReplaced(t[3..]);
    } else {
      var p := Partner(t[1..]);
      EscapeNameExactly(p);
      EscapeNameExactly(t[1..]);
      s := [t[0]] + p;
      EscapeSingle(t[0], p);
      assert t == [t[0]] + t[1..] && s[1..] == p;
    }
  }

  /** Where only `t` has a separator, no colon follows it. */
  lemma SeparatorThere(s: string, t: string)
    requires SeparatorAt(t, 0) && s != [] && !SeparatorAt(s, 0) && EscapeName(s) == EscapeName(t)
    ensures |t| == 2 || t[2] != ':'
  {
    var e := EscapeName(t);
    assert e == ":_:" + EscapeName(t[2..]);
    StartsReplaced(s, e);
    EscapeNameExactly(t[2..]);
    if |t| > 2 && t[2] == ':' {
      assert e[2..] == ":" + EscapeName(t[2..]);
      NoTwoColons(s[2..]);
    }
  }

  /** A name without a separator at its start, whose outcome starts like a separator's, starts that way itself. */
  lemma StartsReplaced(s: string, e: string)
    requires s != [] && !SeparatorAt(s, 0) && EscapeName(s) == e && ":_:" <= e
    ensures |s| > 2 && s[0] == ':' && s[1] == '_' && s[2] == ':' && EscapeName(s[2..]) == e[2..]
  {
    EscapeNameExactly(s[1..]);
    assert s[1] == '_' && s[1..][1..] == s[2..];
    EscapeNameExactly(s[2..]);
  }

  /** No outcome starts with two colons. */
  lemma NoTwoColons(s: string)
    ensures |EscapeName(s)| >= 2 ==> !(EscapeName(s)[0] == ':' && EscapeName(s)[1] == ':')
  {
    if s != [] && !SeparatorAt(s, 0) {
      EscapeNameExactly(s[1..]);
    }
  }

  /** Where only `s` has a separator, `t` has what it is replaced by, up to a separator that no colon follows. */
  lemma SeparatorHere(s: string, t: string)
    requires SeparatorAt(s, 0) && t != [] && !SeparatorAt(t, 0) && EscapeName(s) == EscapeName(t)
    ensures Ambiguous(t)
  {
    var e := EscapeName(s);
    assert e == ":_:" + EscapeName(s[2..]);
    StartsReplaced(t, e);
    if SeparatorAt(t, 2) {
      assert e[2..] == ":" + EscapeName(s[2..]);
      AfterReplaced(t[2..], s[2..]);
      assert t[2..][2..] == t[4..] && t[1..][1..] == t[2..];
      assert Ambiguous(t[1..]);
    }
  }

  lemma AfterReplaced(t: string, x: string)
    requires SeparatorAt(t, 0) && EscapeName(t) == ":" + EscapeName(x)
    ensures |t| == 2 || t[2] != ':'
  {
    var y := EscapeName(t[2..]);
    assert EscapeName(t) == ":_:" + y && EscapeName(t)[1..] == "_:" + y;
    assert (":" + EscapeName(x))[1..] == EscapeName(x);
    EscapeNameExactly(t[2..]);
    AfterUnderscore(x, y);
    NoTwoColons(x[1..]);
  }

  lemma AfterUnderscore(x: string, y: string)
    requires EscapeName(x) == "_:" + y
    ensures x != [] && EscapeName(x[1..]) == ":" + y
  {
    EscapeNameExactly(x);
    assert x != [] && EscapeName(x)[0] == '_';
    assert !SeparatorAt(x, 0) && EscapeName(x)[1..] == EscapeName(x[1..]);
    assert ("_:" + y)[1..] == ":" + y;
  }

  lemma {:induction false} CollisionIsAmbiguous(s: string, t: string)
    requires s != t && EscapeName(s) == EscapeName(t)
    ensures Ambiguous(t)
    decreases |t|
  {
    EscapeNameExactly(s);
    EscapeNameExactly(t);
    assert s != [] && t != [];
    if SeparatorAt(t, 0) && !SeparatorAt(s, 0) {
      SeparatorThere(s, t);
    } else if SeparatorAt(s, 0) && !SeparatorAt(t, 0) {
      SeparatorHere(s, t);
    } else {
      var n := if SeparatorAt(t, 0) then 2 else 1;
      var m := if n == 2 then 3 else 1;
      assert EscapeName(s)[m..] == EscapeName(s[n..]) && EscapeName(t)[m..] == EscapeName(t[n..]);
      assert s == s[..n] + s[n..] && t == t[..n] + t[n..];
      CollisionIsAmbiguous(s[n..], t[n..]);
    }
  }

  /** Another name has the same outcome exactly when the name is ambiguous; for any other name none has. */
  lemma EscapeNameCollidesExactly(t: string)
    ensures (exists s :: s != t && EscapeName(s) == EscapeName(t)) <==> Ambiguous(t)
  {
    if Ambiguous(t) {
      var s := Partner(t);
    }
    if s :| s != t && EscapeName(s) == EscapeName(t) {
      CollisionIsAmbiguous(s, t);
    }
  }
}
