/** The name given to the variable of an object path. */
module VariableNames {
  import opened Decimals
  import opened Paths

  /** `toKeyword`, for any notion of letter and number: everything else becomes an underscore. */
  function ToKeyword(letterOrNumber: char -> bool, s: string): (r: string)
    ensures |r| == |s|
    ensures forall i | 0 <= i < |s| && letterOrNumber(s[i]) :: r[i] == s[i]
    ensures forall i | 0 <= i < |s| && !letterOrNumber(s[i]) :: r[i] == '_'
  {
    if s == [] then [] else [if letterOrNumber(s[0]) then s[0] else '_'] + ToKeyword(letterOrNumber, s[1..])
  }

  /** A path of letters and numbers only is its own keyword. */
  lemma {:induction false} KeepsKeyword(letterOrNumber: char -> bool, s: string)
    requires forall c | c in s :: letterOrNumber(c)
    ensures ToKeyword(letterOrNumber, s) == s
  {
    if s != [] {
      assert s[0] in s;
      KeepsKeyword(letterOrNumber, s[1..]);
    }
  }

  function Numbered(name: string, count: nat): string {
    name + "_" + Print(count)
  }

  /** The first number from `count` on whose name is not in use. */
  function Unused(name: string, values: set<string>, count: nat): (r: nat)
    decreases |values|
  {
    if Numbered(name, count) in values then Unused(name, values - {Numbered(name, count)}, count + 1) else count
  }

  lemma NumberedInjective(name: string, i: nat, j: nat)
    requires Numbered(name, i) == Numbered(name, j)
    ensures i == j
  {
    assert Numbered(name, i)[|name| + 1..] == Print(i) && Numbered(name, j)[|name| + 1..] == Print(j);
    PrintInjective(i, j);
  }

  /** Among finitely many names in use some number is free, and the search finds the least. */
  lemma {:induction false} UnusedIsLeast(name: string, values: set<string>, count: nat)
    ensures Unused(name, values, count) >= count && Numbered(name, Unused(name, values, count)) !in values
    ensures forall i | count <= i < Unused(name, values, count) :: Numbered(name, i) in values
    decreases |values|
  {
    var taken := Numbered(name, count);
    if taken in values {
      UnusedIsLeast(name, values - {taken}, count + 1);
      var r := Unused(name, values, count);
      if Numbered(name, r) == taken {
        NumberedInjective(name, r, count);
      }
    }
  }

  /** The last part of the path; else with the part before it; else with the least free number from 2 on. */
  function Choose(letterOrNumber: char -> bool, path: string, values: set<string>): (name: string)
  {
    var parts := Split(path);
    var last := ToKeyword(letterOrNumber, parts[|parts| - 1]);
    if last !in values then last
    else
      var longer := if |parts| > 1 then ToKeyword(letterOrNumber, parts[|parts| - 2]) + "__" + last else last;
      if longer !in values then longer else Numbered(longer, Unused(longer, values, 2))
  }

  /** The name is new, and a single word of letters, numbers and underscores. */
  lemma ChooseIsNew(letterOrNumber: char -> bool, path: string, values: set<string>)
    ensures Choose(letterOrNumber, path, values) !in values
    ensures forall c | c in Choose(letterOrNumber, path, values) :: c == '_' || letterOrNumber(c) || IsDigit(c)
  {
    var parts := Split(path);
    var last := ToKeyword(letterOrNumber, parts[|parts| - 1]);
    var longer := if |parts| > 1 then ToKeyword(letterOrNumber, parts[|parts| - 2]) + "__" + last else last;
    UnusedIsLeast(longer, values, 2);
  }

  /** The search for a name in `process`; it comes to an end. */
  method ChooseName(letterOrNumber: char -> bool, path: string, values: set<string>) returns (name: string)
    ensures name == Choose(letterOrNumber, path, values)
  {
    hide Split, ToKeyword, Unused, Print;
    var parts := Split(path);
    name := ToKeyword(letterOrNumber, parts[|parts| - 1]);
    parts := parts[..|parts| - 1];
    if name in values {
      if parts != [] {
        name := ToKeyword(letterOrNumber, parts[|parts| - 1]) + "__" + name;
      }
      if name in values {
        var count := 2;
        ghost var free := Unused(name, values, 2);
        UnusedIsLeast(name, values, 2);
        while Numbered(name, count) in values
          invariant 2 <= count <= free
          decreases free - count
        {
          count := count + 1;
        }
        assert count == free;
        name := Numbered(name, count);
      }
    }
  }
}
