/** Which values, printed by `serialize` and `parametersString`, can be read back by a script engine. */
module Printing {
  import opened Wrappers
  import I = Identifiers
  import opened Decimals
  import opened Items
  import opened Literals

  /** The place marker of `QString::arg` at the start of `s`: a percent sign, perhaps L, one or two digits. */
  function MarkerNumber(s: string): (n: Option<nat>)
  {
    if s == [] || s[0] != '%' then None
    else
      var digits := if |s| > 1 && s[1] == 'L' then s[2..] else s[1..];
      if digits == [] || !IsDigit(digits[0]) then None
      else if |digits| > 1 && IsDigit(digits[1]) then Some(10 * DigitValue(digits[0]) + DigitValue(digits[1]))
      else Some(DigitValue(digits[0]))
  }

  /** Markers are the numbers below 100 behind a percent sign, with or without L. */
  lemma MarkerPrinted(n: nat, rest: string)
    requires n < 100 && (rest == [] || !IsDigit(rest[0]))
    ensures MarkerNumber("%" + Print(n) + rest) == Some(n) && MarkerNumber("%L" + Print(n) + rest) == Some(n)
  {
    hide MarkerNumber, IsDigit;
    if n < 10 {
      assert Print(n) == [Digit(n)];
      MarkerOne(Digit(n), rest);
    } else {
      assert Print(n) == [Digit(n / 10)] + [Digit(n % 10)];
      assert Print(n) + rest == [Digit(n / 10)] + ([Digit(n % 10)] + rest);
      MarkerTwo(Digit(n / 10), Digit(n % 10), rest);
    }
    assert "%" + Print(n) + rest == "%" + (Print(n) + rest) && "%L" + Print(n) + rest == "%L" + (Print(n) + rest);
  }

  lemma MarkerOne(d: char, rest: string)
    requires IsDigit(d) && (rest == [] || !IsDigit(rest[0]))
    ensures MarkerNumber("%" + ([d] + rest)) == Some(DigitValue(d)) == MarkerNumber("%L" + ([d] + rest))
  {
    assert ("%" + ([d] + rest))[1..] == [d] + rest == ("%L" + ([d] + rest))[2..];
  }

  lemma MarkerTwo(d: char, e: char, rest: string)
    requires IsDigit(d) && IsDigit(e)
    ensures var s, n := [d] + ([e] + rest), 10 * DigitValue(d) + DigitValue(e);
      MarkerNumber("%" + s) == Some(n) == MarkerNumber("%L" + s)
  {
    var s := [d] + ([e] + rest);
    assert ("%" + s)[1..] == s == ("%L" + s)[2..] && s[1] == e;
  }

  lemma MarkerExactly(s: string)
    ensures MarkerNumber(s).Some? <==>
      |s| > 1 && s[0] == '%' && (IsDigit(s[1]) || (s[1] == 'L' && |s| > 2 && IsDigit(s[2])))
  {
  }

  /** A marker in `s` that one of the `n` calls of `arg` replaces after `s` has been put in. */
  predicate Marked(s: string, n: nat) {
    exists i | 0 <= i < |s| :: MarkerNumber(s[i..]).Some? && MarkerNumber(s[i..]).value <= n
  }

  /** Wherever the marker stands. */
  lemma MarkedAnywhere(before: string, n: nat, rest: string, count: nat)
    requires n <= count && n < 100 && (rest == [] || !IsDigit(rest[0]))
    ensures Marked(before + "%" + Print(n) + rest, count)
  {
    var s := before + "%" + Print(n) + rest;
    assert s[|before|..] == "%" + Print(n) + rest;
    MarkerPrinted(n, rest);
  }

  /** A path that is printed between quotes as it is, with three calls of `arg`. */
  predicate RawPrintable(path: string) {
    !Marked(path, 3) && RawReadable(path)
  }

  predicate IsRaw(c: char) {
    c != '"' && c != '\\' && !IsLineTerminator(c)
  }

  predicate RawReadable(path: string) {
    forall c | c in path :: IsRaw(c)
  }

  /** A key of a parameter list is escaped, and printed with two calls of `arg`. */
  predicate KeyPrintable(key: string) {
    !HasSeparator(key) && !Marked(EscapeString(key), 2)
  }

  predicate IsName(s: string) {
    s != [] && forall c | c in s :: I.IsLetter(c)
  }

  /** A value inside a parameter list. Nothing, or a variable, would leave a hole there. */
  predicate Printable(value: Value)
    decreases value
  {
    match value
    case Null => false
    case Var(_) => false
    case Str(text) => !HasSeparator(text)
    case Map(entries) => forall k | k in entries :: KeyPrintable(k) && Printable(entries[k])
    case Nested(item) =>
      && IsName(item.method_) && TargetPrintable(item.target)
      && (item.parameters.Null? || Printable(item.parameters))
    case _ => true
  }

  /** A target that is not a variable is printed as a path, unescaped. */
  predicate TargetPrintable(target: Value) {
    target.Null? || (target.Str? && RawPrintable(target.text))
  }

  /** The parameters of a statement: none, a variable by name, or a value. */
  predicate ArgumentPrintable(parameters: Value) {
    parameters.Null? || parameters.Var? || Printable(parameters)
  }

  /** A path printed as it is reads back exactly when it holds no quote, no backslash and no line terminator. */
  lemma {:induction false} RawReadsBack(path: string, rest: string)
    ensures ReadLiteral(path + "\"" + rest) == Literal(path, rest) <==> RawReadable(path)
  {
    var s := path + "\"" + rest;
    if path == [] {
      assert s == "\"" + rest;
    } else {
      assert s[1..] == path[1..] + "\"" + rest;
      RawReadsBack(path[1..], rest);
      RawHead(path, rest);
    }
  }

  lemma RawHead(path: string, rest: string)
    requires path != []
    requires ReadLiteral(path[1..] + "\"" + rest) == Literal(path[1..], rest) <==> RawReadable(path[1..])
    ensures ReadLiteral(path + "\"" + rest) == Literal(path, rest) <==> RawReadable(path)
  {
    var s, c := path + "\"" + rest, path[0];
    assert s[0] == c && s[1..] == path[1..] + "\"" + rest;
    assert path == [c] + path[1..];
    assert forall d :: d in path <==> d == c || d in path[1..];
    assert RawReadable(path) <==> IsRaw(c) && RawReadable(path[1..]);
    if c == '\\' {
      BackslashShortens(s, path, rest);
    }
  }

  /** An escape stands for fewer characters than it has. */
  lemma BackslashShortens(s: string, path: string, rest: string)
    requires s == path + "\"" + rest && path != [] && path[0] == '\\'
    ensures ReadLiteral(s) != Literal(path, rest)
  {
    var r := ReadLiteral(s);
    if r.Literal? {
      LiteralLength(s[2..]);
    }
  }

  lemma {:induction false} LiteralLength(s: string)
    ensures var r := ReadLiteral(s); r.Literal? ==> |r.text| + |r.rest| + 1 <= |s|
    decreases |s|
  {
    if s != [] && !IsLineTerminator(s[0]) && s[0] != '"' {
      if s[0] != '\\' {
        LiteralLength(s[1..]);
      } else if |s| > 1 {
        LiteralLength(s[2..]);
      }
    }
  }
}
