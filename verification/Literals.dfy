/** `escapeString`, and how a script engine reads a string literal (ECMA-262, section 7.8.4). */
module Literals {

  /** `QString::replace`, for a one-character pattern. */
  function Replace(s: string, c: char, after: string): (r: string)
  {
    if s == [] then [] else (if s[0] == c then after else [s[0]]) + Replace(s[1..], c, after)
  }

  function EscapeString(s: string): (r: string)
  {
    Replace(Replace(Replace(Replace(s, '\\', "\\\\"), '"', "\\\""), '\r', "\\r"), '\n', "\\n")
  }

  /** A double-quoted literal read after its opening quote, and what follows its closing quote. */
  datatype Literal = Literal(text: string, rest: string) | Malformed

  /** The line terminators of section 7.3 that `escapeString` leaves alone. */
  predicate IsSeparator(c: char) {
    c == '\U{2028}' || c == '\U{2029}'
  }

  predicate HasSeparator(s: string) {
    exists c | c in s :: IsSeparator(c)
  }

  lemma SeparatorIn(s: string)
    requires s != []
    ensures HasSeparator(s) <==> IsSeparator(s[0]) || HasSeparator(s[1..])
  {
    assert s == [s[0]] + s[1..];
    assert forall c :: c in s <==> c == s[0] || c in s[1..];
  }

  predicate IsLineTerminator(c: char) {
    c == '\n' || c == '\r' || IsSeparator(c)
  }

  /** The literal's text up to its closing quote; only the escapes that `escapeString` writes are known. */
  function ReadLiteral(s: string): (r: Literal)
  {
    if s == [] || IsLineTerminator(s[0]) then Malformed
    else if s[0] == '"' then Literal([], s[1..])
    else if s[0] != '\\' then Prepend(s[0], ReadLiteral(s[1..]))
    else if |s| == 1 then Malformed
    else if s[1] == '"' || s[1] == '\\' then Prepend(s[1], ReadLiteral(s[2..]))
    else if s[1] == 'r' then Prepend('\r', ReadLiteral(s[2..]))
    else if s[1] == 'n' then Prepend('\n', ReadLiteral(s[2..]))
    else Malformed
  }

  function Prepend(c: char, r: Literal): Literal {
    if r.Malformed? then Malformed else Literal([c] + r.text, r.rest)
  }

  lemma {:induction false} ReplaceConcat(s: string, t: string, c: char, after: string)
    ensures Replace(s + t, c, after) == Replace(s, c, after) + Replace(t, c, after)
  {
    if s == [] {
      assert s + t == t;
    } else {
      assert (s + t)[1..] == s[1..] + t;
      ReplaceConcat(s[1..], t, c, after);
    }
  }

  /** What the four replacements make of one character. */
  function EscapedChar(c: char): (r: string)
  {
    if c == '\\' then "\\\\" else if c == '"' then "\\\"" else if c == '\r' then "\\r"
    else if c == '\n' then "\\n" else [c]
  }

  lemma ReplaceOne(d: char, c: char, after: string)
    ensures Replace([d], c, after) == if d == c then after else [d]
  {
    assert [d][1..] == [];
  }

  lemma ReplaceTwo(d: char, e: char, c: char, after: string)
    requires d != c && e != c
    ensures Replace([d, e], c, after) == [d, e]
  {
    ReplaceConcat([d], [e], c, after);
    ReplaceOne(d, c, after);
    ReplaceOne(e, c, after);
  }

  lemma EscapeOne(c: char)
    ensures EscapeString([c]) == EscapedChar(c)
  {
    hide Replace;
    ReplaceOne(c, '\\', "\\\\");
    ReplaceOne(c, '"', "\\\"");
    ReplaceOne(c, '\r', "\\r");
    ReplaceOne(c, '\n', "\\n");
    ReplaceTwo('\\', '\\', '"', "\\\"");
    ReplaceTwo('\\', '\\', '\r', "\\r");
    ReplaceTwo('\\', '\\', '\n', "\\n");
    ReplaceTwo('\\', '"', '\r', "\\r");
    ReplaceTwo('\\', '"', '\n', "\\n");
    ReplaceTwo('\\', 'r', '\n', "\\n");
  }

  lemma EscapeHead(s: string)
    requires s != []
    ensures EscapeString(s) == EscapedChar(s[0]) + EscapeString(s[1..])
  {
    var h, t := [s[0]], s[1..];
    assert s == h + t;
    EscapeOne(s[0]);
    ReplaceConcat(h, t, '\\', "\\\\");
    var h1, t1 := Replace(h, '\\', "\\\\"), Replace(t, '\\', "\\\\");
    ReplaceConcat(h1, t1, '"', "\\\"");
    var h2, t2 := Replace(h1, '"', "\\\""), Replace(t1, '"', "\\\"");
    ReplaceConcat(h2, t2, '\r', "\\r");
    ReplaceConcat(Replace(h2, '\r', "\\r"), Replace(t2, '\r', "\\r"), '\n', "\\n");
  }

  /** A text survives being escaped and read back exactly when it holds no U+2028 or U+2029. */
  lemma {:induction false} EscapeReadsBack(s: string, rest: string)
    ensures ReadLiteral(EscapeString(s) + "\"" + rest)
         == if HasSeparator(s) then Malformed else Literal(s, rest)
  {
    hide ReadLiteral, EscapeString, EscapedChar, HasSeparator, IsSeparator;
    if s == [] {
      NothingReadsBack(rest);
    } else {
      EscapeReadsBack(s[1..], rest);
      EscapeHead(s);
      var e, tail := EscapedChar(s[0]), EscapeString(s[1..]) + "\"" + rest;
      assert EscapeString(s) + "\"" + rest == e + tail;
      SeparatorIn(s);
      ReadEscaped(s[0], tail);
      assert s == [s[0]] + s[1..];
    }
  }

  lemma NothingReadsBack(rest: string)
    ensures ReadLiteral(EscapeString("") + "\"" + rest) == Literal("", rest) && !HasSeparator("")
  {
    assert EscapeString("") + "\"" + rest == "\"" + rest;
  }

  lemma ReadEscaped(c: char, tail: string)
    ensures ReadLiteral(EscapedChar(c) + tail) == if IsSeparator(c) then Malformed else Prepend(c, ReadLiteral(tail))
  {
    var e := EscapedChar(c);
    assert (e + tail)[|e|..] == tail;
  }
}
