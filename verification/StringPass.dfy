/** The string-variable pass: what it makes of a list, and exactly when that means the same. */
module StringPass {
  import opened Decimals
  import opened Identifiers
  import opened Items
  import opened Literals
  import opened Printing
  import opened ScriptMeaning
  import opened Passes
  import opened ObjectPass

  predicate SendsText(item: Item) {
    item.method_ == "sendText"
  }

  function WithText(texts: seq<string>, item: Item): (r: seq<string>)
    ensures texts <= r && (SendsText(item) ==> AsText(item.parameters) in r)
  {
    if SendsText(item) && AsText(item.parameters) !in texts then texts + [AsText(item.parameters)] else texts
  }

  /** The different texts that are sent, in the order they first appear. */
  function Texts(texts: seq<string>, items: seq<Item>): (r: seq<string>)
    ensures texts <= r
    decreases |items|
  {
    if items == [] then texts else Texts(WithText(texts, items[0]), items[1..])
  }

  lemma {:induction false} TextsHasAll(texts: seq<string>, items: seq<Item>)
    ensures forall x | x in items && SendsText(x) :: AsText(x.parameters) in Texts(texts, items)
    decreases |items|
  {
    if items != [] {
      var t := WithText(texts, items[0]);
      TextsHasAll(t, items[1..]);
      assert t <= Texts(t, items[1..]);
      assert forall x | x in items :: x == items[0] || x in items[1..];
      InPrefix(t, Texts(t, items[1..]));
    }
  }

  lemma InPrefix<T>(s: seq<T>, t: seq<T>)
    requires s <= t
    ensures forall x | x in s :: x in t
  {
    assert t == s + t[|s|..];
  }

  function Declarations(texts: seq<string>): (r: seq<Item>)
    ensures |r| == |texts|
  {
    seq(|texts|, k requires 0 <= k < |texts| => StringDeclaration(k, texts[k]))
  }

  function Rewrite(item: Item, texts: seq<string>): (r: Item)
  {
    if SendsText(item) && AsText(item.parameters) in texts
    then item.(parameters := Var(StringName(IndexOf(texts, AsText(item.parameters)))))
    else item
  }

  function RewriteAll(items: seq<Item>, texts: seq<string>): (r: seq<Item>)
    ensures |r| == |items|
  {
    seq(|items|, i requires 0 <= i < |items| => Rewrite(items[i], texts))
  }

  /** All string constants at the top, then the list with each text by the name of its constant. */
  function Hoisted(items: seq<Item>): (r: seq<Item>)
  {
    var texts := Texts([], items);
    Declarations(texts) + RewriteAll(items, texts)
  }

  lemma FirstOnly(s: seq<string>, i: nat, j: nat)
    requires i < |s| && j <= |s| && s[i] !in s[..j]
    ensures j <= i
  {
  }

  lemma IndexInPrefix(s: seq<string>, t: seq<string>, x: string)
    requires s <= t && x in s
    ensures x in t && IndexOf(t, x) == IndexOf(s, x)
  {
    InPrefix(s, t);
    var i, j := IndexOf(s, x), IndexOf(t, x);
    FirstOnly(t, i, j);
    FirstOnly(s, j, i);
  }

  lemma DeclareText(texts: seq<string>, body: seq<Item>, text: string)
    ensures InsertAt(Declarations(texts) + body, |texts|, StringDeclaration(|texts|, text))
         == Declarations(texts + [text]) + body
  {
    var d := Declarations(texts);
    assert Declarations(texts + [text]) == d + [StringDeclaration(|texts|, text)];
    assert (d + body)[..|texts|] == d && (d + body)[|texts|..] == body;
  }

  lemma StringStepIs(texts: seq<string>, body: seq<Item>, item: Item, rest: seq<Item>, o: Output)
    requires o.items == Declarations(texts) + body && o.originalStart == |texts|
    ensures var s := StringStep(texts, item, rest, o); var t := WithText(texts, item);
      && s.processor == Strings(t) && s.item == Rewrite(item, t)
      && s.output.items == Declarations(t) + body && s.output.originalStart == |t|
  {
    hide Declarations, InsertAt, StringDeclaration, StringName;
    if SendsText(item) {
      DeclareText(texts, body, AsText(item.parameters));
    }
  }

  /** The pass from any point on. */
  lemma {:induction false} StringPassFrom(letterOrNumber: char -> bool, texts: seq<string>, body: seq<Item>,
      input: seq<Item>, o: Output)
    requires o.items == Declarations(texts) + body && o.originalStart == |texts|
    requires forall x | x in input :: IsValid(x)
    ensures var t := Texts(texts, input);
      Pass(letterOrNumber, Strings(texts), input, o).items == Declarations(t) + (body + RewriteAll(input, t))
    decreases |input|
  {
    hide Declarations, StringStep, Rewrite;
    if input == [] {
      assert body + RewriteAll(input, texts) == body;
    } else {
      var item, rest := input[0], input[1..];
      var t, all := WithText(texts, item), Texts(texts, input);
      StringStepIs(texts, body, item, rest, o);
      var s := StringStep(texts, item, rest, o);
      RewriteSame(item, t, all);
      var more := body + [Rewrite(item, all)];
      assert IsValid(s.item);
      assert s.output.items + [s.item] == Declarations(t) + more;
      StringPassFrom(letterOrNumber, t, more, rest, AppendValid(s.output, s.item).Next());
      assert body + RewriteAll(input, all) == more + RewriteAll(rest, all);
    }
  }

  lemma RewriteSame(item: Item, t: seq<string>, all: seq<string>)
    requires t <= all && (SendsText(item) ==> AsText(item.parameters) in t)
    ensures Rewrite(item, t) == Rewrite(item, all) && (IsValid(item) ==> IsValid(Rewrite(item, all)))
  {
    if SendsText(item) {
      IndexInPrefix(t, all, AsText(item.parameters));
    }
  }

  /** From an empty list and with the inserter's beginning at 0, wherever its index is. */
  lemma StringPassIs(letterOrNumber: char -> bool, input: seq<Item>, o: Output)
    requires o.items == [] && o.originalStart == 0 && forall x | x in input :: IsValid(x)
    ensures Pass(letterOrNumber, Strings([]), input, o).items == Hoisted(input)
  {
    var none: seq<string> := [];
    assert o.items == Declarations(none) + [];
    StringPassFrom(letterOrNumber, none, [], input, o);
    var t := Texts(none, input);
    assert [] + RewriteAll(input, t) == RewriteAll(input, t);
  }

  // What the constants stand for.

  predicate Readable(text: string) {
    !HasSeparator(text)
  }

  function Constant(text: string): Thing {
    if Readable(text) then Data(Str(text)) else Undefined
  }

  lemma ReadsStringDeclaration(k: nat, text: string)
    ensures Reads(StringDeclaration(k, text)) == Declares(StringName(k), Constant(text))
  {
    hide ReadLiteral, EscapeString, HasSeparator, Print, Reads;
    var name, literal := StringName(k), EscapeString(text) + "\"";
    assert ' ' !in name by {
      assert AllDigits(Print(k));
    }
    var d, rest := StringDeclaration(k, text), QUOTE + literal;
    assert d.method_ == VAR + name + rest;
    ReadsParts(d, name, rest);
    assert rest[3] == '"' && FROM_PATH[3] == 'o';
    assert QUOTE <= rest && rest[|QUOTE|..] == literal;
    EscapeReadsBack(text, "");
    assert literal + "" == literal;
  }

  lemma StringNameInjective(i: nat, j: nat)
    requires StringName(i) == StringName(j)
    ensures i == j
  {
    assert StringName(i)[6..] == Print(i) && StringName(j)[6..] == Print(j);
    PrintInjective(i, j);
  }

  function StringNames(n: nat): (names: set<string>)
  {
    set k | 0 <= k < n :: StringName(k)
  }

  lemma StringNamesMore(n: nat)
    ensures StringNames(n + 1) == StringNames(n) + {StringName(n)} && StringName(n) !in StringNames(n)
  {
    forall k | 0 <= k < n ensures StringName(k) != StringName(n) {
      if StringName(k) == StringName(n) {
        StringNameInjective(k, n);
      }
    }
  }

  /** At the top, every constant is declared once and stands for its text. */
  ghost predicate Stand(texts: seq<string>) {
    var d := Declarations(texts);
    && Scoped(d) && Calls(d) == [] && Used(d) == {} && Declared(d) == StringNames(|texts|)
    && After(d).Keys == StringNames(|texts|)
    && forall k | 0 <= k < |texts| :: StringName(k) in After(d) && After(d)[StringName(k)] == Constant(texts[k])
  }

  lemma NoneStand()
    ensures Stand([])
  {
  }

  lemma {:induction false} DeclarationsStand(texts: seq<string>)
    ensures Stand(texts)
  {
    hide Stand;
    if texts == [] {
      NoneStand();
    } else {
      var n := |texts| - 1;
      DeclarationsStand(texts[..n]);
      DeclarationsMore(texts[..n], texts[n]);
      assert texts == texts[..n] + [texts[n]];
    }
  }

  lemma DeclarationsMore(init: seq<string>, text: string)
    requires Stand(init)
    ensures Stand(init + [text])
  {
    hide Scoped, Calls, Used, Declared, After, StringDeclaration, Reads, Constant, StringName, StringNames;
    var n := |init|;
    assert Declarations(init + [text]) == Declarations(init) + [StringDeclaration(n, text)];
    AppendItem(Declarations(init), StringDeclaration(n, text));
    ReadsStringDeclaration(n, text);
    StringNamesMore(n);
    InNames(n);
  }

  lemma InNames(n: nat)
    ensures forall k | 0 <= k < n :: StringName(k) in StringNames(n)
  {
  }

  // Below the constants, the list as it was.

  /** The text sent by the item is read back, and its constant's name is not taken by a declaration before it. */
  ghost predicate Unshadowed(item: Item, texts: seq<string>, before: set<string>) {
    SendsText(item) && AsText(item.parameters) in texts ==>
      Readable(AsText(item.parameters)) && StringName(IndexOf(texts, AsText(item.parameters))) !in before
  }

  /** Every text that is sent is readable, and no object variable declared before it has its constant's name. */
  ghost predicate AllUnshadowed(items: seq<Item>, texts: seq<string>) {
    forall i | 0 <= i < |items| :: Unshadowed(items[i], texts, Declared(items[..i]))
  }

  /** The constants overlaid with what the list itself declares. */
  ghost predicate Below(items: seq<Item>, texts: seq<string>) {
    var d := Declarations(texts);
    var r := d + RewriteAll(items, texts);
    && After(r) == After(d) + After(items) && Declared(r) == Declared(d) + Declared(items)
    && |Calls(r)| == |Calls(items)| && (Calls(r) == Calls(items) <==> AllUnshadowed(items, texts))
    && (Scoped(r) <==> Declared(d) !! Declared(items))
  }

  lemma RewriteReads(item: Item, texts: seq<string>)
    requires Ready(item)
    ensures Reads(Rewrite(item, texts)) == Reads(item)
    ensures Reads(item).Declares? ==> Rewrite(item, texts) == item && !SendsText(item)
  {
    if SendsText(item) {
      assert !(VAR <= item.method_);
    }
  }

  /** Overlaid with objects only, an item acts as before exactly when its text is not shadowed. */
  lemma RewriteActs(item: Item, texts: seq<string>, constants: Environment, env: Environment)
    requires Ready(item) && UsedBy(item) <= env.Keys && (forall n | n in env :: env[n].Object?)
    requires SendsText(item) ==> AsText(item.parameters) in texts
    requires forall k | 0 <= k < |texts| :: StringName(k) in constants && constants[StringName(k)] == Constant(texts[k])
    ensures var r := Rewrite(item, texts);
      && |Effect(r, constants + env)| == |Effect(item, env)|
      && (Effect(r, constants + env) == Effect(item, env) <==> Unshadowed(item, texts, env.Keys))
      && UsedBy(r) <= constants.Keys + env.Keys && DeclaredBy(r) == DeclaredBy(item)
      && Bind(r, constants + env) == constants + Bind(item, env)
  {
    hide Reads, StringName, Readable;
    RewriteReads(item, texts);
    if Reads(item).DeclaresNothing? {
      if item.target.Var? {
        assert item.target.name in UsedBy(item);
      }
    }
  }

  lemma {:induction false} ObjectsOnly(items: seq<Item>)
    requires AllReady(items)
    ensures forall n | n in After(items) :: After(items)[n].Object?
  {
    hide Reads;
    if items != [] {
      var init, last := items[..|items| - 1], items[|items| - 1];
      assert Ready(last);
      ObjectsOnly(init);
    }
  }

  lemma UnshadowedMore(init: seq<Item>, last: Item, texts: seq<string>)
    ensures AllUnshadowed(init + [last], texts) <==>
      AllUnshadowed(init, texts) && Unshadowed(last, texts, Declared(init))
  {
    hide Unshadowed, Declared;
    var items := init + [last];
    assert items[..|init|] == init;
    assert forall i | 0 <= i < |init| :: items[i] == init[i] && items[..i] == init[..i];
    if AllUnshadowed(items, texts) {
      assert Unshadowed(items[|init|], texts, Declared(items[..|init|]));
      forall i | 0 <= i < |init| ensures Unshadowed(init[i], texts, Declared(init[..i])) {
        assert Unshadowed(items[i], texts, Declared(items[..i]));
      }
    }
  }

  lemma BelowMore(init: seq<Item>, last: Item, texts: seq<string>)
    requires Below(init, texts) && Scoped(init + [last]) && AllReady(init + [last])
    requires SendsText(last) ==> AsText(last.parameters) in texts
    ensures Below(init + [last], texts)
  {
    hide Scoped, Calls, Used, Declared, After, Reads, Ready, Declarations, Rewrite, Effect, Bind, UsedBy, DeclaredBy,
      Unshadowed, AllUnshadowed, SendsText, StringName, Constant, StringNames;
    var d, x := Declarations(texts), Rewrite(last, texts);
    var r := d + RewriteAll(init, texts);
    assert RewriteAll(init + [last], texts) == RewriteAll(init, texts) + [x];
    assert d + RewriteAll(init + [last], texts) == r + [x];
    AppendItem(r, x);
    AppendItem(init, last);
    assert AllReady(init) && Ready(last) by {
      assert last in init + [last];
    }
    DeclarationsStand(texts);
    ObjectsOnly(init);
    AfterDeclared(init);
    AfterDeclared(d);
    RewriteActs(last, texts, After(d), After(init));
    UnshadowedMore(init, last, texts);
    ConcatEqual(Calls(r), Effect(x, After(r)), Calls(init), Effect(last, After(init)));
  }

  lemma ConcatEqual<T>(a: seq<T>, x: seq<T>, b: seq<T>, y: seq<T>)
    requires |a| == |b|
    ensures a + x == b + y <==> a == b && x == y
  {
    if a + x == b + y {
      assert a == (a + x)[..|a|] && x == (a + x)[|a|..];
      assert b == (b + y)[..|b|] && y == (b + y)[|b|..];
    }
  }

  lemma {:induction false} BelowHolds(items: seq<Item>, texts: seq<string>)
    requires Scoped(items) && AllReady(items)
    requires forall x | x in items && SendsText(x) :: AsText(x.parameters) in texts
    ensures Below(items, texts)
  {
    hide Below, Ready, SendsText;
    if items == [] {
      DeclarationsStand(texts);
      BelowNone(texts);
    } else {
      var init, last := items[..|items| - 1], items[|items| - 1];
      BelowHolds(init, texts);
      assert items == init + [last];
      BelowMore(init, last, texts);
    }
  }

  lemma BelowNone(texts: seq<string>)
    requires Stand(texts)
    ensures Below([], texts)
  {
    hide Declarations;
    var d := Declarations(texts);
    assert d + RewriteAll([], texts) == d;
    assert After(d) + After([]) == After(d);
  }

  /**
    The string-variable pass keeps the calls of a list exactly when every text that is sent has no line separator
    that a literal cannot hold, and no object variable declared before it has taken the name of its constant.
    Each variable is declared once and before its use exactly when the names do not meet at all.
   */
  lemma StringPassKeepsCallsExactly(items: seq<Item>)
    requires Scoped(items) && AllReady(items)
    ensures Calls(Hoisted(items)) == Calls(items) <==> AllUnshadowed(items, Texts([], items))
    ensures Scoped(Hoisted(items)) <==> Declared(items) !! StringNames(|Texts([], items)|)
  {
    hide Scoped, Calls, Declared, After, AllReady, Declarations, RewriteAll, AllUnshadowed, StringNames;
    var texts := Texts([], items);
    TextsHasAll([], items);
    DeclarationsStand(texts);
    BelowHolds(items, texts);
  }

  // ----- The text as a whole -----

  lemma {:induction false} TextsOnly(texts: seq<string>, items: seq<Item>, t: string)
    requires t in Texts(texts, items)
    ensures t in texts || exists x | x in items :: SendsText(x) && AsText(x.parameters) == t
    decreases |items|
  {
    hide SendsText;
    if items != [] {
      TextsOnly(WithText(texts, items[0]), items[1..], t);
    }
  }

  lemma StringNameIsIdentifier(lexicon: Lexicon, k: nat)
    requires Standard(lexicon)
    ensures Identifier(lexicon, StringName(k))
  {
    hide Identifier, Standard, Print;
    var name, digits := StringName(k), Print(k);
    assert AllDigits(digits) && digits[0] in digits && name[6] == digits[0];
    assert name == "string" + digits;
    NumberedIsIdentifier(lexicon, name);
  }

  lemma DeclarationParses(lexicon: Lexicon, k: nat, text: string)
    requires Standard(lexicon)
    ensures Parses(lexicon, StringDeclaration(k, text)) <==> Readable(text)
  {
    hide Identifier, Standard, Reads, Readable, StringName;
    ReadsStringDeclaration(k, text);
    StringNameIsIdentifier(lexicon, k);
  }

  /** A text is printed with the same escapes, whether as the value of its constant or in place. */
  lemma RewriteParses(lexicon: Lexicon, item: Item, texts: seq<string>)
    requires Standard(lexicon) && Ready(item) && (SendsText(item) ==> AsText(item.parameters) in texts)
    ensures Parses(lexicon, item) <==>
      Parses(lexicon, Rewrite(item, texts)) && (SendsText(item) ==> Readable(AsText(item.parameters)))
  {
    hide Identifier, Standard, Reads, StringName, HasSeparator, Printable, RawPrintable;
    RewriteReads(item, texts);
    if SendsText(item) {
      var k := IndexOf(texts, AsText(item.parameters));
      StringNameIsIdentifier(lexicon, k);
      TextPrintable(AsText(item.parameters));
      assert DeclaredBy(item) == {} && UsedBy(item) == NameIn(item.target);
      assert UsedBy(Rewrite(item, texts)) == NameIn(item.target) + {StringName(k)};
    }
  }

  /** The new list is in the grammar exactly when the old one is. */
  lemma HoistedParses(lexicon: Lexicon, items: seq<Item>)
    requires Standard(lexicon) && AllReady(items)
    ensures AllParse(lexicon, Hoisted(items)) <==> AllParse(lexicon, items)
  {
    hide Parses, Readable, SendsText, Ready, Standard, Rewrite, StringDeclaration, Texts;
    var texts := Texts([], items);
    TextsHasAll([], items);
    var d, r := Declarations(texts), RewriteAll(items, texts);
    forall k | 0 <= k < |texts| ensures d[k] in d && (Parses(lexicon, d[k]) <==> Readable(texts[k])) {
      DeclarationParses(lexicon, k, texts[k]);
    }
    forall i | 0 <= i < |items|
      ensures r[i] in r
      ensures Parses(lexicon, items[i]) <==>
        Parses(lexicon, r[i]) && (SendsText(items[i]) ==> Readable(AsText(items[i].parameters)))
    {
      RewriteParses(lexicon, items[i], texts);
    }
    assert AllParse(lexicon, d + r) <==> AllParse(lexicon, d) && AllParse(lexicon, r);
    assert AllParse(lexicon, d) <==> forall k | 0 <= k < |texts| :: Readable(texts[k]);
    if AllParse(lexicon, items) {
      forall k | 0 <= k < |texts| ensures Readable(texts[k]) {
        TextsOnly([], items, texts[k]);
      }
    }
    if AllParse(lexicon, d) && AllParse(lexicon, r) {
      forall x | x in items ensures Parses(lexicon, x) {
        var i :| 0 <= i < |items| && items[i] == x;
        if SendsText(x) {
          var k :| 0 <= k < |texts| && texts[k] == AsText(x.parameters);
          assert Readable(texts[k]);
        }
      }
    }
  }

  /**
    A script in the grammar does the same after the string-variable pass exactly when no object variable declared before
    a text has taken the name of its constant. Each variable is declared once and before its use exactly when the names
    do not meet at all.
   */
  lemma StringPassKeepsMeaningExactly(lexicon: Lexicon, items: seq<Item>)
    requires Standard(lexicon) && Scoped(items) && AllReady(items)
    ensures Performed(lexicon, Hoisted(items)) == Performed(lexicon, items) <==>
      (AllParse(lexicon, items) ==> AllUnshadowed(items, Texts([], items)))
    ensures Scoped(Hoisted(items)) <==> Declared(items) !! StringNames(|Texts([], items)|)
  {
    hide Standard, Scoped, AllReady, Hoisted, Calls, AllParse, AllUnshadowed, Declared, StringNames, Texts, Readable;
    StringPassKeepsCallsExactly(items);
    HoistedParses(lexicon, items);
  }

  /** Without object variables the pass changes nothing that a script does. */
  lemma StringPassOnRecorded(lexicon: Lexicon, items: seq<Item>)
    requires Standard(lexicon) && AllRecorded(items)
    ensures Performed(lexicon, Hoisted(items)) == Performed(lexicon, items) && Scoped(Hoisted(items))
  {
    hide Calls, Hoisted, Readable, SendsText, StringName, StringNames, Standard, Performed, Texts, Parses;
    RecordedScoped(items);
    StringPassKeepsMeaningExactly(lexicon, items);
    if AllParse(lexicon, items) {
      forall i | 0 <= i < |items| ensures Unshadowed(items[i], Texts([], items), Declared(items[..i])) {
        RecordedScoped(items[..i]);
        assert items[i] in items;
        if SendsText(items[i]) {
          SentReadable(lexicon, items[i]);
        }
      }
    }
  }

  lemma SentReadable(lexicon: Lexicon, item: Item)
    requires Parses(lexicon, item) && Recorded(item) && SendsText(item)
    ensures Readable(AsText(item.parameters))
  {
    TextPrintable(AsText(item.parameters));
  }

  lemma {:induction false} RecordedScoped(items: seq<Item>)
    requires AllRecorded(items)
    ensures Scoped(items) && Declared(items) == {} && AllReady(items)
  {
    hide Reads, UsedBy, DeclaredBy;
    if items != [] {
      var init, last := items[..|items| - 1], items[|items| - 1];
      RecordedScoped(init);
      RecordedEffect(last, map[]);
    }
  }

  /**
    Both passes, in order, on a recorded script: it does what the items ask for exactly when every name given is an
    identifier, every string printed can be read back, and the object pass has not put a variable of a constant's name
    before a use of that constant.
   */
  lemma BothPassesKeepMeaningExactly(lexicon: Lexicon, letterOrNumber: char -> bool, input: seq<Item>, o: Output)
    requires Standard(lexicon) && AllRecorded(input) && !letterOrNumber(' ') && o.items == []
    ensures var first := Pass(letterOrNumber, Objects(map[]), input, o);
      var second := Pass(letterOrNumber, Strings([]), first.items, first.Reset().Clear());
      Performed(lexicon, second.items) == DirectAll(input) <==>
        && Nameable(lexicon, letterOrNumber, input) && AllReadBack(input)
        && AllUnshadowed(first.items, Texts([], first.items))
  {
    hide Calls, Scoped, AllReady, Declared, Hoisted, AllUnshadowed, Texts, Pass, AllParse, Standard, AllRecorded,
      DirectAll, Nameable, AllReadBack;
    ObjectPassKeepsCalls(letterOrNumber, input, o);
    PassParses(lexicon, letterOrNumber, input, o);
    var first := Pass(letterOrNumber, Objects(map[]), input, o);
    ReadyValid(first.items);
    StringPassIs(letterOrNumber, first.items, first.Reset().Clear());
    StringPassKeepsMeaningExactly(lexicon, first.items);
    HoistedParses(lexicon, first.items);
  }

  lemma ReadyValid(items: seq<Item>)
    requires AllReady(items)
    ensures forall x | x in items :: IsValid(x)
  {
    hide Reads;
  }
}
