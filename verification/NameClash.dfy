/** When object and string variables get in each other's way, told from the recorded script alone. */
module NameClash {
  import opened Identifiers
  import opened Items
  import opened Paths
  import opened ScriptMeaning
  import opened VariableNames
  import opened Passes
  import opened ObjectPass
  import opened StringPass

  function Named(letterOrNumber: char -> bool, variables: map<string, string>, item: Item): map<string, string> {
    if item.target.Str? then WithName(letterOrNumber, variables, item.target.text) else variables
  }

  /** The names given by the time the first item of `items` is reached. */
  function NamedNext(letterOrNumber: char -> bool, variables: map<string, string>,
      items: seq<Item>): map<string, string> {
    if items == [] then variables else Named(letterOrNumber, variables, items[0])
  }

  /**
    No text of the items is sent under the name of an object declared before it. A declaration comes right before
    the first item of its object or, when the inserter is one behind, before the item before that.
   */
  ghost predicate Free(letterOrNumber: char -> bool, behind: bool, variables: map<string, string>, items: seq<Item>,
      texts: seq<string>)
    decreases |items|
  {
    items == [] ||
    var v := Named(letterOrNumber, variables, items[0]);
    && Unshadowed(items[0], texts, (if behind then NamedNext(letterOrNumber, v, items[1..]) else v).Values)
    && Free(letterOrNumber, behind, v, items[1..], texts)
  }

  // Texts are not affected by declarations.

  lemma {:induction false} TextsConcat(texts: seq<string>, a: seq<Item>, b: seq<Item>)
    ensures Texts(texts, a + b) == Texts(Texts(texts, a), b)
    decreases |a|
  {
    if a == [] {
      assert a + b == b;
    } else {
      assert (a + b)[1..] == a[1..] + b;
      TextsConcat(WithText(texts, a[0]), a[1..], b);
    }
  }

  lemma TextsOne(texts: seq<string>, item: Item)
    ensures Texts(texts, [item]) == WithText(texts, item)
  {
    assert [item][1..] == [];
  }

  lemma TextsInsert(texts: seq<string>, items: seq<Item>, position: int, item: Item)
    requires !SendsText(item)
    ensures Texts(texts, InsertAt(items, position, item)) == Texts(texts, items)
  {
    hide Texts;
    var p := if position < 0 then 0 else if position > |items| then |items| else position;
    var a, b := items[..p], items[p..];
    assert items == a + b;
    assert InsertAt(items, position, item) == a + ([item] + b);
    TextsConcat(texts, a, b);
    TextsConcat(texts, a, [item] + b);
    TextsConcat(Texts(texts, a), [item], b);
    TextsOne(Texts(texts, a), item);
  }

  lemma DeclarationSendsNothing(name: string, path: string)
    ensures !SendsText(ObjectDeclaration(name, path))
  {
    assert ObjectDeclaration(name, path).method_[0] == 'v';
  }

  lemma StepTexts(letterOrNumber: char -> bool, variables: map<string, string>, item: Item, rest: seq<Item>, o: Output)
    requires Recorded(item)
    ensures var s := ObjectStep(letterOrNumber, variables, item, rest, o);
      Texts([], AppendValid(s.output, s.item).items) == WithText(Texts([], o.items), item)
  {
    hide Texts, Choose, InsertAt, ObjectDeclaration;
    var s := ObjectStep(letterOrNumber, variables, item, rest, o);
    if item.target.Str? && item.target.text !in variables {
      var path := item.target.text;
      var name := Choose(letterOrNumber, path, variables.Values);
      DeclarationSendsNothing(name, path);
      TextsInsert([], o.items, o.itemIndex, ObjectDeclaration(name, path));
    }
    TextsConcat([], s.output.items, [s.item]);
    TextsOne(Texts([], s.output.items), s.item);
  }

  lemma {:induction false} PassTexts(letterOrNumber: char -> bool, variables: map<string, string>, input: seq<Item>,
      o: Output)
    requires AllRecorded(input)
    ensures Texts([], Pass(letterOrNumber, Objects(variables), input, o).items) == Texts(Texts([], o.items), input)
    decreases |input|
  {
    hide ObjectStep, AppendValid, Recorded, WithText;
    if input != [] {
      StepTexts(letterOrNumber, variables, input[0], input[1..], o);
      var s := ObjectStep(letterOrNumber, variables, input[0], input[1..], o);
      PassTexts(letterOrNumber, s.processor.variables, input[1..], AppendValid(s.output, s.item).Next());
    }
  }

  lemma DeclarationUnshadowed(init: seq<Item>, name: string, path: string, texts: seq<string>)
    requires ' ' !in name
    ensures AllUnshadowed(init + [ObjectDeclaration(name, path)], texts) <==> AllUnshadowed(init, texts)
    ensures Declared(init + [ObjectDeclaration(name, path)]) == Declared(init) + {name}
  {
    hide AllUnshadowed, Declared, ObjectDeclaration, Reads;
    var d := ObjectDeclaration(name, path);
    UnshadowedMore(init, d, texts);
    DeclarationSendsNothing(name, path);
    AppendItem(init, d);
    ReadsObjectDeclaration(name, path);
  }

  /** The declarations a step adds, if any. */
  function Added(letterOrNumber: char -> bool, variables: map<string, string>, item: Item): (r: seq<Item>)
    ensures |r| <= 1
  {
    if item.target.Str? && item.target.text !in variables
    then [ObjectDeclaration(Choose(letterOrNumber, item.target.text, variables.Values), item.target.text)] else []
  }

  lemma AddedUnshadowed(letterOrNumber: char -> bool, variables: map<string, string>, item: Item, init: seq<Item>,
      texts: seq<string>)
    requires Declared(init) == variables.Values && !letterOrNumber(' ')
    ensures var more := init + Added(letterOrNumber, variables, item);
      && (AllUnshadowed(more, texts) <==> AllUnshadowed(init, texts))
      && Declared(more) == Named(letterOrNumber, variables, item).Values
  {
    hide AllUnshadowed, Declared, ObjectDeclaration, Choose;
    if item.target.Str? && item.target.text !in variables {
      var path := item.target.text;
      var name := Choose(letterOrNumber, path, variables.Values);
      NewName(letterOrNumber, variables, path);
      DeclarationUnshadowed(init, name, path, texts);
      MoreValues(variables, path, name);
    } else {
      assert init + Added(letterOrNumber, variables, item) == init;
    }
  }

  /** The item with its target by name. */
  function ByName(letterOrNumber: char -> bool, variables: map<string, string>, item: Item): (r: Item)
  {
    if item.target.Str? then
      var path := item.target.text;
      item.(target := Var(WithName(letterOrNumber, variables, path)[path]))
    else item
  }

  lemma ByNameSame(letterOrNumber: char -> bool, variables: map<string, string>, item: Item, texts: seq<string>,
      before: set<string>)
    requires Recorded(item)
    ensures var r := ByName(letterOrNumber, variables, item);
      && (Unshadowed(r, texts, before) <==> Unshadowed(item, texts, before))
      && IsValid(r) && Reads(r).DeclaresNothing? && DeclaredBy(r) == {}
  {
    hide Choose, StringName;
  }

  /** With the inserter at or past the end, a declaration goes right before its item. */
  lemma AheadStep(letterOrNumber: char -> bool, variables: map<string, string>, item: Item, rest: seq<Item>, o: Output)
    requires Recorded(item) && o.itemIndex >= |o.items| && o.appendedItems == 0
    ensures var s := ObjectStep(letterOrNumber, variables, item, rest, o);
      var r := AppendValid(s.output, s.item).Next();
      && r.items == o.items + Added(letterOrNumber, variables, item) + [ByName(letterOrNumber, variables, item)]
      && r.itemIndex >= |r.items| && r.appendedItems == 0
      && s.processor == Objects(Named(letterOrNumber, variables, item))
  {
    hide Choose, ObjectDeclaration;
  }

  /** With the inserter one behind, it goes before the item before that. */
  lemma BehindStep(letterOrNumber: char -> bool, variables: map<string, string>, item: Item, rest: seq<Item>,
      o: Output, init: seq<Item>, last: seq<Item>)
    requires Recorded(item) && o.itemIndex == |o.items| - 1 && o.appendedItems == 0
    requires o.items == init + last && |last| <= 1 && (last == [] ==> init == [])
    ensures var s := ObjectStep(letterOrNumber, variables, item, rest, o);
      var r := AppendValid(s.output, s.item).Next();
      && r.items == init + Added(letterOrNumber, variables, item) + last + [ByName(letterOrNumber, variables, item)]
      && r.itemIndex == |r.items| - 1 && r.appendedItems == 0
      && s.processor == Objects(Named(letterOrNumber, variables, item))
  {
    hide Choose, ObjectDeclaration;
    assert last != [] ==> o.items[..|init|] == init && o.items[|init|..] == last;
  }

  lemma {:induction false} AheadFree(letterOrNumber: char -> bool, variables: map<string, string>, input: seq<Item>,
      o: Output, texts: seq<string>)
    requires AllRecorded(input) && !letterOrNumber(' ') && Declared(o.items) == variables.Values
    requires o.itemIndex >= |o.items| && o.appendedItems == 0
    ensures AllUnshadowed(Pass(letterOrNumber, Objects(variables), input, o).items, texts) <==>
      AllUnshadowed(o.items, texts) && Free(letterOrNumber, false, variables, input, texts)
    decreases |input|
  {
    hide AllUnshadowed, Unshadowed, Declared, Recorded, ObjectStep, Added, ByName, Named, DeclaredBy, Reads;
    if input != [] {
      var item, v := input[0], Named(letterOrNumber, variables, input[0]);
      AheadStep(letterOrNumber, variables, item, input[1..], o);
      AddedUnshadowed(letterOrNumber, variables, item, o.items, texts);
      var s := ObjectStep(letterOrNumber, variables, item, input[1..], o);
      var more, x := o.items + Added(letterOrNumber, variables, item), ByName(letterOrNumber, variables, item);
      UnshadowedMore(more, x, texts);
      AppendItem(more, x);
      ByNameSame(letterOrNumber, variables, item, texts, v.Values);
      AheadFree(letterOrNumber, v, input[1..], AppendValid(s.output, s.item).Next(), texts);
    }
  }

  lemma {:induction false} BehindFree(letterOrNumber: char -> bool, variables: map<string, string>, input: seq<Item>,
      o: Output, init: seq<Item>, last: Item, texts: seq<string>)
    requires AllRecorded(input) && !letterOrNumber(' ') && Declared(init) == variables.Values && DeclaredBy(last) == {}
    requires o.items == init + [last] && o.itemIndex == |o.items| - 1 && o.appendedItems == 0
    ensures AllUnshadowed(Pass(letterOrNumber, Objects(variables), input, o).items, texts) <==>
      && AllUnshadowed(init, texts) && Unshadowed(last, texts, NamedNext(letterOrNumber, variables, input).Values)
      && Free(letterOrNumber, true, variables, input, texts)
    decreases |input|
  {
    hide AllUnshadowed, Unshadowed, Declared, Recorded, ObjectStep, Added, ByName, Named, DeclaredBy, Reads;
    if input == [] {
      UnshadowedMore(init, last, texts);
    } else {
      var item, v := input[0], Named(letterOrNumber, variables, input[0]);
      BehindStep(letterOrNumber, variables, item, input[1..], o, init, [last]);
      AddedUnshadowed(letterOrNumber, variables, item, init, texts);
      var s := ObjectStep(letterOrNumber, variables, item, input[1..], o);
      var more, x := init + Added(letterOrNumber, variables, item), ByName(letterOrNumber, variables, item);
      UnshadowedMore(more, last, texts);
      AppendItem(more, last);
      ByNameSame(letterOrNumber, variables, item, texts, NamedNext(letterOrNumber, v, input[1..]).Values);
      BehindFree(letterOrNumber, v, input[1..], AppendValid(s.output, s.item).Next(), more + [last], x, texts);
    }
  }

  /** The list the object pass makes is free of clashes exactly when the recorded script is. */
  lemma ClashFreeExactly(letterOrNumber: char -> bool, input: seq<Item>, o: Output, texts: seq<string>)
    requires AllRecorded(input) && !letterOrNumber(' ') && o.items == [] && o.appendedItems == 0 && o.itemIndex >= -1
    ensures AllUnshadowed(Pass(letterOrNumber, Objects(map[]), input, o).items, texts) <==>
      Free(letterOrNumber, o.itemIndex < 0, map[], input, texts)
  {
    hide Unshadowed, Recorded, ObjectStep, Added, ByName, Named, DeclaredBy, Reads;
    var none: map<string, string> := map[];
    if o.itemIndex >= 0 {
      AheadFree(letterOrNumber, none, input, o, texts);
    } else if input != [] {
      var item, v := input[0], Named(letterOrNumber, none, input[0]);
      BehindStep(letterOrNumber, none, item, input[1..], o, [], []);
      AddedUnshadowed(letterOrNumber, none, item, [], texts);
      var s := ObjectStep(letterOrNumber, none, item, input[1..], o);
      var more, x := [] + Added(letterOrNumber, none, item), ByName(letterOrNumber, none, item);
      ByNameSame(letterOrNumber, none, item, texts, NamedNext(letterOrNumber, v, input[1..]).Values);
      assert AppendValid(s.output, s.item).Next().items == more + [x];
      BehindFree(letterOrNumber, v, input[1..], AppendValid(s.output, s.item).Next(), more, x, texts);
    }
  }

  /**
    Object and string variables together make of a recorded script one that does what its items ask for exactly when
    every name given is an identifier, every string printed can be read back, and no text is sent under the name of an
    object first mentioned by then. The object pass runs either first, with the inserter one behind, or later, with the
    inserter past the end.
   */
  lemma VariablesKeepMeaningExactly(lexicon: Lexicon, letterOrNumber: char -> bool, input: seq<Item>, o: Output)
    requires Standard(lexicon) && AllRecorded(input) && !letterOrNumber(' ')
    requires o.items == [] && o.appendedItems == 0 && o.itemIndex >= -1
    ensures var first := Pass(letterOrNumber, Objects(map[]), input, o);
      var second := Pass(letterOrNumber, Strings([]), first.items, first.Reset().Clear());
      Performed(lexicon, second.items) == DirectAll(input) <==>
        && Nameable(lexicon, letterOrNumber, input) && AllReadBack(input)
        && Free(letterOrNumber, o.itemIndex < 0, map[], input, Texts([], input))
  {
    hide Pass, Performed, AllUnshadowed, Free, AllRecorded, Standard, Nameable, AllReadBack;
    BothPassesKeepMeaningExactly(lexicon, letterOrNumber, input, o);
    PassTexts(letterOrNumber, map[], input, o);
    ClashFreeExactly(letterOrNumber, input, o, Texts([], input));
  }

  const CLASHING := Item(Str("string0"), "QLineEdit", "sendText", Str("hello"))

  lemma ClashingRecorded()
    ensures Recorded(CLASHING) && StringName(0) == "string0"
  {
    assert CLASHING.method_[0] == 's';
  }

  lemma Clashes(letterOrNumber: char -> bool, behind: bool)
    requires forall c | c in "string0" :: letterOrNumber(c)
    ensures AllRecorded([CLASHING]) && !Free(letterOrNumber, behind, map[], [CLASHING], Texts([], [CLASHING]))
  {
    hide Recorded, Named, StringName, Texts;
    ClashingRecorded();
    TextsOne([], CLASHING);
    NameOfClashing(letterOrNumber);
    var v := map["string0" := "string0"];
    assert v["string0"] in v.Values;
    assert [CLASHING][1..] == [];
    assert IndexOf(["hello"], "hello") == 0;
    assert !Unshadowed(CLASHING, ["hello"], v.Values);
  }

  lemma NameOfClashing(letterOrNumber: char -> bool)
    requires forall c | c in "string0" :: letterOrNumber(c)
    ensures Named(letterOrNumber, map[], CLASHING) == map["string0" := "string0"]
  {
    var none: map<string, string> := map[];
    assert none.Values == {};
    KeepsKeyword(letterOrNumber, "string0");
    FirstSeparatorIs("string0", 7);
    assert Choose(letterOrNumber, "string0", {}) == "string0";
  }

  /** A text sent to an object called string0: the object, not the text, is what the call gets. */
  lemma ClashingName(lexicon: Lexicon, letterOrNumber: char -> bool, o: Output)
    requires Standard(lexicon) && (forall c | c in "string0" :: letterOrNumber(c)) && !letterOrNumber(' ')
    requires o.items == [] && o.appendedItems == 0 && o.itemIndex >= -1
    ensures var first := Pass(letterOrNumber, Objects(map[]), [CLASHING], o);
      var second := Pass(letterOrNumber, Strings([]), first.items, first.Reset().Clear());
      AllRecorded([CLASHING]) && Performed(lexicon, second.items) != DirectAll([CLASHING])
  {
    hide Pass, Performed, Free, AllRecorded, Texts, Standard, Nameable, AllReadBack;
    Clashes(letterOrNumber, o.itemIndex < 0);
    VariablesKeepMeaningExactly(lexicon, letterOrNumber, [CLASHING], o);
  }
}
