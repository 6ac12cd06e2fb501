/** The object-variable pass keeps the meaning of a script. */
module ObjectPass {
  import opened Identifiers
  import opened Items
  import opened ScriptMeaning
  import opened Literals
  import opened Paths
  import opened Printing
  import opened VariableNames
  import opened Passes

  /** A recorded item: no variables yet, and a text where text is sent. */
  predicate Recorded(item: Item) {
    && IsName(item.method_) && !(VAR <= item.method_)
    && (item.target.Null? || item.target.Str?) && !item.parameters.Var?
    && (item.method_ == "sendText" ==> item.parameters.Str?)
  }

  predicate AllRecorded(items: seq<Item>) {
    forall i | 0 <= i < |items| :: Recorded(items[i])
  }

  /** What a recorded item asks for, variables aside. */
  function Direct(item: Item): Call {
    Call(if item.target.Str? then Object(item.target.text) else Data(item.target), item.method_, Data(item.parameters))
  }

  function DirectAll(items: seq<Item>): (calls: seq<Call>)
  {
    if items == [] then [] else [Direct(items[0])] + DirectAll(items[1..])
  }

  lemma RecordedEffect(item: Item, env: Environment)
    requires Recorded(item)
    ensures Reads(item) == DeclaresNothing && Effect(item, env) == [Direct(item)]
    ensures Bind(item, env) == env && DeclaredBy(item) == {} && UsedBy(item) == {}
  {
  }

  /** A recorded list does exactly what its items ask for. */
  lemma {:induction false} RecordedCalls(items: seq<Item>)
    requires AllRecorded(items)
    ensures Calls(items) == DirectAll(items)
  {
    hide Recorded, Direct;
    if items != [] {
      var init, last := items[..|items| - 1], items[|items| - 1];
      RecordedCalls(init);
      RecordedEffect(last, After(init));
      assert items == init + [last];
      DirectAppend(init, last);
    }
  }

  lemma {:induction false} DirectAppend(items: seq<Item>, item: Item)
    ensures DirectAll(items + [item]) == DirectAll(items) + [Direct(item)]
  {
    hide Direct;
    if items == [] {
      assert (items + [item])[1..] == [];
    } else {
      assert (items + [item])[1..] == items[1..] + [item];
      DirectAppend(items[1..], item);
    }
  }

  predicate Injective(variables: map<string, string>) {
    forall p, q | p in variables && q in variables && variables[p] == variables[q] :: p == q
  }

  /** The naming once every target of the items has a name. */
  function Naming(letterOrNumber: char -> bool, variables: map<string, string>, items: seq<Item>)
    : (r: map<string, string>)
    decreases |items|
  {
    if items == [] then variables
    else Naming(letterOrNumber,
                if items[0].target.Str? then WithName(letterOrNumber, variables, items[0].target.text) else variables,
                items[1..])
  }

  lemma WithNameInjective(letterOrNumber: char -> bool, variables: map<string, string>, path: string)
    requires Injective(variables)
    ensures Injective(WithName(letterOrNumber, variables, path))
  {
    ChooseIsNew(letterOrNumber, path, variables.Values);
    var r := WithName(letterOrNumber, variables, path);
    assert forall p | p in variables :: variables[p] in variables.Values && r[p] == variables[p];
  }

  /** Different paths get different names, whatever `toKeyword` makes equal. */
  lemma {:induction false} NamingInjective(letterOrNumber: char -> bool, variables: map<string, string>,
      items: seq<Item>)
    requires Injective(variables)
    ensures Injective(Naming(letterOrNumber, variables, items))
    ensures forall p | p in variables ::
      p in Naming(letterOrNumber, variables, items) && Naming(letterOrNumber, variables, items)[p] == variables[p]
    ensures forall i | 0 <= i < |items| && items[i].target.Str? ::
      items[i].target.text in Naming(letterOrNumber, variables, items)
    decreases |items|
  {
    hide Injective, Choose;
    if items != [] {
      var v := if items[0].target.Str? then WithName(letterOrNumber, variables, items[0].target.text) else variables;
      if items[0].target.Str? {
        WithNameInjective(letterOrNumber, variables, items[0].target.text);
      }
      NamingInjective(letterOrNumber, v, items[1..]);
      forall i | 0 <= i < |items| && items[i].target.Str?
        ensures items[i].target.text in Naming(letterOrNumber, v, items[1..])
      {
        if i > 0 {
          assert items[i] == items[1..][i - 1];
        }
      }
    }
  }

  /** What the string pass can be given: declarations of objects only, and a text where text is sent. */
  predicate Ready(item: Item) {
    && IsValid(item) && !item.parameters.Var?
    && (Reads(item).Declares? ==> Reads(item).thing.Object?)
    && (item.method_ == "sendText" ==> item.parameters.Str?)
  }

  predicate AllReady(items: seq<Item>) {
    forall x | x in items :: Ready(x)
  }

  /** The list built so far declares exactly the variables in use, each as its path, and uses no others. */
  ghost predicate Kept(variables: map<string, string>, items: seq<Item>) {
    && Scoped(items) && AllReady(items)
    && Declared(items) == variables.Values && Used(items) <= variables.Values
    && forall p | p in variables :: variables[p] in After(items) && After(items)[variables[p]] == Object(p)
  }

  lemma ReadsObjectDeclaration(name: string, path: string)
    requires ' ' !in name
    ensures Reads(ObjectDeclaration(name, path)) == Declares(name, Object(path))
  {
    ReadsParts(ObjectDeclaration(name, path), name, FROM_PATH);
  }

  lemma InsertReady(items: seq<Item>, position: int, item: Item)
    requires AllReady(items) && Ready(item)
    ensures AllReady(InsertAt(items, position, item))
  {
    hide Ready;
  }

  /** A path gets its variable, wherever the declaration is inserted. */
  lemma DeclareKeeps(variables: map<string, string>, items: seq<Item>, position: int, path: string, name: string)
    requires Kept(variables, items) && path !in variables && ' ' !in name && name !in variables.Values
    ensures var r := InsertAt(items, position, ObjectDeclaration(name, path));
      Kept(variables[path := name], r) && Calls(r) == Calls(items)
  {
    hide InsertAt, Scoped, After, Calls, Declared, Used, Ready, AllReady, ObjectDeclaration, Reads;
    ReadsObjectDeclaration(name, path);
    var d := ObjectDeclaration(name, path);
    InsertDeclaration(items, position, d);
    DeclarationReady(name, path);
    InsertReady(items, position, d);
    MoreValues(variables, path, name);
  }

  lemma MoreValues(variables: map<string, string>, path: string, name: string)
    requires path !in variables && name !in variables.Values
    ensures variables[path := name].Values == variables.Values + {name}
    ensures forall p | p in variables :: variables[p] != name
  {
    var v := variables[path := name];
    assert forall p | p in variables :: variables[p] in variables.Values && v[p] == variables[p];
    assert v[path] == name;
  }

  lemma NewName(letterOrNumber: char -> bool, variables: map<string, string>, path: string)
    requires !letterOrNumber(' ')
    ensures var name := Choose(letterOrNumber, path, variables.Values); name !in variables.Values && ' ' !in name
  {
    ChooseIsNew(letterOrNumber, path, variables.Values);
  }

  lemma DeclarationReady(name: string, path: string)
    requires ' ' !in name
    ensures Ready(ObjectDeclaration(name, path))
  {
    ReadsObjectDeclaration(name, path);
    assert ObjectDeclaration(name, path).method_[0] == 'v';
  }

  /** The item itself, with its target by name. */
  lemma ItemKeeps(variables: map<string, string>, items: seq<Item>, item: Item)
    requires Kept(variables, items) && Recorded(item) && (item.target.Str? ==> item.target.text in variables)
    ensures var r := if item.target.Str? then item.(target := Var(variables[item.target.text])) else item;
      Kept(variables, items + [r]) && IsValid(r) && Calls(items + [r]) == Calls(items) + [Direct(item)]
  {
    hide Scoped, After, Calls, Declared, Used;
    var r := if item.target.Str? then item.(target := Var(variables[item.target.text])) else item;
    AppendItem(items, r);
    assert Reads(r) == DeclaresNothing;
    assert AllReady(items + [r]);
    assert item.target.Str? ==> variables[item.target.text] in variables.Values;
  }

  lemma StepKeeps(letterOrNumber: char -> bool, variables: map<string, string>, item: Item, rest: seq<Item>, o: Output)
    requires Kept(variables, o.items) && Recorded(item) && !letterOrNumber(' ')
    ensures var s := ObjectStep(letterOrNumber, variables, item, rest, o); var r := AppendValid(s.output, s.item);
      && Kept(s.processor.variables, r.items) && Calls(r.items) == Calls(o.items) + [Direct(item)]
      && s.processor.variables ==
           if item.target.Str? then WithName(letterOrNumber, variables, item.target.text) else variables
  {
    hide Kept, Direct, Calls, Choose;
    if item.target.Str? {
      var path := item.target.text;
      if path !in variables {
        NewName(letterOrNumber, variables, path);
        DeclareKeeps(variables, o.items, o.itemIndex, path, Choose(letterOrNumber, path, variables.Values));
      }
      ItemKeeps(WithName(letterOrNumber, variables, path),
                ObjectStep(letterOrNumber, variables, item, rest, o).output.items, item);
    } else {
      ItemKeeps(variables, o.items, item);
    }
  }

  /** The pass from any point on, with any positions in the inserter. */
  lemma {:induction false} PassKeeps(letterOrNumber: char -> bool, variables: map<string, string>, input: seq<Item>,
      o: Output)
    requires Kept(variables, o.items) && AllRecorded(input) && !letterOrNumber(' ')
    ensures var r := Pass(letterOrNumber, Objects(variables), input, o).items;
      Kept(Naming(letterOrNumber, variables, input), r) && Calls(r) == Calls(o.items) + DirectAll(input)
    decreases |input|
  {
    hide Kept, Direct, Calls, Recorded, WithName, ObjectStep, AppendValid;
    if input != [] {
      StepKeeps(letterOrNumber, variables, input[0], input[1..], o);
      var s := ObjectStep(letterOrNumber, variables, input[0], input[1..], o);
      PassKeeps(letterOrNumber, s.processor.variables, input[1..], AppendValid(s.output, s.item).Next());
    }
  }

  /**
    From an empty list and with any positions in the inserter, the object-variable pass keeps the calls of a recorded
    list; its variables are declared once, before their first use, and name different paths.
   */
  lemma ObjectPassKeepsCalls(letterOrNumber: char -> bool, input: seq<Item>, o: Output)
    requires AllRecorded(input) && !letterOrNumber(' ') && o.items == []
    ensures var r := Pass(letterOrNumber, Objects(map[]), input, o).items;
      && Calls(r) == Calls(input) == DirectAll(input) && Scoped(r) && AllReady(r)
      && Declared(r) == Naming(letterOrNumber, map[], input).Values
    ensures Injective(Naming(letterOrNumber, map[], input))
  {
    var none: map<string, string> := map[];
    assert Kept(none, o.items);
    PassKeeps(letterOrNumber, none, input, o);
    RecordedCalls(input);
    NamingInjective(letterOrNumber, none, input);
  }

  /** Every name that the pass gives to a target of the items is an identifier. */
  predicate Nameable(lexicon: Lexicon, letterOrNumber: char -> bool, items: seq<Item>) {
    forall n | n in Naming(letterOrNumber, map[], items).Values :: Identifier(lexicon, n)
  }

  /** The strings that the compiled item prints can be read back; its path is escaped in a declaration. */
  predicate ReadsBack(item: Item) {
    (item.target.Str? ==> !HasSeparator(item.target.text)) && ArgumentPrintable(item.parameters)
  }

  predicate AllReadBack(items: seq<Item>) {
    forall x | x in items :: ReadsBack(x)
  }

  lemma ReadyParses(lexicon: Lexicon, items: seq<Item>)
    requires Scoped(items) && AllReady(items)
    ensures AllParse(lexicon, items) <==> AllPrint(items) && forall n | n in Declared(items) :: Identifier(lexicon, n)
  {
    hide Reads, Identifier, AllParse, Declared, Scoped, Prints;
    ScopedParses(lexicon, items);
  }

  lemma {:induction false} DirectLength(items: seq<Item>)
    ensures |DirectAll(items)| == |items|
  {
    if items != [] {
      DirectLength(items[1..]);
    }
  }

  // ----- The strings printed -----

  predicate PathsRead(variables: map<string, string>) {
    forall p | p in variables :: !HasSeparator(p)
  }

  lemma PrintInserted(items: seq<Item>, position: int, item: Item)
    ensures AllPrint(InsertAt(items, position, item)) <==> AllPrint(items) && Prints(item)
  {
    hide Prints;
    var p := if position < 0 then 0 else if position > |items| then |items| else position;
    assert items == items[..p] + items[p..];
  }

  lemma PrintAppended(items: seq<Item>, item: Item)
    ensures AllPrint(items + [item]) <==> AllPrint(items) && Prints(item)
  {
    hide Prints;
    assert forall x :: x in items + [item] <==> x in items || x == item;
  }

  lemma StepPrints(letterOrNumber: char -> bool, variables: map<string, string>, item: Item, rest: seq<Item>, o: Output)
    requires Recorded(item) && (AllPrint(o.items) ==> PathsRead(variables))
    ensures var s := ObjectStep(letterOrNumber, variables, item, rest, o); var r := AppendValid(s.output, s.item);
      && (AllPrint(r.items) <==> AllPrint(o.items) && ReadsBack(item))
      && (AllPrint(r.items) ==> PathsRead(s.processor.variables))
  {
    hide AllPrint, InsertAt, HasSeparator, Printable, Choose;
    var s := ObjectStep(letterOrNumber, variables, item, rest, o);
    if item.target.Str? && item.target.text !in variables {
      var path := item.target.text;
      PrintInserted(o.items, o.itemIndex, ObjectDeclaration(Choose(letterOrNumber, path, variables.Values), path));
      assert Printable(Str(item.target.text)) <==> !HasSeparator(item.target.text) by {
        TextPrintable(item.target.text);
      }
    }
    PrintAppended(s.output.items, s.item);
  }

  lemma TextPrintable(text: string)
    ensures Printable(Str(text)) <==> !HasSeparator(text)
  {
  }

  lemma {:induction false} PassPrints(letterOrNumber: char -> bool, variables: map<string, string>, input: seq<Item>,
      o: Output)
    requires AllRecorded(input) && (AllPrint(o.items) ==> PathsRead(variables))
    ensures AllPrint(Pass(letterOrNumber, Objects(variables), input, o).items) <==>
      AllPrint(o.items) && AllReadBack(input)
    decreases |input|
  {
    hide AllPrint, PathsRead, ReadsBack, Recorded, WithName, ObjectStep, AppendValid;
    if input != [] {
      StepPrints(letterOrNumber, variables, input[0], input[1..], o);
      var s := ObjectStep(letterOrNumber, variables, input[0], input[1..], o);
      PassPrints(letterOrNumber, s.processor.variables, input[1..], AppendValid(s.output, s.item).Next());
      assert input == [input[0]] + input[1..];
    }
  }

  /** The list of the pass is in the grammar exactly when names are identifiers and strings can be read back. */
  lemma PassParses(lexicon: Lexicon, letterOrNumber: char -> bool, input: seq<Item>, o: Output)
    requires AllRecorded(input) && !letterOrNumber(' ') && o.items == []
    ensures AllParse(lexicon, Pass(letterOrNumber, Objects(map[]), input, o).items) <==>
      Nameable(lexicon, letterOrNumber, input) && AllReadBack(input)
    ensures !Nameable(lexicon, letterOrNumber, input) || !AllReadBack(input) ==> DirectAll(input) != []
  {
    hide Identifier, AllParse, Declared, Scoped, Pass, AllRecorded, AllReady, Calls, DirectAll, ReadsBack;
    ObjectPassKeepsCalls(letterOrNumber, input, o);
    var none: map<string, string> := map[];
    PassPrints(letterOrNumber, none, input, o);
    ReadyParses(lexicon, Pass(letterOrNumber, Objects(none), input, o).items);
    DirectLength(input);
    assert input == [] ==> Naming(letterOrNumber, none, input).Values == {};
  }

  lemma ParsedReadsBack(lexicon: Lexicon, items: seq<Item>)
    requires AllRecorded(items)
    ensures AllParse(lexicon, items) ==> Performed(lexicon, items) == DirectAll(items) && AllReadBack(items)
  {
    hide Calls, DirectAll, Printable, Identifier, Marked;
    RecordedCalls(items);
    if AllParse(lexicon, items) {
      forall x | x in items ensures ReadsBack(x) {
        assert Parses(lexicon, x);
      }
    }
  }

  /**
    From an empty list and with any positions in the inserter, a script compiled with object variables does what the
    recorded items ask for exactly when every name it gives is an identifier and every string it prints can be read
    back; otherwise it is a syntax error. Against the same script compiled without, only the names matter.
   */
  lemma ObjectPassKeepsMeaningExactly(lexicon: Lexicon, letterOrNumber: char -> bool, input: seq<Item>, o: Output)
    requires AllRecorded(input) && !letterOrNumber(' ') && o.items == []
    ensures var r := Pass(letterOrNumber, Objects(map[]), input, o).items;
      && (Performed(lexicon, r) == DirectAll(input) <==>
            Nameable(lexicon, letterOrNumber, input) && AllReadBack(input))
      && (AllParse(lexicon, input) ==>
            (Performed(lexicon, r) == Performed(lexicon, input) <==> Nameable(lexicon, letterOrNumber, input)))
      && Scoped(r)
  {
    hide Identifier, Calls, AllParse, Declared, Scoped, Pass, AllRecorded, AllReady, DirectAll, AllReadBack, Nameable;
    ObjectPassKeepsCalls(letterOrNumber, input, o);
    PassParses(lexicon, letterOrNumber, input, o);
    ParsedReadsBack(lexicon, input);
  }

  const NUMBERED := Item(Str("2nd"), "QPushButton", "click", Null)

  /** A button called 2nd: its variable is no identifier, and the script does nothing. */
  lemma NumberedName(lexicon: Lexicon, letterOrNumber: char -> bool, o: Output)
    requires Standard(lexicon) && letterOrNumber('2') && letterOrNumber('n') && letterOrNumber('d')
    requires !letterOrNumber(' ') && o.items == []
    ensures AllRecorded([NUMBERED]) && DirectAll([NUMBERED]) == [Direct(NUMBERED)]
    ensures Performed(lexicon, Pass(letterOrNumber, Objects(map[]), [NUMBERED], o).items) == []
  {
    hide Pass, Calls;
    assert NUMBERED.method_[0] == 'c';
    DirectAppend([], NUMBERED);
    assert [] + [NUMBERED] == [NUMBERED];
    NumberedNaming(letterOrNumber);
    assert !Identifier(lexicon, "2nd");
    PassParses(lexicon, letterOrNumber, [NUMBERED], o);
  }

  const SEPARATED := Item(Str("a\U{2028}b"), "QPushButton", "click", Null)

  /** A button with U+2028 in its name: the path in the declaration ends its literal, and the script does nothing. */
  lemma SeparatedName(lexicon: Lexicon, letterOrNumber: char -> bool, o: Output)
    requires !letterOrNumber(' ') && o.items == []
    ensures AllRecorded([SEPARATED]) && DirectAll([SEPARATED]) == [Direct(SEPARATED)]
    ensures Performed(lexicon, Pass(letterOrNumber, Objects(map[]), [SEPARATED], o).items) == []
  {
    hide Pass, Calls, Nameable;
    assert SEPARATED.method_[0] == 'c';
    DirectAppend([], SEPARATED);
    assert [] + [SEPARATED] == [SEPARATED];
    var path := SEPARATED.target.text;
    assert path[1] in path && HasSeparator(path);
    assert !ReadsBack(SEPARATED) && SEPARATED in [SEPARATED];
    PassParses(lexicon, letterOrNumber, [SEPARATED], o);
  }

  lemma NumberedNaming(letterOrNumber: char -> bool)
    requires letterOrNumber('2') && letterOrNumber('n') && letterOrNumber('d')
    ensures "2nd" in Naming(letterOrNumber, map[], [NUMBERED]).Values
  {
    var none: map<string, string> := map[];
    assert none.Values == {};
    KeepsKeyword(letterOrNumber, "2nd");
    FirstSeparatorIs("2nd", 3);
    var v := WithName(letterOrNumber, none, "2nd");
    assert v["2nd"] == "2nd" && [NUMBERED][1..] == [];
  }
}
