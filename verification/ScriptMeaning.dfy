/** What a list of items does when its statements are carried out in order. */
module ScriptMeaning {
  import opened Identifiers
  import opened Items
  import opened Literals
  import opened Printing

  /** What an expression stands for. */
  datatype Thing = Undefined | Object(path: string) | Data(value: Value)

  datatype Call = Call(target: Thing, method_: string, argument: Thing)

  /** The variable a statement declares, and what it is set to. */
  datatype Declaration = Declares(name: string, thing: Thing) | DeclaresNothing

  type Environment = map<string, Thing>

  const VAR := "var "
  const FROM_PATH := " = objectFromPath"
  const QUOTE := " = \""

  function Word(s: string): (w: string)
    ensures w <= s && ' ' !in w
    ensures |w| < |s| ==> s[|w|] == ' '
  {
    if s == [] || s[0] == ' ' then [] else
      var w := Word(s[1..]);
      [s[0]] + w
  }

  lemma {:induction false} WordIs(w: string, rest: string)
    requires ' ' !in w && rest != [] && rest[0] == ' '
    ensures Word(w + rest) == w
  {
    if w != [] {
      assert (w + rest)[1..] == w[1..] + rest;
      WordIs(w[1..], rest);
    }
  }

  /** A statement whose text starts with `var` is a declaration, of an object or of a string literal. */
  function Reads(item: Item): (d: Declaration)
  {
    if !(VAR <= item.method_) then DeclaresNothing
    else
      var text := item.method_[|VAR|..];
      var name := Word(text);
      Declares(name, Initial(text[|name|..], item.parameters))
  }

  /** What follows the name, with the parameters of the statement. */
  function Initial(rest: string, parameters: Value): Thing {
    if rest == FROM_PATH && parameters.Str? then Object(parameters.text)
    else if QUOTE <= rest && parameters.Null? then
      var literal := ReadLiteral(rest[|QUOTE|..]);
      if literal.Literal? && literal.rest == "" then Data(Str(literal.text)) else Undefined
    else Undefined
  }

  lemma ReadsParts(item: Item, name: string, rest: string)
    requires item.method_ == VAR + name + rest && ' ' !in name && rest != [] && rest[0] == ' '
    ensures Reads(item) == Declares(name, Initial(rest, item.parameters))
  {
    hide Word, Initial;
    var text := name + rest;
    assert item.method_ == VAR + text;
    assert item.method_[..|VAR|] == VAR && item.method_[|VAR|..] == text;
    WordIs(name, rest);
    assert text[|name|..] == rest;
  }

  function Lookup(env: Environment, name: string): Thing {
    if name in env then env[name] else Undefined
  }

  function Target(target: Value, env: Environment): Thing {
    match target
    case Str(path) => Object(path)
    case Var(name) => Lookup(env, name)
    case _ => Data(target)
  }

  function Argument(parameters: Value, env: Environment): Thing {
    if parameters.Var? then Lookup(env, parameters.name) else Data(parameters)
  }

  function Bind(item: Item, env: Environment): Environment {
    var d := Reads(item);
    if d.Declares? then env[d.name := d.thing] else env
  }

  function Effect(item: Item, env: Environment): (calls: seq<Call>)
  {
    if Reads(item).Declares? then []
    else [Call(Target(item.target, env), item.method_, Argument(item.parameters, env))]
  }

  /** The variables after the items. */
  function After(items: seq<Item>): Environment {
    if items == [] then map[] else Bind(items[|items| - 1], After(items[..|items| - 1]))
  }

  /** The calls the items make, in order. */
  function Calls(items: seq<Item>): (calls: seq<Call>)
  {
    if items == [] then []
    else
      var init := items[..|items| - 1];
      Calls(init) + Effect(items[|items| - 1], After(init))
  }

  function DeclaredBy(item: Item): set<string> {
    var d := Reads(item);
    if d.Declares? then {d.name} else {}
  }

  function NameIn(value: Value): set<string> {
    if value.Var? then {value.name} else {}
  }

  function UsedBy(item: Item): set<string> {
    if Reads(item).Declares? then {} else NameIn(item.target) + NameIn(item.parameters)
  }

  function Declared(items: seq<Item>): (names: set<string>)
  {
    if items == [] then {} else Declared(items[..|items| - 1]) + DeclaredBy(items[|items| - 1])
  }

  function Used(items: seq<Item>): (names: set<string>)
  {
    if items == [] then {} else Used(items[..|items| - 1]) + UsedBy(items[|items| - 1])
  }

  /** No variable is declared twice, and each is declared before it is used. */
  predicate Scoped(items: seq<Item>) {
    items == [] ||
    var init, last := items[..|items| - 1], items[|items| - 1];
    Scoped(init) && UsedBy(last) <= Declared(init) && DeclaredBy(last) !! Declared(init)
  }

  lemma AppendItem(items: seq<Item>, item: Item)
    ensures After(items + [item]) == Bind(item, After(items))
    ensures Calls(items + [item]) == Calls(items) + Effect(item, After(items))
    ensures Declared(items + [item]) == Declared(items) + DeclaredBy(item)
    ensures Used(items + [item]) == Used(items) + UsedBy(item)
    ensures Scoped(items + [item]) <==>
      Scoped(items) && UsedBy(item) <= Declared(items) && DeclaredBy(item) !! Declared(items)
  {
    assert (items + [item])[..|items|] == items;
  }

  lemma InsertBeforeLast(items: seq<Item>, position: int, item: Item)
    requires items != [] && position < |items|
    ensures InsertAt(items, position, item) == InsertAt(items[..|items| - 1], position, item) + [items[|items| - 1]]
  {
  }

  lemma InsertAtEnd(items: seq<Item>, position: int, item: Item)
    requires items == [] || position >= |items|
    ensures InsertAt(items, position, item) == items + [item]
  {
  }

  /** A statement that neither declares nor uses a name is carried out the same whatever the name stands for. */
  lemma PassesBy(item: Item, env: Environment, name: string, thing: Thing)
    requires name !in DeclaredBy(item) + UsedBy(item)
    ensures Bind(item, env[name := thing]) == Bind(item, env)[name := thing]
    ensures Effect(item, env[name := thing]) == Effect(item, env)
  {
    hide Reads;
  }

  /** A declaration of a new name does no harm wherever it is inserted. */
  lemma {:induction false} InsertDeclaration(items: seq<Item>, position: int, item: Item)
    requires Reads(item).Declares? && Reads(item).name !in Declared(items) + Used(items)
    ensures var r := InsertAt(items, position, item); var d := Reads(item);
      && After(r) == After(items)[d.name := d.thing] && Calls(r) == Calls(items)
      && Declared(r) == Declared(items) + {d.name} && Used(r) == Used(items)
      && (Scoped(items) ==> Scoped(r))
  {
    hide Reads, InsertAt, After, Calls, Declared, Used, Scoped;
    if items == [] || position >= |items| {
      InsertAtEnd(items, position, item);
      AppendItem(items, item);
    } else {
      hide Bind, Effect, DeclaredBy, UsedBy;
      var init, last := items[..|items| - 1], items[|items| - 1];
      assert items == init + [last];
      AppendItem(init, last);
      InsertDeclaration(init, position, item);
      InsertBeforeLast(items, position, item);
      AppendItem(InsertAt(init, position, item), last);
      PassesBy(last, After(init), Reads(item).name, Reads(item).thing);
    }
  }

  /** The names in scope are those declared. */
  lemma {:induction false} AfterDeclared(items: seq<Item>)
    ensures After(items).Keys == Declared(items)
  {
    if items != [] {
      AfterDeclared(items[..|items| - 1]);
    }
  }

  lemma {:induction false} DeclaredAt(items: seq<Item>, name: string)
    ensures name in Declared(items) <==> exists i | 0 <= i < |items| :: name in DeclaredBy(items[i])
  {
    if items != [] {
      var init := items[..|items| - 1];
      DeclaredAt(init, name);
      assert forall i | 0 <= i < |init| :: init[i] == items[i];
    }
  }

  lemma {:induction false} DeclaredOnce(items: seq<Item>, name: string)
    requires Scoped(items)
    ensures forall i, j | 0 <= i < j < |items| :: name in DeclaredBy(items[i]) ==> name !in DeclaredBy(items[j])
  {
    hide DeclaredBy, UsedBy;
    if items != [] {
      var init := items[..|items| - 1];
      DeclaredOnce(init, name);
      DeclaredAt(init, name);
      forall i, j | 0 <= i < j < |items| && name in DeclaredBy(items[i]) ensures name !in DeclaredBy(items[j]) {
        assert init[i] == items[i];
        if j < |init| {
          assert init[j] == items[j];
        }
      }
    }
  }

  lemma {:induction false} DeclaredBefore(items: seq<Item>, k: nat, name: string)
    requires Scoped(items) && k < |items| && name in UsedBy(items[k])
    ensures exists i | 0 <= i < k :: name in DeclaredBy(items[i])
  {
    hide DeclaredBy, UsedBy;
    var init := items[..|items| - 1];
    if k < |init| {
      assert init[k] == items[k];
      DeclaredBefore(init, k, name);
      var i :| 0 <= i < k && name in DeclaredBy(init[i]);
      assert init[i] == items[i];
    } else {
      DeclaredAt(init, name);
      var i :| 0 <= i < |init| && name in DeclaredBy(init[i]);
      assert init[i] == items[i];
    }
  }

  /** In a scoped list every use has exactly one declaration, and it comes before. */
  lemma ScopedMeans(items: seq<Item>, k: nat, name: string)
    requires Scoped(items) && k < |items| && name in UsedBy(items[k])
    ensures exists i | 0 <= i < k :: name in DeclaredBy(items[i])
    ensures forall i, j | 0 <= i < j < |items| :: name in DeclaredBy(items[i]) ==> name !in DeclaredBy(items[j])
  {
    DeclaredBefore(items, k, name);
    DeclaredOnce(items, name);
  }

  // ----- What the engine makes of the text as a whole -----

  /** The strings of the statement can be read back; only a target that is not a variable is printed unescaped. */
  predicate Prints(item: Item) {
    ArgumentPrintable(item.parameters) && (item.target.Var? || TargetPrintable(item.target))
  }

  /** The statement is in the grammar: names are identifiers, strings are read back, a name is set to something. */
  predicate Parses(lexicon: Lexicon, item: Item) {
    && (Reads(item).Declares? ==> !Reads(item).thing.Undefined?)
    && (forall n | n in DeclaredBy(item) + UsedBy(item) :: Identifier(lexicon, n))
    && Prints(item)
  }

  predicate AllParse(lexicon: Lexicon, items: seq<Item>) {
    forall x | x in items :: Parses(lexicon, x)
  }

  /** The calls a script makes: none at all if any of its statements is a syntax error. */
  function Performed(lexicon: Lexicon, items: seq<Item>): (calls: seq<Call>)
  {
    if AllParse(lexicon, items) then Calls(items) else []
  }

  predicate AllPrint(items: seq<Item>) {
    forall x | x in items :: Prints(x)
  }

  /** In a scoped list of proper declarations, the names declared and the strings printed decide. */
  lemma {:induction false} ScopedParses(lexicon: Lexicon, items: seq<Item>)
    requires Scoped(items) && forall x | x in items && Reads(x).Declares? :: !Reads(x).thing.Undefined?
    ensures AllParse(lexicon, items) <==> AllPrint(items) && forall n | n in Declared(items) :: Identifier(lexicon, n)
  {
    hide Reads, Identifier, UsedBy, Prints;
    if items != [] {
      var init, last := items[..|items| - 1], items[|items| - 1];
      assert forall x :: x in items <==> x in init || x == last;
      ScopedParses(lexicon, init);
      assert AllParse(lexicon, items) <==> AllParse(lexicon, init) && Parses(lexicon, last);
      assert AllPrint(items) <==> AllPrint(init) && Prints(last);
      if AllParse(lexicon, init) && DeclaredBy(last) != {} {
        assert DeclaredBy(last) == {Reads(last).name};
      }
    }
  }
}
