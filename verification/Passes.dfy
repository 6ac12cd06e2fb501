/** The passes that rewrite the item list of a script, and the loop that runs them. */
module Passes {
  import opened Decimals
  import opened Items
  import opened Literals
  import opened VariableNames

  /** `QVariant::toString` and the like; what is of another type reads as empty or 0. */
  function AsText(v: Value): string {
    if v.Str? then v.text else ""
  }

  function AsInt(v: Value): int {
    if v.Int? then v.number else 0
  }

  function AsMap(v: Value): map<string, Value> {
    if v.Map? then v.entries else map[]
  }

  function Entry(entries: map<string, Value>, key: string): Value {
    if key in entries then entries[key] else Null
  }

  /** A pass, with what it remembers from item to item. */
  datatype Processor =
    | Internals
    | NoMoves
    | Moves
    | Keys
    | Objects(variables: map<string, string>)
    | Strings(texts: seq<string>)

  /** After one item: the pass, the item to append, the input left, the list built. */
  datatype Stepped = Stepped(processor: Processor, item: Item, rest: seq<Item>, output: Output)

  // Objects get a variable at their first mention.

  function ObjectDeclaration(name: string, path: string): Item {
    Statement("var " + name + " = objectFromPath", Str(path))
  }

  function WithName(letterOrNumber: char -> bool, variables: map<string, string>, path: string)
    : (r: map<string, string>)
    ensures path in r
  {
    if path in variables then variables else variables[path := Choose(letterOrNumber, path, variables.Values)]
  }

  function ObjectStep(letterOrNumber: char -> bool, variables: map<string, string>, item: Item, rest: seq<Item>,
      o: Output): (s: Stepped)
    ensures s.rest == rest && s.processor.Objects?
  {
    if item.target.Null? || item.target.Var? then Stepped(Objects(variables), item, rest, o)
    else
      var path := AsText(item.target);
      var v := WithName(letterOrNumber, variables, path);
      var o' := if path in variables then o else o.Insert(ObjectDeclaration(v[path], path), BeforeCurrentItem);
      Stepped(Objects(v), item.(target := Var(v[path])), rest, o')
  }

  // Texts that are sent get a variable at the top of the script.

  function IndexOf<T(==)>(s: seq<T>, x: T): (i: nat)
    requires x in s
    ensures i < |s| && s[i] == x && x !in s[..i]
  {
    if s[0] == x then 0 else 1 + IndexOf(s[1..], x)
  }

  function StringName(position: nat): string {
    "string" + Print(position)
  }

  function StringDeclaration(position: nat, text: string): Item {
    Statement("var " + StringName(position) + " = \"" + EscapeString(text) + "\"", Null)
  }

  function StringStep(texts: seq<string>, item: Item, rest: seq<Item>, o: Output): (s: Stepped)
    ensures s.rest == rest && s.processor.Strings?
  {
    if item.method_ != "sendText" then Stepped(Strings(texts), item, rest, o)
    else
      var text := AsText(item.parameters);
      var t := if text in texts then texts else texts + [text];
      var o' := if text in texts then o else o.Insert(StringDeclaration(|texts|, text), Beginning);
      Stepped(Strings(t), item.(parameters := Var(StringName(IndexOf(t, text)))), rest, o')
  }

  // A run of mouse moves becomes one.

  /** After a run of moves: the last move's parameters, the time that passed, the item left over, the input left. */
  datatype Gathered = Gathered(parameters: map<string, Value>, duration: int, item: Item, rest: seq<Item>)

  function Gather(item: Item, target: Value, parameters: map<string, Value>, duration: int,
      rest: seq<Item>): (g: Gathered)
    ensures |g.rest| <= |rest|
    decreases |rest|
  {
    if rest == [] then Gathered(parameters, duration, item, [])
    else
      var msec := rest[0];
      var d := duration + AsInt(msec.parameters);
      if |rest| == 1 then Gathered(parameters, d, msec, [])
      else if rest[1].method_ != "moveMouse" || rest[1].target != target then Gathered(parameters, d, msec, rest[1..])
      else Gather(rest[1], target, AsMap(rest[1].parameters), d, rest[2..])
  }

  /** The single move: the last move's parameters, with the points and the time in place of `x` and `y`. */
  function MoveParameters(origin: map<string, Value>, last: map<string, Value>, duration: int): map<string, Value> {
    (last - {"x", "y"})[
      "originX" := Int(AsInt(Entry(origin, "x")))][
      "originY" := Int(AsInt(Entry(origin, "y")))][
      "destinationX" := Int(AsInt(Entry(last, "x")))][
      "destinationY" := Int(AsInt(Entry(last, "y")))][
      "duration" := Int(duration)]
  }

  function OneMove(first: Item, last: map<string, Value>, duration: int): Item {
    Item(first.target, first.targetClass, "moveMouse", Map(MoveParameters(AsMap(first.parameters), last, duration)))
  }

  function MoveStep(item: Item, rest: seq<Item>, o: Output): (s: Stepped)
    ensures |s.rest| <= |rest|
  {
    if item.method_ != "moveMouse" then Stepped(Moves, item, rest, o)
    else
      var g := Gather(item, item.target, AsMap(item.parameters), 0, rest);
      Stepped(Moves, g.item, g.rest, o.Insert(OneMove(item, g.parameters, g.duration), BeforeCurrentItem))
  }

  // Items are left out.

  const NO_ITEM := Statement("", Null)

  /** `takeFirst`; from an empty list, which the code does not guard against, nothing. */
  function First(list: seq<Item>): Item {
    if list == [] then NO_ITEM else list[0]
  }

  function Rest(list: seq<Item>): (r: seq<Item>)
    ensures |r| <= |list| && (list != [] ==> |r| < |list|)
  {
    if list == [] then [] else list[1..]
  }

  /** Items of a class that Qt uses internally go, with an item called msec behind them. */
  function FilterStep(item: Item, rest: seq<Item>, o: Output): (s: Stepped)
    ensures |s.rest| <= |rest|
  {
    if item.targetClass != "QShapedPixmapWidget" then Stepped(Internals, item, rest, o)
    else Stepped(Internals, NO_ITEM, if First(rest).method_ == "msec" then Rest(rest) else rest, o)
  }

  /** Moves and the sleeps behind them go. */
  function Strip(item: Item, rest: seq<Item>): (r: (Item, seq<Item>))
    ensures |r.1| <= |rest|
    decreases |rest|
  {
    if item.method_ != "moveMouse" then (item, rest)
    else if rest == [] then (NO_ITEM, [])
    else Strip(First(Rest(rest)), Rest(Rest(rest)))
  }

  function StripStep(item: Item, rest: seq<Item>, o: Output): (s: Stepped)
    ensures |s.rest| <= |rest|
  {
    var r := Strip(item, rest);
    Stepped(NoMoves, r.0, r.1, o)
  }

  // Keys that are pressed and released become a text that is sent.

  const KEY_BACKSPACE := 0x0100_0003
  const KEY_RETURN := 0x0100_0004
  const KEY_ENTER := 0x0100_0005
  const KEY_SHIFT := 0x0100_0020
  const SHIFT_MODIFIER := 0x0200_0000

  function AsEnum(v: Value): int {
    if v.Enum? then v.number else 0
  }

  /** No modifier but Shift. */
  predicate PlainKey(item: Item) {
    AsEnum(Entry(AsMap(item.parameters), "modifiers")) in {0, SHIFT_MODIFIER}
  }

  predicate IsPress(item: Item) {
    item.method_ == "pressKey"
  }

  predicate IsKey(item: Item) {
    IsPress(item) || item.method_ == "releaseKey"
  }

  /** The text once the key of the item has been pressed. */
  function Typed(text: string, item: Item): string {
    var parameters := AsMap(item.parameters);
    var key := AsEnum(Entry(parameters, "key"));
    if key == KEY_BACKSPACE then (if text == "" then "" else text[..|text| - 1])
    else if key == KEY_SHIFT then text
    else if key == KEY_RETURN || key == KEY_ENTER then text + "\n"
    else text + AsText(Entry(parameters, "text"))
  }

  /** After some keys: the text, the sleep before the item left over, that item, the input left. */
  datatype Typing = Typing(text: string, msec: Item, item: Item, rest: seq<Item>)

  /** The key stays as it is: it has a modifier, or no key of the same target follows its sleep. */
  predicate Stays(item: Item, target: Value, rest: seq<Item>) {
    || !PlainKey(item)
    || (IsPress(item) && (|rest| < 2 || !IsKey(rest[1]) || rest[1].target != target))
  }

  function Type(item: Item, target: Value, text: string, msec: Item, rest: seq<Item>): (t: Typing)
    ensures |t.rest| <= |rest|
    decreases |rest|
  {
    if Stays(item, target, rest) then Typing(text, msec, item, rest)
    else
      var more := if IsPress(item) then Typed(text, item) else text;
      if rest == [] then Typing(more, msec, item, rest)
      else
        var next, left := First(Rest(rest)), Rest(Rest(rest));
        if IsKey(next) then Type(next, target, more, rest[0], left) else Typing(more, rest[0], next, left)
  }

  function SendText(item: Item, text: string): Item {
    Item(item.target, item.targetClass, "sendText", Str(text))
  }

  function TextStep(item: Item, rest: seq<Item>, o: Output): (s: Stepped)
    ensures |s.rest| <= |rest|
  {
    if !IsPress(item) then Stepped(Keys, item, rest, o)
    else
      var t := Type(item, item.target, "", NO_ITEM, rest);
      var o' := if t.text == "" then o
        else o.Insert(SendText(item, t.text), BeforeCurrentItem).Insert(t.msec, BeforeCurrentItem);
      Stepped(Keys, t.item, t.rest, o')
  }

  function Step(letterOrNumber: char -> bool, p: Processor, item: Item, rest: seq<Item>, o: Output): (s: Stepped)
    ensures |s.rest| <= |rest|
  {
    match p
    case Internals => FilterStep(item, rest, o)
    case NoMoves => StripStep(item, rest, o)
    case Moves => MoveStep(item, rest, o)
    case Keys => TextStep(item, rest, o)
    case Objects(variables) => ObjectStep(letterOrNumber, variables, item, rest, o)
    case Strings(texts) => StringStep(texts, item, rest, o)
  }

  function AppendValid(o: Output, item: Item): Output {
    if IsValid(item) then o.Append(item) else o
  }

  /** A whole pass over the input. */
  function Pass(letterOrNumber: char -> bool, p: Processor, input: seq<Item>, o: Output): (r: Output)
    decreases |input|
  {
    if input == [] then o
    else
      var s := Step(letterOrNumber, p, input[0], input[1..], o);
      Pass(letterOrNumber, s.processor, s.rest, AppendValid(s.output, s.item).Next())
  }

  /** The passes one after the other, each on what the one before it made. */
  function PassAll(letterOrNumber: char -> bool, ps: seq<Processor>, input: seq<Item>, o: Output): (r: seq<Item>)
  {
    if ps == [] then input
    else
      var r := Pass(letterOrNumber, ps[0], input, o.Clear());
      PassAll(letterOrNumber, ps[1..], r.items, r.Reset())
  }

  class ObjectVariablesPostProcessor {
    const inserter: Inserter
    const letterOrNumber: char -> bool
    var variables: map<string, string>

    constructor (inserter: Inserter, letterOrNumber: char -> bool)
      ensures this.inserter == inserter && this.letterOrNumber == letterOrNumber && variables == map[]
    {
      this.inserter, this.letterOrNumber, variables := inserter, letterOrNumber, map[];
    }

    method Process(item: Item, rest: ItemList) returns (r: Item)
      requires rest != inserter.rootList
      modifies this, inserter, inserter.rootList
      ensures Stepped(Objects(variables), r, rest.items, inserter.Now())
           == old(ObjectStep(letterOrNumber, variables, item, rest.items, inserter.Now()))
    {
      r := item;
      if item.target.Null? || item.target.Var? {
        return;
      }
      var target := AsText(item.target);
      if target !in variables {
        var name := ChooseName(letterOrNumber, target, variables.Values);
        variables := variables[target := name];
        inserter.Insert(ObjectDeclaration(name, target), BeforeCurrentItem);
      }
      r := item.(target := Var(variables[target]));
    }
  }

  class StringVariablesPostProcessor {
    const inserter: Inserter
    var variables: seq<string>

    constructor (inserter: Inserter)
      ensures this.inserter == inserter && variables == []
    {
      this.inserter, variables := inserter, [];
    }

    method Process(item: Item, rest: ItemList) returns (r: Item)
      requires rest != inserter.rootList
      modifies this, inserter, inserter.rootList
      ensures Stepped(Strings(variables), r, rest.items, inserter.Now())
           == old(StringStep(variables, item, rest.items, inserter.Now()))
    {
      r := item;
      if item.method_ != "sendText" {
        return;
      }
      var value := AsText(item.parameters);
      if value !in variables {
        var position := |variables|;
        variables := variables + [value];
        inserter.Insert(StringDeclaration(position, value), Beginning);
      }
      r := item.(parameters := Var(StringName(IndexOf(variables, value))));
    }
  }

  class SimplifyMouseMovementsPostProcessor {
    const inserter: Inserter

    constructor (inserter: Inserter)
      ensures this.inserter == inserter
    {
      this.inserter := inserter;
    }

    method Process(item: Item, rest: ItemList) returns (r: Item)
      requires rest != inserter.rootList
      modifies rest, inserter, inserter.rootList
      ensures Stepped(Moves, r, rest.items, inserter.Now())
           == old(MoveStep(item, rest.items, inserter.Now()))
    {
      r := item;
      if item.method_ == "moveMouse" {
        var parameters, duration := AsMap(item.parameters), 0;
        ghost var whole := Gather(item, item.target, parameters, 0, rest.items);
        while rest.items != []
          invariant inserter.Now() == old(inserter.Now())
          invariant Gather(r, item.target, parameters, duration, rest.items) == whole
          decreases |rest.items|
        {
          var msec := rest.items[0];
          rest.items := rest.items[1..];
          duration := duration + AsInt(msec.parameters);
          if rest.items == [] {
            r := msec;
            break;
          }
          r := rest.items[0];
          rest.items := rest.items[1..];
          if r.method_ != "moveMouse" || r.target != item.target {
            rest.items := [r] + rest.items;
            r := msec;
            break;
          }
          parameters := AsMap(r.parameters);
        }
        assert whole == Gathered(parameters, duration, r, rest.items);
        inserter.Insert(OneMove(item, parameters, duration), BeforeCurrentItem);
      }
    }
  }

  class SimplifyStringsPostProcessor {
    const inserter: Inserter

    constructor (inserter: Inserter)
      ensures this.inserter == inserter
    {
      this.inserter := inserter;
    }

    method Process(item: Item, rest: ItemList) returns (r: Item)
      requires rest != inserter.rootList
      modifies rest, inserter, inserter.rootList
      ensures Stepped(Keys, r, rest.items, inserter.Now())
           == old(TextStep(item, rest.items, inserter.Now()))
    {
      r := item;
      if !IsPress(item) {
        return;
      }
      var text, msec := "", NO_ITEM;
      ghost var whole := Type(item, item.target, "", NO_ITEM, rest.items);
      while !Stays(r, item.target, rest.items)
        invariant inserter.Now() == old(inserter.Now())
        invariant Type(r, item.target, text, msec, rest.items) == whole
        decreases |rest.items|
      {
        if IsPress(r) {
          text := Typed(text, r);
        }
        if rest.items == [] {
          break;
        }
        msec := First(rest.items);
        rest.items := Rest(rest.items);
        r := First(rest.items);
        rest.items := Rest(rest.items);
        if !IsKey(r) {
          break;
        }
      }
      assert whole == Typing(text, msec, r, rest.items);
      if text != "" {
        inserter.Insert(SendText(item, text), BeforeCurrentItem);
        inserter.Insert(msec, BeforeCurrentItem);
      }
    }
  }

  class FilterQtInternalsPostProcessor {
    const internalClasses: set<string>

    constructor ()
      ensures internalClasses == {"QShapedPixmapWidget"}
    {
      internalClasses := {"QShapedPixmapWidget"};
    }

    method Process(item: Item, rest: ItemList, inserter: Inserter) returns (r: Item)
      requires rest != inserter.rootList && internalClasses == {"QShapedPixmapWidget"}
      modifies rest
      ensures Stepped(Internals, r, rest.items, inserter.Now())
           == old(FilterStep(item, rest.items, inserter.Now()))
    {
      r := item;
      if item.targetClass in internalClasses {
        r := NO_ITEM;
        if First(rest.items).method_ == "msec" {
          rest.items := Rest(rest.items);
        }
      }
    }
  }

  class StripMouseMovementsPostProcessor {
    constructor () {
    }

    method Process(item: Item, rest: ItemList, inserter: Inserter) returns (r: Item)
      requires rest != inserter.rootList
      modifies rest
      ensures Stepped(NoMoves, r, rest.items, inserter.Now())
           == old(StripStep(item, rest.items, inserter.Now()))
      decreases |rest.items|
    {
      r := item;
      if item.method_ == "moveMouse" {
        if rest.items != [] {
          rest.items := Rest(rest.items);
          r := First(rest.items);
          rest.items := Rest(rest.items);
          r := Process(r, rest, inserter);
        } else {
          r := NO_ITEM;
        }
      }
    }
  }
}
