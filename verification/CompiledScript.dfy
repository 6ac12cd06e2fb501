/** What a compiled script does, from the recorded log to the last pass. */
module CompiledScript {
  import opened Identifiers
  import opened Items
  import opened ScriptMeaning
  import opened Passes
  import opened ObjectPass
  import opened StringPass
  import opened NameClash
  import opened MovePass
  import opened ItemStrings

  // ----- The earlier passes keep items recorded -----

  /** Recorded, or no item at all. */
  predicate Fine(item: Item) {
    IsValid(item) ==> Recorded(item)
  }

  lemma RestRecorded(list: seq<Item>)
    requires AllRecorded(list)
    ensures AllRecorded(Rest(list)) && Fine(First(list))
  {
    hide Recorded;
  }

  lemma {:induction false} StripRecorded(item: Item, rest: seq<Item>)
    requires Fine(item) && AllRecorded(rest)
    ensures Fine(Strip(item, rest).0) && AllRecorded(Strip(item, rest).1)
    decreases |rest|
  {
    hide Recorded;
    if item.method_ == "moveMouse" && rest != [] {
      RestRecorded(rest);
      RestRecorded(Rest(rest));
      StripRecorded(First(Rest(rest)), Rest(Rest(rest)));
    }
  }

  lemma {:induction false} GatherRecorded(item: Item, target: Value, parameters: map<string, Value>, duration: int,
                                          rest: seq<Item>)
    requires Recorded(item) && AllRecorded(rest)
    ensures var g := Gather(item, target, parameters, duration, rest); Recorded(g.item) && AllRecorded(g.rest)
    decreases |rest|
  {
    hide Recorded;
    if |rest| > 1 && rest[1].method_ == "moveMouse" && rest[1].target == target {
      GatherRecorded(rest[1], target, AsMap(rest[1].parameters), duration + AsInt(rest[0].parameters), rest[2..]);
    }
  }

  lemma OneMoveRecorded(first: Item, last: map<string, Value>, duration: int)
    requires Recorded(first) && IsMove(first)
    ensures Recorded(OneMove(first, last, duration))
  {
    hide MoveParameters;
  }

  /** A text that is not empty comes from keys in the input, and so does the sleep behind it. */
  lemma {:induction false} TypeRecorded(item: Item, target: Value, text: string, msec: Item, rest: seq<Item>)
    requires Fine(item) && AllRecorded(rest) && (text != "" ==> Recorded(msec))
    ensures var t := Type(item, target, text, msec, rest);
      Fine(t.item) && AllRecorded(t.rest) && (t.text != "" ==> Recorded(t.msec))
    decreases |rest|
  {
    hide Recorded, PlainKey, Typed;
    if !Stays(item, target, rest) && rest != [] {
      RestRecorded(rest);
      RestRecorded(Rest(rest));
      var next, left := First(Rest(rest)), Rest(Rest(rest));
      if IsKey(next) {
        TypeRecorded(next, target, if IsPress(item) then Typed(text, item) else text, rest[0], left);
      }
    }
  }

  lemma SendTextRecorded(item: Item, text: string)
    requires Recorded(item)
    ensures Recorded(SendText(item, text))
  {
    assert SendText(item, text).method_[0] == 's';
  }

  lemma RecordedInsert(items: seq<Item>, position: int, item: Item)
    requires AllRecorded(items) && Recorded(item)
    ensures AllRecorded(InsertAt(items, position, item)) && AllRecorded(items + [item])
  {
    hide Recorded;
  }

  /** One of the passes before those that introduce variables. */
  predicate IsEarlier(p: Processor) {
    p.Internals? || p.NoMoves? || p.Moves? || p.Keys?
  }

  lemma StepRecorded(letterOrNumber: char -> bool, p: Processor, item: Item, rest: seq<Item>, o: Output)
    requires IsEarlier(p) && Recorded(item) && AllRecorded(rest) && AllRecorded(o.items)
    ensures var s := Step(letterOrNumber, p, item, rest, o);
      s.processor == p && Fine(s.item) && AllRecorded(s.rest) && AllRecorded(s.output.items)
  {
    hide Recorded, InsertAt, OneMove, Gather, Type, Strip, SendText;
    match p
    case Internals => RestRecorded(rest);
    case NoMoves => StripRecorded(item, rest);
    case Moves =>
      if IsMove(item) {
        var g := Gather(item, item.target, AsMap(item.parameters), 0, rest);
        GatherRecorded(item, item.target, AsMap(item.parameters), 0, rest);
        OneMoveRecorded(item, g.parameters, g.duration);
        RecordedInsert(o.items, o.itemIndex, OneMove(item, g.parameters, g.duration));
      }
    case Keys =>
      if IsPress(item) {
        var t := Type(item, item.target, "", NO_ITEM, rest);
        TypeRecorded(item, item.target, "", NO_ITEM, rest);
        if t.text != "" {
          SendTextRecorded(item, t.text);
          RecordedInsert(o.items, o.itemIndex, SendText(item, t.text));
          var o' := o.Insert(SendText(item, t.text), BeforeCurrentItem);
          RecordedInsert(o'.items, o'.itemIndex, t.msec);
        }
      }
  }

  lemma {:induction false} PassRecorded(letterOrNumber: char -> bool, p: Processor, input: seq<Item>, o: Output)
    requires IsEarlier(p) && AllRecorded(input) && AllRecorded(o.items)
    ensures AllRecorded(Pass(letterOrNumber, p, input, o).items)
    decreases |input|
  {
    hide Recorded, Step;
    if input != [] {
      var s := Step(letterOrNumber, p, input[0], input[1..], o);
      StepRecorded(letterOrNumber, p, input[0], input[1..], o);
      if IsValid(s.item) {
        RecordedInsert(s.output.items, 0, s.item);
      }
      PassRecorded(letterOrNumber, p, s.rest, AppendValid(s.output, s.item).Next());
    }
  }

  // ----- The passes in a row -----

  /** The list after the passes, and where the inserter stands. */
  function Ran(letterOrNumber: char -> bool, ps: seq<Processor>, input: seq<Item>, o: Output): (r: (seq<Item>, Output))
  {
    if ps == [] then (input, o)
    else
      var r := Pass(letterOrNumber, ps[0], input, o.Clear());
      Ran(letterOrNumber, ps[1..], r.items, r.Reset())
  }

  lemma {:induction false} PassAllConcat(letterOrNumber: char -> bool, ps: seq<Processor>, qs: seq<Processor>,
                                         input: seq<Item>, o: Output)
    ensures var r := Ran(letterOrNumber, ps, input, o);
      PassAll(letterOrNumber, ps + qs, input, o) == PassAll(letterOrNumber, qs, r.0, r.1)
  {
    hide Pass;
    if ps == [] {
      assert ps + qs == qs;
    } else {
      assert (ps + qs)[1..] == ps[1..] + qs;
      var r := Pass(letterOrNumber, ps[0], input, o.Clear());
      PassAllConcat(letterOrNumber, ps[1..], qs, r.items, r.Reset());
    }
  }

  lemma {:induction false} RanRecorded(letterOrNumber: char -> bool, ps: seq<Processor>, input: seq<Item>, o: Output)
    requires (forall p | p in ps :: IsEarlier(p)) && AllRecorded(input) && o.appendedItems == 0
    ensures var r := Ran(letterOrNumber, ps, input, o);
      && AllRecorded(r.0) && r.1.appendedItems == 0
      && r.1.itemIndex == if ps == [] then o.itemIndex else |r.0| - 1
    decreases |ps|
  {
    hide Pass, Recorded;
    if ps != [] {
      assert ps[0] in ps;
      PassRecorded(letterOrNumber, ps[0], input, o.Clear());
      var r := Pass(letterOrNumber, ps[0], input, o.Clear());
      RanRecorded(letterOrNumber, ps[1..], r.items, r.Reset());
    }
  }

  /** The last two passes, on what the earlier ones have made. */
  lemma LastTwo(letterOrNumber: char -> bool, list: seq<Item>, o: Output)
    ensures var first := Pass(letterOrNumber, Objects(map[]), list, o.Clear());
      PassAll(letterOrNumber, [Objects(map[])] + [Strings([])], list, o)
      == Pass(letterOrNumber, Strings([]), first.items, first.Reset().Clear()).items
  {
    hide Pass, PassAll;
    var ps := [Objects(map[])] + [Strings([])];
    assert ps[0..] == ps && ps[2..] == [];
    PassOne(letterOrNumber, ps, 0, list, o);
    var first := Pass(letterOrNumber, Objects(map[]), list, o.Clear());
    PassOne(letterOrNumber, ps, 1, first.items, first.Reset());
    var second := Pass(letterOrNumber, Strings([]), first.items, first.Reset().Clear());
    PassNone(letterOrNumber, ps[2..], second.items, second.Reset());
  }

  lemma EarlierAre(options: Options)
    ensures forall p | p in Earlier(options) :: IsEarlier(p)
  {
  }

  /** What the options make of a log before variables are introduced. */
  function Simplified(letterOrNumber: char -> bool, options: Options, log: seq<Item>): seq<Item> {
    Ran(letterOrNumber, Earlier(options), log, START).0
  }

  /**
    With both kinds of variables and any other options, the compiled script does what the simplified log asks for
    exactly when every name given is an identifier, every string printed can be read back, and no text is sent under the
    name of an object declared by then.
   */
  lemma CompiledMeansExactly(lexicon: Lexicon, letterOrNumber: char -> bool, options: Options, log: seq<Item>)
    requires Standard(lexicon) && AllRecorded(log) && !letterOrNumber(' ')
    requires options.objectVariables && options.stringVariables
    ensures var list := Simplified(letterOrNumber, options, log);
      Performed(lexicon, PassAll(letterOrNumber, Chosen(options), log, START)) == DirectAll(list) <==>
        && Nameable(lexicon, letterOrNumber, list) && AllReadBack(list)
        && Free(letterOrNumber, Earlier(options) == [], map[], list, Texts([], list))
  {
    hide Pass, PassAll, Performed, AllRecorded, Texts, DirectAll, Standard, Nameable, AllReadBack, Earlier,
      Ran;
    var ps, last := Earlier(options), [Objects(map[])] + [Strings([])];
    var r := Ran(letterOrNumber, ps, log, START);
    assert Chosen(options) == ps + last;
    PassAllConcat(letterOrNumber, ps, last, log, START);
    LastTwo(letterOrNumber, r.0, r.1);
    EarlierAre(options);
    RanRecorded(letterOrNumber, ps, log, START);
    VariablesKeepMeaningExactly(lexicon, letterOrNumber, r.0, r.1.Clear());
    if r.0 == [] {
      NothingClashes(letterOrNumber);
    }
  }

  lemma NothingClashes(letterOrNumber: char -> bool)
    ensures forall behind, texts :: Free(letterOrNumber, behind, map[], [], texts)
  {
  }

  // ----- Moves that are skipped -----

  predicate NoMove(items: seq<Item>) {
    forall item | item in items :: !IsMove(item)
  }

  lemma NoMoveInsert(items: seq<Item>, position: int, item: Item)
    requires NoMove(items) && !IsMove(item)
    ensures NoMove(InsertAt(items, position, item)) && NoMove(items + [item])
  {
  }

  lemma NoMoveRest(list: seq<Item>)
    requires NoMove(list)
    ensures NoMove(Rest(list)) && !IsMove(First(list))
  {
  }

  lemma {:induction false} TypeNoMove(item: Item, target: Value, text: string, msec: Item, rest: seq<Item>)
    requires !IsMove(item) && !IsMove(msec) && NoMove(rest)
    ensures var t := Type(item, target, text, msec, rest); !IsMove(t.item) && !IsMove(t.msec) && NoMove(t.rest)
    decreases |rest|
  {
    hide PlainKey, Typed, IsMove, NoMove;
    if !Stays(item, target, rest) && rest != [] {
      NoMoveRest(rest);
      NoMoveRest(Rest(rest));
      assert First(rest) == rest[0];
      var next, left := First(Rest(rest)), Rest(Rest(rest));
      if IsKey(next) {
        TypeNoMove(next, target, if IsPress(item) then Typed(text, item) else text, rest[0], left);
      }
    }
  }

  lemma {:induction false} StripNoMove(item: Item, rest: seq<Item>)
    ensures !IsMove(Strip(item, rest).0)
    decreases |rest|
  {
    if item.method_ == "moveMouse" && rest != [] {
      StripNoMove(First(Rest(rest)), Rest(Rest(rest)));
    }
  }

  /** What a pass adds is no move. */
  lemma AddedNoMove(item: Item, text: string, name: string, path: string, position: nat)
    ensures !IsMove(SendText(item, text)) && !IsMove(ObjectDeclaration(name, path))
    ensures !IsMove(StringDeclaration(position, text)) && !IsMove(NO_ITEM)
  {
    assert SendText(item, text).method_[0] == 's';
    assert ObjectDeclaration(name, path).method_[0] == 'v' && StringDeclaration(position, text).method_[0] == 'v';
  }

  /** No pass makes a move of anything else, and the one that strips them leaves none whatever its input. */
  lemma StepNoMove(letterOrNumber: char -> bool, p: Processor, item: Item, rest: seq<Item>, o: Output)
    requires p.NoMoves? || (!IsMove(item) && NoMove(rest))
    requires NoMove(o.items)
    ensures var s := Step(letterOrNumber, p, item, rest, o);
      !IsMove(s.item) && NoMove(s.output.items) && (p.NoMoves? ==> s.processor.NoMoves?)
      && (!p.NoMoves? ==> !s.processor.NoMoves? && NoMove(s.rest))
  {
    hide NoMove, InsertAt, Type, Strip, SendText, ObjectDeclaration, StringDeclaration, WithName, StringName,
      IndexOf;
    AddedNoMove(item, "", "", "", 0);
    match p
    case Internals => NoMoveRest(rest); NoMoveRest(Rest(rest));
    case NoMoves => StripNoMove(item, rest);
    case Moves =>
    case Keys =>
      if IsPress(item) {
        TypeNoMove(item, item.target, "", NO_ITEM, rest);
        var t := Type(item, item.target, "", NO_ITEM, rest);
        AddedNoMove(item, t.text, "", "", 0);
        NoMoveInsert(o.items, o.itemIndex, SendText(item, t.text));
        var o' := o.Insert(SendText(item, t.text), BeforeCurrentItem);
        NoMoveInsert(o'.items, o'.itemIndex, t.msec);
      }
    case Objects(variables) =>
      var path := AsText(item.target);
      var name := WithName(letterOrNumber, variables, path)[path];
      AddedNoMove(item, "", name, path, 0);
      NoMoveInsert(o.items, o.itemIndex, ObjectDeclaration(name, path));
    case Strings(texts) =>
      var text := AsText(item.parameters);
      AddedNoMove(item, text, "", "", |texts|);
      NoMoveInsert(o.items, o.originalStart, StringDeclaration(|texts|, text));
  }

  lemma {:induction false} PassNoMove(letterOrNumber: char -> bool, p: Processor, input: seq<Item>, o: Output)
    requires (p.NoMoves? || NoMove(input)) && NoMove(o.items)
    ensures NoMove(Pass(letterOrNumber, p, input, o).items)
    decreases |input|
  {
    hide Step, IsMove;
    if input != [] {
      StepNoMove(letterOrNumber, p, input[0], input[1..], o);
      var s := Step(letterOrNumber, p, input[0], input[1..], o);
      NoMoveInsert(s.output.items, 0, s.item);
      PassNoMove(letterOrNumber, s.processor, s.rest, AppendValid(s.output, s.item).Next());
    }
  }

  lemma {:induction false} PassAllNoMove(letterOrNumber: char -> bool, ps: seq<Processor>, input: seq<Item>, o: Output)
    requires NoMove(input) || (ps != [] && ps[0].NoMoves?)
    ensures NoMove(PassAll(letterOrNumber, ps, input, o))
    decreases |ps|
  {
    hide Pass, IsMove;
    if ps != [] {
      PassNoMove(letterOrNumber, ps[0], input, o.Clear());
      var r := Pass(letterOrNumber, ps[0], input, o.Clear());
      PassAllNoMove(letterOrNumber, ps[1..], r.items, r.Reset());
    }
  }

  /** With mouse movements skipped no move is left in the script, whatever the log and the other options. */
  lemma SkippedMovesGone(letterOrNumber: char -> bool, options: Options, log: seq<Item>)
    requires options.skipMouseMovements
    ensures forall item | item in PassAll(letterOrNumber, Chosen(options), log, START) :: item.method_ != "moveMouse"
  {
    hide Pass, PassAll;
    var ps := Chosen(options);
    var k := if options.filterQtInternals then 1 else 0;
    assert ps == ps[..k] + ps[k..];
    PassAllConcat(letterOrNumber, ps[..k], ps[k..], log, START);
    var r := Ran(letterOrNumber, ps[..k], log, START);
    PassAllNoMove(letterOrNumber, ps[k..], r.0, r.1);
  }

  // ----- From the recorded log, sleeps aside -----

  /** The calls that are not sleeps. */
  function Awake(calls: seq<Call>): (r: seq<Call>)
  {
    if calls == [] then []
    else
      Awake(calls[..|calls| - 1]) + if calls[|calls| - 1].method_ == "msleep" then [] else [calls[|calls| - 1]]
  }

  lemma {:induction false} AwakeDirect(items: seq<Item>)
    ensures Awake(DirectAll(items)) == DirectAll(Events(items))
  {
    hide DirectAll, Events, Awake;
    if items == [] {
      NoneDirect();
      NoEvents();
    } else {
      var init, last := items[..|items| - 1], items[|items| - 1];
      assert items == init + [last];
      AwakeDirect(init);
      DirectAppend(init, last);
      AwakeMore(DirectAll(init), Direct(last));
      AppendEvent(init, last);
      DirectAppend(Events(init), last);
      assert Events(init) + [] == Events(init);
    }
  }

  lemma AwakeMore(calls: seq<Call>, c: Call)
    ensures Awake(calls + [c]) == Awake(calls) + if c.method_ == "msleep" then [] else [c]
  {
    assert (calls + [c])[..|calls|] == calls;
  }

  lemma NoneDirect()
    ensures DirectAll([]) == [] && Awake([]) == []
  {
  }

  /**
    With mouse movements simplified and both kinds of variables, the compiled script does, sleeps aside, what the
    recorded events ask for with every longest run of moves on one target made one (and the last move once more if the
    log ends in a move), whenever names, strings and texts are as above; and then only does it do all the simplified
    log asks for.
   */
  lemma LogMeansExactly(lexicon: Lexicon, letterOrNumber: char -> bool, log: seq<Item>)
    requires Standard(lexicon) && AllRecorded(log) && Alternating(log) && !letterOrNumber(' ')
    ensures var options := Options(false, false, true, false, true, true);
      var list := Simplified(letterOrNumber, options, log);
      var done := Performed(lexicon, PassAll(letterOrNumber, Chosen(options), log, START));
      && (done == DirectAll(list) <==>
            && Nameable(lexicon, letterOrNumber, list) && AllReadBack(list)
            && Free(letterOrNumber, false, map[], list, Texts([], list)))
      && (done == DirectAll(list) ==> Awake(done) == DirectAll(Collapsed(Moments(log)) + Leftover(log)))
  {
    hide Pass, PassAll, Performed, AllRecorded, Texts, DirectAll, Standard, Nameable, AllReadBack, Free, Alternating,
      Awake, Collapsed, Moments, Leftover, Events;
    var options := Options(false, false, true, false, true, true);
    CompiledMeansExactly(lexicon, letterOrNumber, options, log);
    assert Earlier(options) == [Moves];
    OneEarlier(letterOrNumber, log);
    MovePassExactly(letterOrNumber, log, START);
    AwakeDirect(Simplified(letterOrNumber, options, log));
  }

  lemma OneEarlier(letterOrNumber: char -> bool, log: seq<Item>)
    ensures Ran(letterOrNumber, [Moves], log, START).0 == Pass(letterOrNumber, Moves, log, START).items
  {
    hide Pass;
    assert [Moves][1..] == [];
    var r := Pass(letterOrNumber, Moves, log, START.Clear());
    assert Ran(letterOrNumber, [Moves], log, START) == Ran(letterOrNumber, [], r.items, r.Reset());
  }
}
