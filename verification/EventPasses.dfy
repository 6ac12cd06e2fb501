/** What the passes that strip moves and turn keys into texts leave of a recorded log. */
module EventPasses {
  import opened Items
  import opened Passes
  import opened MovePass

  // ----- Moves stripped -----

  /** An item that goes: a move, or a sleep right behind one. */
  predicate Goes(before: seq<Item>, item: Item) {
    IsMove(item) || (IsSleep(item) && before != [] && IsMove(before[|before| - 1]))
  }

  /** The items that stay, in order. */
  function WithoutMoves(log: seq<Item>): (r: seq<Item>)
  {
    if log == [] then []
    else
      var init, last := log[..|log| - 1], log[|log| - 1];
      WithoutMoves(init) + if Goes(init, last) then [] else [last]
  }

  lemma WithoutMovesMore(log: seq<Item>, item: Item)
    ensures WithoutMoves(log + [item]) == WithoutMoves(log) + if Goes(log, item) then [] else [item]
  {
    assert (log + [item])[..|log|] == log;
  }

  /** Cut anywhere but between a move and its sleep. */
  lemma {:induction false} WithoutMovesConcat(a: seq<Item>, b: seq<Item>)
    requires a == [] || b == [] || !IsMove(a[|a| - 1]) || !IsSleep(b[0])
    ensures WithoutMoves(a + b) == WithoutMoves(a) + WithoutMoves(b)
  {
    hide WithoutMoves, Goes;
    if b == [] {
      assert a + b == a;
      NothingStays(a);
    } else {
      var init, last := b[..|b| - 1], b[|b| - 1];
      WithoutMovesConcat(a, init);
      SameGoes(a, init, last);
      ConcatMore(a, b, init, last);
    }
  }

  lemma ConcatMore(a: seq<Item>, b: seq<Item>, init: seq<Item>, last: Item)
    requires b == init + [last] && (Goes(a + init, last) <==> Goes(init, last))
    requires WithoutMoves(a + init) == WithoutMoves(a) + WithoutMoves(init)
    ensures WithoutMoves(a + b) == WithoutMoves(a) + WithoutMoves(b)
  {
    hide WithoutMoves, Goes;
    WithoutMovesMore(a + init, last);
    WithoutMovesMore(init, last);
    var more := if Goes(init, last) then [] else [last];
    calc {
      WithoutMoves(a + b);
      { assert a + (init + [last]) == (a + init) + [last]; }
      WithoutMoves(a) + WithoutMoves(init) + more;
      WithoutMoves(a) + (WithoutMoves(init) + more);
      WithoutMoves(a) + WithoutMoves(b);
    }
  }

  lemma SameGoes(a: seq<Item>, init: seq<Item>, last: Item)
    requires a == [] || init != [] || !IsMove(a[|a| - 1]) || !IsSleep(last)
    ensures Goes(a + init, last) <==> Goes(init, last)
  {
  }

  lemma NothingStays(items: seq<Item>)
    ensures WithoutMoves([]) == []
    ensures items + WithoutMoves([]) == items && WithoutMoves(items) + [] == WithoutMoves(items)
  {
  }

  lemma WithoutMovesOne(item: Item)
    ensures WithoutMoves([item]) == if IsMove(item) then [] else [item]
  {
    assert [item] == [] + [item];
    WithoutMovesMore([], item);
  }

  lemma WithoutMovesTwo(item: Item, s: Item, next: seq<Item>)
    requires IsMove(item) && IsSleep(s)
    ensures WithoutMoves([item] + ([s] + next)) == WithoutMoves(next)
  {
    hide WithoutMoves;
    assert [item] + ([s] + next) == ([item] + [s]) + next;
    WithoutMovesOne(item);
    WithoutMovesMore([item], s);
    WithoutMovesConcat([item] + [s], next);
  }

  /** A valid item, as a list, or nothing. */
  function AsList(item: Item): seq<Item> {
    if IsValid(item) then [item] else []
  }

  lemma {:induction false} StripLeaves(item: Item, rest: seq<Item>)
    requires Alternating([item] + rest)
    ensures var r := Strip(item, rest);
      && WithoutMoves([item] + rest) == AsList(r.0) + WithoutMoves(r.1)
      && Alternating(AsList(r.0) + r.1) && !IsMove(r.0)
    decreases |rest|
  {
    hide Alternating, WithoutMoves;
    assert ([item] + rest)[0] == item && ([item] + rest)[1..] == rest;
    AlternatingTail([item] + rest);
    WithoutMovesOne(item);
    if !IsMove(item) {
      WithoutMovesConcat([item], rest);
    } else if |rest| < 2 {
      StripEnds(item, rest);
      NothingStays([]);
    } else {
      var next := rest[1..];
      assert rest == [rest[0]] + next && next == [next[0]] + next[1..];
      TwoOn(item, rest[0], next);
      WithoutMovesTwo(item, rest[0], next);
      StripLeaves(next[0], next[1..]);
    }
  }

  lemma StripEnds(item: Item, rest: seq<Item>)
    requires Alternating([item] + rest) && IsMove(item) && |rest| < 2
    ensures Strip(item, rest) == (NO_ITEM, []) && WithoutMoves([item] + rest) == []
    ensures Alternating(AsList(NO_ITEM) + [])
  {
    hide WithoutMoves, Alternating;
    WithoutMovesOne(item);
    assert IsMove(item) && !IsMove(NO_ITEM);
    if |rest| == 1 {
      assert rest == [rest[0]] && rest == [rest[0]] + [];
      EndIsSleep(item, rest[0]);
      WithoutMovesTwo(item, rest[0], []);
      NothingStays([]);
    } else {
      assert [item] + rest == [item];
    }
    EmptyAlternates();
  }

  lemma EndIsSleep(item: Item, s: Item)
    requires Alternating([item] + [s]) && IsMove(item)
    ensures IsSleep(s)
  {
    assert ([item] + [s])[1] == s && ([item] + [s])[0] == item && item.method_[1] == 'o';
  }

  lemma EmptyAlternates()
    ensures Alternating(AsList(NO_ITEM) + [])
  {
  }

  lemma {:induction false} StripFrom(letterOrNumber: char -> bool, input: seq<Item>, o: Output)
    requires Alternating(input)
    ensures Pass(letterOrNumber, NoMoves, input, o).items == o.items + WithoutMoves(input)
    decreases |input|
  {
    hide Alternating, WithoutMoves, Strip;
    if input == [] {
      NothingStays(o.items);
    } else {
      var item, rest := input[0], input[1..];
      assert input == [item] + rest;
      StripLeaves(item, rest);
      var r := Strip(item, rest);
      AlternatingAfter(r.0, r.1);
      StripFrom(letterOrNumber, r.1, AppendValid(Stepped(NoMoves, r.0, r.1, o).output, r.0).Next());
    }
  }

  lemma AlternatingAfter(item: Item, rest: seq<Item>)
    requires Alternating(AsList(item) + rest)
    ensures Alternating(rest)
  {
    if IsValid(item) {
      AlternatingTail([item] + rest);
      assert ([item] + rest)[1..] == rest;
    } else {
      assert [] + rest == rest;
    }
  }

  /** From an empty list the strip pass leaves a recorded log without its moves and the sleeps right behind them. */
  lemma StripPassIs(letterOrNumber: char -> bool, log: seq<Item>, o: Output)
    requires Alternating(log) && o.items == []
    ensures Pass(letterOrNumber, NoMoves, log, o).items == WithoutMoves(log)
  {
    StripFrom(letterOrNumber, log, o);
  }

  // ----- Keys turned into texts -----

  /** Neither a key, nor a text that is sent, nor a sleep. */
  predicate IsOther(item: Item) {
    IsValid(item) && !IsSleep(item) && !IsKey(item) && item.method_ != "sendText"
  }

  function Others(items: seq<Item>): (r: seq<Item>)
  {
    if items == [] then [] else (if IsOther(items[0]) then [items[0]] else []) + Others(items[1..])
  }

  lemma {:induction false} OthersConcat(a: seq<Item>, b: seq<Item>)
    ensures Others(a + b) == Others(a) + Others(b)
  {
    hide IsOther;
    if a == [] {
      assert a + b == b;
    } else {
      assert (a + b)[1..] == a[1..] + b;
      OthersConcat(a[1..], b);
      var h := if IsOther(a[0]) then [a[0]] else [];
      assert h + Others(a[1..]) + Others(b) == h + (Others(a[1..]) + Others(b));
    }
  }

  lemma OthersOne(item: Item)
    ensures Others([item]) == if IsOther(item) then [item] else []
  {
    assert [item][1..] == [];
  }

  lemma OthersInsert(items: seq<Item>, position: int, item: Item)
    requires !IsOther(item)
    ensures Others(InsertAt(items, position, item)) == Others(items)
  {
    hide Others, IsOther;
    var p := if position < 0 then 0 else if position > |items| then |items| else position;
    var a, b := items[..p], items[p..];
    assert items == a + b && InsertAt(items, position, item) == a + [item] + b;
    OthersConcat(a, b);
    OthersConcat(a + [item], b);
    OthersConcat(a, [item]);
    OthersOne(item);
  }

  /** Only keys and sleeps go into the text. */
  lemma {:induction false} TypeKeepsOthers(item: Item, target: Value, text: string, msec: Item, rest: seq<Item>)
    requires Alternating([item] + rest) && IsKey(item) && !IsOther(msec)
    ensures var t := Type(item, target, text, msec, rest);
      && Others([t.item] + t.rest) == Others([item] + rest)
      && Alternating(AsList(t.item) + t.rest) && !IsOther(t.msec)
    decreases |rest|
  {
    hide Alternating, Others, IsOther, PlainKey, Typed;
    assert ([item] + rest)[0] == item && ([item] + rest)[1..] == rest;
    AlternatingTail([item] + rest);
    if Stays(item, target, rest) || rest == [] {
    } else if |rest| == 1 {
      TypeEnds(item, rest[0]);
      assert rest == [rest[0]];
    } else {
      var next := rest[1..];
      var e, left := next[0], next[1..];
      assert rest == [rest[0]] + next && next == [e] + left;
      TwoOn(item, rest[0], next);
      PairGoes(item, rest[0], next);
      assert IsSleep(rest[0]) && !IsOther(rest[0]) by {
        SleepIsNoOther(rest[0]);
      }
      assert First(Rest(rest)) == e && Rest(Rest(rest)) == left;
      if IsKey(e) {
        TypeKeepsOthers(e, target, if IsPress(item) then Typed(text, item) else text, rest[0], left);
      } else {
        assert IsValid(e) by {
          AlternatingTail(next);
        }
      }
    }
  }

  lemma SleepIsNoOther(item: Item)
    requires IsSleep(item)
    ensures !IsOther(item)
  {
  }

  lemma TypeEnds(item: Item, s: Item)
    requires Alternating([item] + [s]) && IsKey(item)
    ensures Others([NO_ITEM] + []) == Others([item] + [s]) && Alternating(AsList(NO_ITEM) + []) && !IsOther(s)
  {
    assert ([item] + [s])[1] == s;
    OthersConcat([item], [s]);
    OthersOne(item);
    OthersOne(s);
    OthersOne(NO_ITEM);
    assert [NO_ITEM] + [] == [NO_ITEM];
  }

  lemma PairGoes(item: Item, s: Item, next: seq<Item>)
    requires IsKey(item) && IsSleep(s)
    ensures Others([item] + ([s] + next)) == Others(next)
  {
    OthersConcat([item], [s] + next);
    OthersConcat([s], next);
    OthersOne(item);
    OthersOne(s);
  }

  lemma SendTextIsNoOther(item: Item, text: string)
    ensures !IsOther(SendText(item, text))
  {
  }

  lemma {:induction false} KeysFrom(letterOrNumber: char -> bool, input: seq<Item>, o: Output)
    requires Alternating(input)
    ensures Others(Pass(letterOrNumber, Keys, input, o).items) == Others(o.items) + Others(input)
    decreases |input|
  {
    hide Alternating, Others, IsOther, Type, SendText, InsertAt;
    if input == [] {
      NoOthers(o.items);
    } else {
      var item, rest := input[0], input[1..];
      assert input == [item] + rest;
      AlternatingTail(input);
      var s := TextStep(item, rest, o);
      if IsPress(item) {
        NoItemIsNoOther();
        TypeKeepsOthers(item, item.target, "", NO_ITEM, rest);
        var t := Type(item, item.target, "", NO_ITEM, rest);
        AlternatingAfter(t.item, t.rest);
        if t.text != "" {
          var text := SendText(item, t.text);
          SendTextIsNoOther(item, t.text);
          OthersInsert(o.items, o.itemIndex, text);
          var o' := o.Insert(text, BeforeCurrentItem);
          OthersInsert(o'.items, o'.itemIndex, t.msec);
        }
      }
      OthersConcat([s.item], s.rest);
      OthersConcat(s.output.items, [s.item]);
      InvalidIsNoOther(s.item);
      KeysFrom(letterOrNumber, s.rest, AppendValid(s.output, s.item).Next());
    }
  }

  lemma InvalidIsNoOther(item: Item)
    ensures !IsValid(item) ==> Others([item]) == []
  {
    OthersOne(item);
  }

  lemma NoItemIsNoOther()
    ensures !IsOther(NO_ITEM)
  {
  }

  lemma NoOthers(items: seq<Item>)
    ensures Others(items) + Others([]) == Others(items)
  {
  }

  /**
    From an empty list and wherever the inserter stands: the pass that turns keys into texts leaves everything but keys,
    texts and sleeps of a recorded log as it is and in order.
   */
  lemma KeysKeepOthers(letterOrNumber: char -> bool, log: seq<Item>, o: Output)
    requires Alternating(log) && o.items == []
    ensures Others(Pass(letterOrNumber, Keys, log, o).items) == Others(log)
  {
    KeysFrom(letterOrNumber, log, o);
  }

  // ----- The text that keys become -----

  /** A field after a key is pressed in it; Backspace, Return, Enter and Shift by their codes in Qt. */
  function Struck(text: string, key: int, characters: string): string {
    match key
    case 0x0100_0003 => if text == "" then "" else text[..|text| - 1]
    case 0x0100_0004 => text + "\n"
    case 0x0100_0005 => text + "\n"
    case 0x0100_0020 => text
    case _ => text + characters
  }

  /** A key event that parses as such: a press or a release, with its code, characters and modifiers. */
  ghost predicate KeyEvent(item: Item, press: bool, key: int, characters: string) {
    && item.method_ == (if press then "pressKey" else "releaseKey") && item.parameters.Map?
    && var p := item.parameters.entries;
       && {"key", "text", "modifiers"} <= p.Keys && p["text"] == Str(characters)
       && p["key"].Enum? && p["key"].number == key
       && p["modifiers"].Enum? && (p["modifiers"].number == 0 || p["modifiers"].number == 0x0200_0000)
  }

  datatype Strike = Strike(press: bool, key: int, characters: string, item: Item, sleep: Item)

  /** Key events of one target, none with a modifier but Shift, the last a release; a sleep behind each. */
  ghost predicate KeyRun(run: seq<Strike>, target: Value) {
    && run != [] && !run[|run| - 1].press
    && forall k | k in run :: KeyEvent(k.item, k.press, k.key, k.characters) && k.item.target == target
  }

  function Log(run: seq<Strike>): (log: seq<Item>)
  {
    if run == [] then [] else [run[0].item, run[0].sleep] + Log(run[1..])
  }

  /** What the keys pressed make of a text. */
  function Written(text: string, run: seq<Strike>): string
    decreases run
  {
    if run == [] then text
    else Written(if run[0].press then Struck(text, run[0].key, run[0].characters) else text, run[1..])
  }

  lemma KeyIs(text: string, k: Strike)
    requires KeyEvent(k.item, k.press, k.key, k.characters)
    ensures IsKey(k.item) && PlainKey(k.item) && (IsPress(k.item) <==> k.press)
    ensures k.press ==> Typed(text, k.item) == Struck(text, k.key, k.characters)
  {
    assert "releaseKey"[0] == 'r' && "pressKey"[0] == 'p';
  }

  /** One key and the pause behind it. */
  lemma TypeOne(k: Strike, target: Value, text: string, msec: Item, next: Item, left: seq<Item>)
    requires KeyEvent(k.item, k.press, k.key, k.characters) && (k.press ==> IsKey(next) && next.target == target)
    ensures var more := if k.press then Struck(text, k.key, k.characters) else text;
      Type(k.item, target, text, msec, [k.sleep, next] + left) ==
        if IsKey(next) then Type(next, target, more, k.sleep, left) else Typing(more, k.sleep, next, left)
  {
    KeyIs(text, k);
    hide KeyEvent, Struck, Typed, PlainKey, IsKey, IsPress;
    var rest := [k.sleep, next] + left;
    assert rest[1..] == [next] + left && rest[1..][1..] == left;
  }

  lemma {:induction false} TypeTakesRun(run: seq<Strike>, target: Value, text: string, msec: Item, next: Item,
                                        more: seq<Item>)
    requires KeyRun(run, target) && !IsKey(next)
    ensures Type(run[0].item, target, text, msec, Log(run)[1..] + [next] + more)
         == Typing(Written(text, run), run[|run| - 1].sleep, next, more)
    decreases run
  {
    hide KeyEvent, Struck, IsKey, Type;
    var k, tail := run[0], run[1..];
    assert k in run;
    var rest := Log(run)[1..] + [next] + more;
    if tail == [] {
      assert Log(run) == [k.item, k.sleep] + Log(tail) && Log(tail) == [];
      assert rest == [k.sleep, next] + more;
      TypeOne(k, target, text, msec, next, more);
    } else {
      assert tail[0] in run && KeyRun(tail, target);
      KeyIs("", tail[0]);
      var left := Log(tail)[1..] + [next] + more;
      assert rest == [k.sleep, tail[0].item] + left;
      TypeOne(k, target, text, msec, tail[0].item, left);
      TypeTakesRun(tail, target, if k.press then Struck(text, k.key, k.characters) else text, k.sleep, next, more);
    }
  }

  /**
    A run of keys that starts with a press becomes one text, in its place: what the keys write, Backspace taking back
    the character before it, with the pause behind the last key. Nothing is sent if they write nothing.
   */
  lemma {:induction false} KeysBecomeText(run: seq<Strike>, target: Value, next: Item, more: seq<Item>, o: Output)
    requires KeyRun(run, target) && run[0].press && !IsKey(next)
    ensures var text := Written("", run);
      var sent := Item(target, run[0].item.targetClass, "sendText", Str(text));
      TextStep(run[0].item, Log(run)[1..] + [next] + more, o) ==
      Stepped(Keys, next, more,
              if text == "" then o
              else o.Insert(sent, BeforeCurrentItem).Insert(run[|run| - 1].sleep, BeforeCurrentItem))
  {
    hide Type, Log, Written, KeyEvent, Struck;
    assert run[0] in run;
    KeyIs("", run[0]);
    TypeTakesRun(run, target, "", NO_ITEM, next, more);
  }

  /** Nothing of the press goes into a text. */
  predicate Lone(item: Item, rest: seq<Item>) {
    || AsEnum(Entry(AsMap(item.parameters), "modifiers")) !in {0, 0x0200_0000}
    || |rest| < 2 || rest[1].method_ !in {"pressKey", "releaseKey"} || rest[1].target != item.target
  }

  /** A press stays as it is exactly when it has another modifier than Shift or no key of its target follows it. */
  lemma PressStaysExactly(item: Item, rest: seq<Item>, o: Output)
    requires item.method_ == "pressKey"
    ensures TextStep(item, rest, o) == Stepped(Keys, item, rest, o) <==> Lone(item, rest)
  {
    hide PlainKey, Typed;
    assert PlainKey(item) <==> AsEnum(Entry(AsMap(item.parameters), "modifiers")) in {0, 0x0200_0000} by {
      PlainKeyIs(item);
    }
    if !Lone(item, rest) {
      assert Stepped(Keys, item, rest, o).rest == rest;
      assert |Type(item, item.target, "", NO_ITEM, rest).rest| <= |Rest(Rest(rest))| < |rest|;
    }
  }

  lemma PlainKeyIs(item: Item)
    ensures PlainKey(item) <==> AsEnum(Entry(AsMap(item.parameters), "modifiers")) in {0, 0x0200_0000}
  {
  }
}
