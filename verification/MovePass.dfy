/** The pass that makes one move of a run of mouse moves, against runs of events told apart without it. */
module MovePass {
  import opened Items
  import opened Passes

  predicate IsSleep(item: Item) {
    item.method_ == "msleep"
  }

  predicate IsMove(item: Item) {
    item.method_ == "moveMouse"
  }

  /** A recorded log: sleeps and events take turns. */
  predicate Alternating(log: seq<Item>) {
    && (forall i | 0 <= i < |log| :: IsValid(log[i]))
    && (forall i | 0 <= i < |log| - 1 :: IsSleep(log[i]) != IsSleep(log[i + 1]))
  }

  /** The items that are not sleeps. */
  function Events(items: seq<Item>): (r: seq<Item>)
  {
    if items == [] then []
    else Events(items[..|items| - 1]) + if IsSleep(items[|items| - 1]) then [] else [items[|items| - 1]]
  }

  /** An event and the time until the next. */
  datatype Moment = Moment(event: Item, pause: int)

  function Moments(log: seq<Item>): (r: seq<Moment>)
  {
    if log == [] then []
    else if IsSleep(log[0]) then Moments(log[1..])
    else [Moment(log[0], if |log| > 1 && IsSleep(log[1]) then AsInt(log[1].parameters) else 0)] + Moments(log[1..])
  }

  /** How many moments at the start are moves on this target. */
  function RunLength(moments: seq<Moment>, target: Value): (n: nat)
    ensures n <= |moments|
    ensures forall i | 0 <= i < n :: IsMove(moments[i].event) && moments[i].event.target == target
    ensures n < |moments| ==> !(IsMove(moments[n].event) && moments[n].event.target == target)
  {
    if moments == [] || !IsMove(moments[0].event) || moments[0].event.target != target then 0
    else 1 + RunLength(moments[1..], target)
  }

  function Total(moments: seq<Moment>): int {
    if moments == [] then 0 else moments[0].pause + Total(moments[1..])
  }

  /**
    The events in order, with every longest run of moves on one target replaced by a single move from the first point
    to the last, that takes as long as the run and has the other parameters of its last move.
   */
  function Collapsed(moments: seq<Moment>): (r: seq<Item>)
    decreases |moments|
  {
    if moments == [] then []
    else
      var first := moments[0].event;
      if !IsMove(first) then [first] + Collapsed(moments[1..])
      else
        var n := RunLength(moments, first.target);
        [OneMove(first, AsMap(moments[n - 1].event.parameters), Total(moments[..n]))] + Collapsed(moments[n..])
  }

  /** The single move: origin and destination are the points of the first and the last move, the rest is the last's. */
  lemma OneMoveIs(first: Item, from: map<string, Value>, x: int, y: int, last: map<string, Value>, x': int, y': int,
      duration: int)
    requires first.parameters == Map(from) && {"x", "y"} <= from.Keys && {"x", "y"} <= last.Keys
    requires from["x"] == Int(x) && from["y"] == Int(y) && last["x"] == Int(x') && last["y"] == Int(y')
    ensures var move := OneMove(first, last, duration);
      && move.target == first.target && move.targetClass == first.targetClass && IsMove(move) && move.parameters.Map?
      && move.parameters.entries == (last - {"x", "y"}) + map[
           "originX" := Int(x), "originY" := Int(y), "destinationX" := Int(x'), "destinationY" := Int(y'),
           "duration" := Int(duration)]
  {
  }

  /** What a log that ends in a move leaves behind: the move itself, once more. */
  function Leftover(log: seq<Item>): (r: seq<Item>)
  {
    if log != [] && IsMove(log[|log| - 1]) then [log[|log| - 1]] else []
  }

  lemma AppendEvent(items: seq<Item>, item: Item)
    ensures Events(items + [item]) == Events(items) + if IsSleep(item) then [] else [item]
  {
    assert (items + [item])[..|items|] == items;
  }

  /** The inserter is at the end of the list, or one behind with a sleep last. */
  predicate Fits(o: Output, next: seq<Item>) {
    && o.appendedItems == 0
    && (o.itemIndex >= |o.items| ||
        (o.itemIndex == |o.items| - 1 &&
         (next != [] && !IsSleep(next[0]) && o.items != [] ==> IsSleep(o.items[|o.items| - 1]))))
  }

  lemma InsertEvent(o: Output, item: Item)
    requires !IsSleep(item) && Fits(o, [item])
    ensures Events(o.Insert(item, BeforeCurrentItem).items) == Events(o.items) + [item]
  {
    var items := o.items;
    if items == [] || o.itemIndex >= |items| {
      assert InsertAt(items, o.itemIndex, item) == items + [item];
      AppendEvent(items, item);
    } else {
      var init, last := items[..|items| - 1], items[|items| - 1];
      assert InsertAt(items, o.itemIndex, item) == init + [item] + [last];
      assert items == init + [last];
      AppendEvent(init, last);
      AppendEvent(init + [item], last);
      AppendEvent(init, item);
    }
  }

  lemma RunMore(m: Moment, rest: seq<Moment>, target: Value)
    requires IsMove(m.event) && m.event.target == target
    ensures RunLength([m] + rest, target) == 1 + RunLength(rest, target)
    ensures Total(([m] + rest)[..1 + RunLength(rest, target)]) == m.pause + Total(rest[..RunLength(rest, target)])
  {
    var all, n := [m] + rest, RunLength(rest, target);
    assert all[1..] == rest;
    assert all[..1 + n] == [m] + rest[..n];
    assert all[..1 + n][1..] == rest[..n];
  }

  /** What `Gather` takes from the input is the run, and what it leaves follows the run. */
  ghost predicate TakesRun(g: Gathered, duration: int, moments: seq<Moment>, target: Value, log: seq<Item>)
    requires log != []
  {
    var n := RunLength(moments, target);
    && n > 0
    && g.parameters == AsMap(moments[n - 1].event.parameters)
    && g.duration == duration + Total(moments[..n])
    && moments[n..] == Moments(g.rest)
    && Alternating(g.rest) && IsValid(g.item)
    && (if IsMove(log[|log| - 1]) && g.rest == [] then g.item == log[|log| - 1]
        else IsSleep(g.item) && (g.rest != [] ==> !IsSleep(g.rest[0]) && g.rest[|g.rest| - 1] == log[|log| - 1]))
  }

  lemma {:induction false} GatherTakesRun(item: Item, target: Value, duration: int, rest: seq<Item>)
    requires IsMove(item) && item.target == target && Alternating([item] + rest)
    ensures TakesRun(Gather(item, target, AsMap(item.parameters), duration, rest), duration,
                     Moments([item] + rest), target, [item] + rest)
    decreases |rest|
  {
    hide TakesRun, Alternating, Moments, Gather;
    if |rest| < 2 {
      GatherEnds(item, target, duration, rest);
    } else {
      var next := rest[1..];
      var e, tail := next[0], next[1..];
      assert rest == [rest[0]] + next && next == [e] + tail;
      TwoOn(item, rest[0], next);
      if IsMove(e) && e.target == target {
        GatherTakesRun(e, target, duration + AsInt(rest[0].parameters), tail);
        GatherGoesOn(item, target, duration, rest[0], e, tail);
      } else {
        GatherStops(item, target, duration, rest[0], next);
      }
    }
  }

  lemma TwoOn(item: Item, s: Item, next: seq<Item>)
    requires Alternating([item] + ([s] + next)) && next != [] && !IsSleep(item)
    ensures IsSleep(s) && IsValid(s) && !IsSleep(next[0]) && Alternating(next)
  {
    var log := [item] + ([s] + next);
    assert log[0] == item && log[1] == s;
    assert forall i | 0 <= i < |next| :: log[i + 2] == next[i];
  }

  lemma GatherGoesOn(item: Item, target: Value, duration: int, s: Item, e: Item, tail: seq<Item>)
    requires IsMove(item) && item.target == target && IsSleep(s)
    requires IsMove(e) && e.target == target
    requires TakesRun(Gather(e, target, AsMap(e.parameters), duration + AsInt(s.parameters), tail),
                      duration + AsInt(s.parameters), Moments([e] + tail), target, [e] + tail)
    ensures TakesRun(Gather(item, target, AsMap(item.parameters), duration, [s] + ([e] + tail)), duration,
                     Moments([item] + ([s] + ([e] + tail))), target, [item] + ([s] + ([e] + tail)))
  {
    hide TakesRun, Moments, Gather, IsMove, IsSleep;
    var next, pause := [e] + tail, AsInt(s.parameters);
    var log := [item] + ([s] + next);
    MomentsTwo(item, s, next);
    GatherTwo(item, target, duration, s, e, tail);
    assert log[|log| - 1] == next[|next| - 1];
    TakesRunMore(Gather(e, target, AsMap(e.parameters), duration + pause, tail), duration, Moment(item, pause),
                 Moments(next), target, next, log);
  }

  lemma MomentsTwo(item: Item, s: Item, next: seq<Item>)
    requires IsMove(item) && IsSleep(s)
    ensures Moments([item] + ([s] + next)) == [Moment(item, AsInt(s.parameters))] + Moments(next)
  {
    var log := [item] + ([s] + next);
    assert log[1..] == [s] + next && ([s] + next)[1..] == next && log[1] == s;
  }

  lemma GatherTwo(item: Item, target: Value, duration: int, s: Item, e: Item, tail: seq<Item>)
    requires IsMove(e) && e.target == target
    ensures Gather(item, target, AsMap(item.parameters), duration, [s] + ([e] + tail))
         == Gather(e, target, AsMap(e.parameters), duration + AsInt(s.parameters), tail)
  {
    var rest := [s] + ([e] + tail);
    assert rest[2..] == tail && rest[1] == e && rest[0] == s;
  }

  lemma TakesRunMore(g: Gathered, duration: int, m: Moment, moments: seq<Moment>, target: Value, next: seq<Item>,
      log: seq<Item>)
    requires next != [] && TakesRun(g, duration + m.pause, moments, target, next)
    requires IsMove(m.event) && m.event.target == target && log != [] && log[|log| - 1] == next[|next| - 1]
    ensures TakesRun(g, duration, [m] + moments, target, log)
  {
    hide Moments, Alternating, IsMove, IsSleep;
    RunMore(m, moments, target);
    hide RunLength, Total;
    var n := RunLength(moments, target);
    assert ([m] + moments)[1 + n..] == moments[n..] && ([m] + moments)[n] == moments[n - 1];
  }

  lemma GatherEnds(item: Item, target: Value, duration: int, rest: seq<Item>)
    requires IsMove(item) && item.target == target && Alternating([item] + rest) && |rest| < 2
    ensures TakesRun(Gather(item, target, AsMap(item.parameters), duration, rest), duration,
                     Moments([item] + rest), target, [item] + rest)
  {
    var log := [item] + rest;
    assert log[1..] == rest && log[0] == item;
    var m := Moment(item, if rest == [] then 0 else AsInt(rest[0].parameters));
    if rest != [] {
      assert IsSleep(log[1]) && rest[1..] == [];
    }
    assert Moments(rest) == [];
    assert Moments(log) == [m] + [];
    RunMore(m, [], target);
  }

  lemma GatherStops(item: Item, target: Value, duration: int, s: Item, next: seq<Item>)
    requires IsMove(item) && item.target == target && IsSleep(s) && IsValid(s) && Alternating(next)
    requires next != [] && !IsSleep(next[0]) && !(IsMove(next[0]) && next[0].target == target)
    ensures TakesRun(Gather(item, target, AsMap(item.parameters), duration, [s] + next), duration,
                     Moments([item] + ([s] + next)), target, [item] + ([s] + next))
  {
    var log := [item] + ([s] + next);
    assert log[1..] == [s] + next && ([s] + next)[1..] == next && log[1] == s;
    var m, rest := Moment(item, AsInt(s.parameters)), Moments(next);
    assert Moments(log) == [m] + rest;
    assert RunLength(rest, target) == 0;
    RunMore(m, rest, target);
    assert ([m] + rest)[1..] == rest && ([m] + rest)[0] == m;
    var g := Gather(item, target, AsMap(item.parameters), duration, [s] + next);
    assert g == Gathered(AsMap(item.parameters), duration + m.pause, s, next);
    assert rest[..0] == [];
    assert log[|log| - 1] == next[|next| - 1];
  }

  lemma AlternatingTail(log: seq<Item>)
    requires Alternating(log) && log != []
    ensures IsValid(log[0]) && Alternating(log[1..])
    ensures |log| > 1 ==> IsSleep(log[0]) != IsSleep(log[1])
  {
    var tail := log[1..];
    assert forall i | 0 <= i < |tail| :: tail[i] == log[i + 1];
  }

  /** One step that is not a move: the item is appended as it is. */
  lemma PlainStep(input: seq<Item>, o: Output)
    requires Alternating(input) && input != [] && !IsMove(input[0]) && Fits(o, input)
    ensures var s := MoveStep(input[0], input[1..], o); var r := AppendValid(s.output, s.item).Next();
      && s.rest == input[1..] && s.processor == Moves && Fits(r, s.rest)
      && Events(r.items) + Collapsed(Moments(s.rest)) == Events(o.items) + Collapsed(Moments(input))
      && Leftover(s.rest) == Leftover(input)
  {
    hide Alternating, Events, Collapsed, Moments, Leftover, Gather, OneMove;
    AlternatingTail(input);
    AppendEvent(o.items, input[0]);
    PlainCollapsed(input);
    LeftoverTail(input);
    var a, c := Events(o.items), Collapsed(Moments(input[1..]));
    assert a + [input[0]] + c == a + ([input[0]] + c) && a + [] == a && [] + c == c;
  }

  lemma LeftoverTail(input: seq<Item>)
    requires input != [] && !IsMove(input[0])
    ensures Leftover(input[1..]) == Leftover(input)
  {
    if |input| > 1 {
      assert input[1..][|input| - 2] == input[|input| - 1];
    }
  }

  lemma PlainCollapsed(input: seq<Item>)
    requires input != [] && !IsMove(input[0])
    ensures Collapsed(Moments(input)) == (if IsSleep(input[0]) then [] else [input[0]]) + Collapsed(Moments(input[1..]))
  {
    if !IsSleep(input[0]) {
      assert Moments(input)[1..] == Moments(input[1..]);
    }
  }

  /** One step at a move: the run goes in as one event, and what is left follows it. */
  lemma RunStep(input: seq<Item>, o: Output)
    requires Alternating(input) && input != [] && IsMove(input[0]) && Fits(o, input)
    ensures var s := MoveStep(input[0], input[1..], o); var r := AppendValid(s.output, s.item).Next();
      && s.processor == Moves && Fits(r, s.rest) && Alternating(s.rest)
      && Events(r.items) + Collapsed(Moments(s.rest)) + Leftover(s.rest)
         == Events(o.items) + Collapsed(Moments(input)) + Leftover(input)
  {
    hide Collapsed, Moments, Events, Gather, Alternating, OneMove, Leftover, Fits;
    var item, rest := input[0], input[1..];
    var g := Gather(item, item.target, AsMap(item.parameters), 0, rest);
    RunCollapsed(input, g);
    RunOutput(input, g, o);
    var one := OneMove(item, g.parameters, g.duration);
    var left := if IsSleep(g.item) then [] else [g.item];
    Regroup(Events(o.items), [one], left, Collapsed(Moments(g.rest)), Leftover(g.rest), Leftover(input));
  }

  lemma Regroup<T>(a: seq<T>, b: seq<T>, left: seq<T>, c: seq<T>, d: seq<T>, e: seq<T>)
    requires left + c + d == c + e
    ensures a + b + left + c + d == a + (b + c) + e
  {
    assert a + b + left + c + d == (a + b) + (left + c + d);
  }

  lemma RunOutput(input: seq<Item>, g: Gathered, o: Output)
    requires input != [] && IsMove(input[0]) && Fits(o, input) && IsValid(g.item)
    requires g.rest != [] && !IsSleep(g.rest[0]) ==> IsSleep(g.item)
    ensures var one := OneMove(input[0], g.parameters, g.duration);
      var r := AppendValid(o.Insert(one, BeforeCurrentItem), g.item).Next();
      Fits(r, g.rest) && Events(r.items) == Events(o.items) + [one] + if IsSleep(g.item) then [] else [g.item]
  {
    hide Events, InsertAt, MoveParameters;
    var one := OneMove(input[0], g.parameters, g.duration);
    InsertEvent(o, one);
    AppendEvent(o.Insert(one, BeforeCurrentItem).items, g.item);
  }

  lemma RunCollapsed(input: seq<Item>, g: Gathered)
    requires Alternating(input) && input != [] && IsMove(input[0])
    requires g == Gather(input[0], input[0].target, AsMap(input[0].parameters), 0, input[1..])
    ensures Collapsed(Moments(input)) == [OneMove(input[0], g.parameters, g.duration)] + Collapsed(Moments(g.rest))
    ensures Alternating(g.rest) && IsValid(g.item) && (g.rest != [] && !IsSleep(g.rest[0]) ==> IsSleep(g.item))
    ensures (if IsSleep(g.item) then [] else [g.item]) + Collapsed(Moments(g.rest)) + Leftover(g.rest)
         == Collapsed(Moments(g.rest)) + Leftover(input)
  {
    hide Gather, OneMove, Alternating;
    var item, rest := input[0], input[1..];
    assert input == [item] + rest;
    GatherTakesRun(item, item.target, 0, rest);
    var moments := Moments(input);
    assert moments[0].event == item;
    hide Moments;
    var n := RunLength(moments, item.target);
    assert Collapsed(moments) == [OneMove(item, g.parameters, g.duration)] + Collapsed(moments[n..]);
    hide Collapsed;
    if g.rest == [] {
      NothingLeft();
    }
  }

  lemma NothingLeft()
    ensures Collapsed(Moments([])) == []
  {
  }

  lemma {:induction false} MovePassFrom(letterOrNumber: char -> bool, input: seq<Item>, o: Output)
    requires Alternating(input) && Fits(o, input)
    ensures Events(Pass(letterOrNumber, Moves, input, o).items)
         == Events(o.items) + Collapsed(Moments(input)) + Leftover(input)
    decreases |input|
  {
    hide Alternating, Fits, Events, Collapsed, Moments, MoveStep, AppendValid, Leftover;
    if input == [] {
      NothingLeft();
      NoLeftover();
    } else {
      if IsMove(input[0]) {
        RunStep(input, o);
      } else {
        AlternatingTail(input);
        PlainStep(input, o);
      }
      var s := MoveStep(input[0], input[1..], o);
      MovePassFrom(letterOrNumber, s.rest, AppendValid(s.output, s.item).Next());
    }
  }

  lemma NoLeftover()
    ensures Leftover([]) == []
  {
  }

  /**
    From an empty list, with the inserter one behind or at or past the end: sleeps aside, the pass leaves the events
    in order with every longest run of moves on one target made one, exactly when the log does not end in a move;
    such a log gets its last move once more.
   */
  lemma MovePassExactly(letterOrNumber: char -> bool, log: seq<Item>, o: Output)
    requires Alternating(log) && o.items == [] && o.appendedItems == 0 && o.itemIndex >= -1
    ensures var r := Pass(letterOrNumber, Moves, log, o).items;
      && Events(r) == Collapsed(Moments(log)) + Leftover(log)
      && (Events(r) == Collapsed(Moments(log)) <==> log == [] || !IsMove(log[|log| - 1]))
  {
    MovePassFrom(letterOrNumber, log, o);
    var r := Pass(letterOrNumber, Moves, log, o).items;
    assert |Events(r)| == |Collapsed(Moments(log))| + |Leftover(log)|;
  }

  /** The moments of a log are its events, in order. */
  lemma {:induction false} MomentsAreEvents(log: seq<Item>)
    ensures |Moments(log)| == |Events(log)|
    ensures forall i | 0 <= i < |Events(log)| :: Moments(log)[i].event == Events(log)[i]
  {
    if log != [] {
      MomentsAreEvents(log[1..]);
      EventsHead(log);
    }
  }

  lemma {:induction false} EventsHead(log: seq<Item>)
    requires log != []
    ensures Events(log) == (if IsSleep(log[0]) then [] else [log[0]]) + Events(log[1..])
  {
    hide Events, IsSleep;
    NoEvents();
    var init, last := log[..|log| - 1], log[|log| - 1];
    assert log == init + [last];
    AppendEvent(init, last);
    if init == [] {
      assert log[1..] == [];
    } else {
      EventsHead(init);
      assert log[1..] == init[1..] + [last];
      AppendEvent(init[1..], last);
    }
  }

  lemma NoEvents()
    ensures Events([]) == []
  {
  }
}
