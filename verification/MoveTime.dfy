/** How long a script waits before and after the mouse pass. */
module MoveTime {
  import opened Items
  import opened Passes
  import opened MovePass
  import opened MouseReplay

  /** The time an item waits: a sleep its length, a move what its replay asks for. */
  function TimeOf(item: Item): int {
    if IsSleep(item) then AsInt(item.parameters)
    else if IsMove(item) then TotalSleep(Replayed(AsMap(item.parameters)))
    else 0
  }

  function Time(items: seq<Item>): int {
    if items == [] then 0 else TimeOf(items[0]) + Time(items[1..])
  }

  /** The moves of a recorded log have no duration. */
  predicate Untimed(log: seq<Item>) {
    forall i | 0 <= i < |log| && IsMove(log[i]) :: "duration" !in AsMap(log[i].parameters)
  }

  /**
    Over the longest runs of moves on one target: what the replay of the run waits, less the time of the run, and the
    pause after it, which is part of that time and stays in the script as well.
   */
  function Excess(moments: seq<Moment>): int
    decreases |moments|
  {
    if moments == [] then 0
    else
      var first := moments[0].event;
      if !IsMove(first) then Excess(moments[1..])
      else
        var n := RunLength(moments, first.target);
        var total := Total(moments[..n]);
        var one := OneMove(first, AsMap(moments[n - 1].event.parameters), total);
        TimeOf(one) - total + moments[n - 1].pause + Excess(moments[n..])
  }

  lemma UntimedMove(item: Item)
    requires IsMove(item) && "duration" !in AsMap(item.parameters)
    ensures TimeOf(item) == 0
  {
    var r := Replayed(AsMap(item.parameters));
    assert r == [] + r;
    SleepMore([], r[0]);
  }

  lemma {:induction false} TimeConcat(a: seq<Item>, b: seq<Item>)
    ensures Time(a + b) == Time(a) + Time(b)
  {
    hide TimeOf;
    if a == [] {
      assert a + b == b;
    } else {
      assert (a + b)[1..] == a[1..] + b;
      TimeConcat(a[1..], b);
    }
  }

  lemma TimeOne(item: Item)
    ensures Time([item]) == TimeOf(item)
  {
    assert [item][1..] == [];
  }

  lemma TimeInsert(items: seq<Item>, position: int, item: Item)
    ensures Time(InsertAt(items, position, item)) == Time(items) + TimeOf(item)
  {
    hide TimeOf, Time;
    var p := if position < 0 then 0 else if position > |items| then |items| else position;
    var a, b := items[..p], items[p..];
    assert items == a + b && InsertAt(items, position, item) == a + [item] + b;
    TimeConcat(a, b);
    TimeConcat(a + [item], b);
    TimeConcat(a, [item]);
    TimeOne(item);
  }

  /** What `Gather` takes is in the duration; the item it leaves over repeats the pause after the run. */
  ghost predicate KeepsTime(g: Gathered, duration: int, moments: seq<Moment>, target: Value, rest: seq<Item>) {
    && g.duration - duration + Time(g.rest) == Time(rest) && Untimed(g.rest)
    && var n := RunLength(moments, target);
       n > 0 && TimeOf(g.item) == moments[n - 1].pause
  }

  lemma {:induction false} GatherKeepsTime(item: Item, target: Value, duration: int, rest: seq<Item>)
    requires IsMove(item) && item.target == target && Alternating([item] + rest) && Untimed([item] + rest)
    ensures KeepsTime(Gather(item, target, AsMap(item.parameters), duration, rest), duration,
                      Moments([item] + rest), target, rest)
    decreases |rest|
  {
    hide KeepsTime, Alternating, Untimed, Moments, Gather;
    if |rest| < 2 {
      EndKeepsTime(item, target, duration, rest);
    } else {
      var next := rest[1..];
      var e, tail := next[0], next[1..];
      assert rest == [rest[0]] + next && next == [e] + tail;
      TwoOn(item, rest[0], next);
      UntimedTail(item, rest[0], next);
      if IsMove(e) && e.target == target {
        GatherKeepsTime(e, target, duration + AsInt(rest[0].parameters), tail);
        OnKeepsTime(item, target, duration, rest[0], e, tail);
      } else {
        StopKeepsTime(item, target, duration, rest[0], next);
      }
    }
  }

  lemma UntimedTail(item: Item, s: Item, next: seq<Item>)
    requires Untimed([item] + ([s] + next))
    ensures Untimed(next)
  {
    var log := [item] + ([s] + next);
    assert forall i | 0 <= i < |next| :: next[i] == log[i + 2];
  }

  lemma EndKeepsTime(item: Item, target: Value, duration: int, rest: seq<Item>)
    requires IsMove(item) && item.target == target && Alternating([item] + rest) && Untimed([item] + rest) && |rest| < 2
    ensures KeepsTime(Gather(item, target, AsMap(item.parameters), duration, rest), duration,
                      Moments([item] + rest), target, rest)
  {
    var log := [item] + rest;
    assert log[1..] == rest && log[0] == item;
    UntimedMove(item);
    var m := Moment(item, if rest == [] then 0 else AsInt(rest[0].parameters));
    if rest != [] {
      assert IsSleep(log[1]) && rest[1..] == [];
    }
    assert Moments(rest) == [];
    assert Moments(log) == [m] + [];
    RunMore(m, [], target);
  }

  lemma StopKeepsTime(item: Item, target: Value, duration: int, s: Item, next: seq<Item>)
    requires IsMove(item) && item.target == target && IsSleep(s) && Untimed(next)
    requires next != [] && !IsSleep(next[0]) && !(IsMove(next[0]) && next[0].target == target)
    ensures KeepsTime(Gather(item, target, AsMap(item.parameters), duration, [s] + next), duration,
                      Moments([item] + ([s] + next)), target, [s] + next)
  {
    MomentsTwo(item, s, next);
    var m, rest := Moment(item, AsInt(s.parameters)), Moments(next);
    assert RunLength(rest, target) == 0;
    RunMore(m, rest, target);
    hide Moments, Untimed;
    assert ([s] + next)[1..] == next && ([s] + next)[0] == s && ([m] + rest)[0] == m;
    TimeConcat([s], next);
    TimeOne(s);
  }

  lemma OnKeepsTime(item: Item, target: Value, duration: int, s: Item, e: Item, tail: seq<Item>)
    requires IsMove(item) && item.target == target && IsSleep(s) && IsMove(e) && e.target == target
    requires Untimed([e] + tail)
    requires KeepsTime(Gather(e, target, AsMap(e.parameters), duration + AsInt(s.parameters), tail),
                       duration + AsInt(s.parameters), Moments([e] + tail), target, tail)
    ensures KeepsTime(Gather(item, target, AsMap(item.parameters), duration, [s] + ([e] + tail)), duration,
                      Moments([item] + ([s] + ([e] + tail))), target, [s] + ([e] + tail))
  {
    assert ([e] + tail)[0] == e;
    UntimedMove(e);
    hide TimeOf, Moments, Gather, Untimed;
    var next := [e] + tail;
    MomentsTwo(item, s, next);
    GatherTwo(item, target, duration, s, e, tail);
    var m, rest := Moment(item, AsInt(s.parameters)), Moments(next);
    RunMore(m, rest, target);
    var n := RunLength(rest, target);
    assert ([m] + rest)[n] == rest[n - 1];
    TimeConcat([s], next);
    TimeConcat([e], tail);
    TimeOne(s);
    TimeOne(e);
  }

  lemma ExcessPlain(input: seq<Item>)
    requires input != [] && !IsMove(input[0])
    ensures Excess(Moments(input)) == Excess(Moments(input[1..]))
  {
    hide TimeOf, OneMove;
    if !IsSleep(input[0]) {
      assert Moments(input)[1..] == Moments(input[1..]);
    }
  }

  lemma {:induction false} ExcessRun(input: seq<Item>, g: Gathered)
    requires Alternating(input) && Untimed(input) && input != [] && IsMove(input[0])
    requires g == Gather(input[0], input[0].target, AsMap(input[0].parameters), 0, input[1..])
    ensures Alternating(g.rest) && Untimed(g.rest) && IsValid(g.item)
    ensures var move := OneMove(input[0], g.parameters, g.duration);
            TimeOf(move) + TimeOf(g.item) + Time(g.rest) + Excess(Moments(g.rest))
            == Time(input) + Excess(Moments(input))
  {
    UntimedMove(input[0]);
    hide Gather, Alternating, Untimed, TimeOf, OneMove;
    var item, rest := input[0], input[1..];
    assert input == [item] + rest;
    GatherTakesRun(item, item.target, 0, rest);
    GatherKeepsTime(item, item.target, 0, rest);
    var moments := Moments(input);
    assert moments[0].event == item;
    hide Moments;
    ExcessOfRun(moments, RunLength(moments, item.target));
  }

  lemma ExcessOfRun(moments: seq<Moment>, n: nat)
    requires moments != [] && IsMove(moments[0].event) && n == RunLength(moments, moments[0].event.target)
    ensures n > 0
    ensures var first, last, total := moments[0].event, moments[n - 1], Total(moments[..n]);
      Excess(moments) ==
        TimeOf(OneMove(first, AsMap(last.event.parameters), total)) - total + last.pause + Excess(moments[n..])
  {
    hide TimeOf, OneMove;
  }

  lemma {:induction false} TimeFrom(letterOrNumber: char -> bool, input: seq<Item>, o: Output)
    requires Alternating(input) && Untimed(input)
    ensures Time(Pass(letterOrNumber, Moves, input, o).items) == Time(o.items) + Time(input) + Excess(Moments(input))
    decreases |input|
  {
    hide Alternating, Untimed, Excess, Moments, TimeOf, OneMove, Gather, InsertAt;
    if input == [] {
      NothingMore();
    } else {
      var item, rest := input[0], input[1..];
      var s := MoveStep(item, rest, o);
      if IsMove(item) {
        var g := Gather(item, item.target, AsMap(item.parameters), 0, rest);
        ExcessRun(input, g);
        TimeInsert(o.items, o.itemIndex, OneMove(item, g.parameters, g.duration));
      } else {
        AlternatingTail(input);
        UntimedRest(input);
        ExcessPlain(input);
      }
      TimeConcat(s.output.items, [s.item]);
      TimeOne(s.item);
      TimeFrom(letterOrNumber, s.rest, AppendValid(s.output, s.item).Next());
    }
  }

  lemma UntimedRest(log: seq<Item>)
    requires Untimed(log) && log != []
    ensures Untimed(log[1..])
  {
    assert forall i | 0 <= i < |log| - 1 :: log[1..][i] == log[i + 1];
  }

  lemma NothingMore()
    ensures Excess(Moments([])) == 0
  {
  }

  /**
    For every recorded log, wherever the inserter stands: the new list waits as long as the log and the excess of its
    runs. It waits as long as the log exactly when that comes to nothing.
   */
  lemma TimeExactly(letterOrNumber: char -> bool, log: seq<Item>, o: Output)
    requires Alternating(log) && Untimed(log) && o.items == []
    ensures var r := Pass(letterOrNumber, Moves, log, o).items;
      && Time(r) == Time(log) + Excess(Moments(log))
      && (Time(r) == Time(log) <==> Excess(Moments(log)) == 0)
  {
    TimeFrom(letterOrNumber, log, o);
  }

  // ----- Two logs that do not keep their time -----

  function MoveTo(x: int): Item {
    Item(Str("w"), "QWidget", "moveMouse", Map(map["x" := Int(x), "y" := Int(0)]))
  }

  function SleepFor(msec: int): Item {
    Statement("msleep", Int(msec))
  }

  const CLICK := Item(Str("w"), "QWidget", "pressMouseButton", Null)

  /** A move to 0 and one to `x`, with a pause after each, and a click. */
  function TwoMoves(p: int, x: int, q: int): seq<Item> {
    [MoveTo(0)] + ([SleepFor(p)] + ([MoveTo(x)] + ([SleepFor(q)] + [CLICK])))
  }

  lemma TwoMovesMean(p: int, x: int, q: int)
    ensures var log := TwoMoves(p, x, q);
      && Alternating(log) && Untimed(log) && Time(log) == p + q
      && Moments(log) == [Moment(MoveTo(0), p)] + ([Moment(MoveTo(x), q)] + [Moment(CLICK, 0)])
  {
    hide TimeOf;
    var tail := [MoveTo(x)] + ([SleepFor(q)] + [CLICK]);
    MomentsTwo(MoveTo(0), SleepFor(p), tail);
    MomentsTwo(MoveTo(x), SleepFor(q), [CLICK]);
    assert [CLICK][1..] == [] && Moments([CLICK]) == [Moment(CLICK, 0)] + Moments([]);
    TwoMovesTime(p, x, q);
  }

  lemma TwoMovesTime(p: int, x: int, q: int)
    ensures Time(TwoMoves(p, x, q)) == p + q
  {
    UntimedMove(MoveTo(0));
    UntimedMove(MoveTo(x));
    TimeOne(CLICK);
    assert TimeOf(SleepFor(p)) == p && TimeOf(SleepFor(q)) == q && TimeOf(CLICK) == 0;
    hide TimeOf;
    TimeConcat([SleepFor(q)], [CLICK]);
    TimeConcat([MoveTo(x)], [SleepFor(q)] + [CLICK]);
    TimeConcat([SleepFor(p)], [MoveTo(x)] + ([SleepFor(q)] + [CLICK]));
    TimeConcat([MoveTo(0)], [SleepFor(p)] + ([MoveTo(x)] + ([SleepFor(q)] + [CLICK])));
    TimeOne(MoveTo(0));
    TimeOne(MoveTo(x));
    TimeOne(SleepFor(p));
    TimeOne(SleepFor(q));
  }

  /** What the replay of the two moves waits. */
  function Waited(p: int, x: int, q: int): int {
    if x == 0 then 0 else (Abs(x) + 1) * Divided(p + q, Abs(x))
  }

  lemma OneMoveTime(p: int, x: int, q: int)
    ensures TimeOf(OneMove(MoveTo(0), AsMap(MoveTo(x).parameters), p + q)) == Waited(p, x, q)
  {
    var parameters := MoveParameters(AsMap(MoveTo(0).parameters), AsMap(MoveTo(x).parameters), p + q);
    assert Origin(parameters) == Point(0, 0) && Destination(parameters) == Point(x, 0);
    assert AsInt(Entry(parameters, "duration")) == p + q && Length(Point(0, 0), Point(x, 0)) == Abs(x);
    hide MoveParameters, Steps, Length, Origin, Destination;
    if x != 0 {
      StepsSleep(parameters, Abs(x) + 1);
    }
  }

  lemma TwoMovesExcess(p: int, x: int, q: int)
    ensures Excess(Moments(TwoMoves(p, x, q))) == Waited(p, x, q) - p
  {
    hide TimeOf, OneMove, Waited;
    TwoMovesMean(p, x, q);
    OneMoveTime(p, x, q);
    var a, b, c := Moment(MoveTo(0), p), Moment(MoveTo(x), q), Moment(CLICK, 0);
    var m := [a] + ([b] + [c]);
    assert c.event.target == Str("w") && RunLength([c], Str("w")) == 0;
    RunMore(b, [c], Str("w"));
    RunMore(a, [b] + [c], Str("w"));
    assert [c][..0] == [] && m[1] == b && m[2..] == [c] && [c][1..] == [];
    ExcessOfRun(m, 2);
  }

  /** From 0 to 10 with pauses of 10 and 5: the replay waits 11 and the pause of 5 stays, so that 15 become 16. */
  lemma TimeGained(letterOrNumber: char -> bool, o: Output)
    requires o.items == []
    ensures Time(TwoMoves(10, 10, 5)) == 15
    ensures Time(Pass(letterOrNumber, Moves, TwoMoves(10, 10, 5), o).items) == 16
  {
    hide Moments, Excess;
    TwoMovesMean(10, 10, 5);
    TwoMovesExcess(10, 10, 5);
    TimeExactly(letterOrNumber, TwoMoves(10, 10, 5), o);
  }

  /** Back to where it began after a pause of 20: nothing is replayed, and the 20 are gone. */
  lemma TimeLost(letterOrNumber: char -> bool, o: Output)
    requires o.items == []
    ensures Time(TwoMoves(20, 0, 0)) == 20
    ensures Time(Pass(letterOrNumber, Moves, TwoMoves(20, 0, 0), o).items) == 0
  {
    hide Moments, Excess;
    TwoMovesMean(20, 0, 0);
    TwoMovesExcess(20, 0, 0);
    TimeExactly(letterOrNumber, TwoMoves(20, 0, 0), o);
  }
}
