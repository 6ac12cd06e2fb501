/** `moveMouse`: a move with a duration is replayed as steps from its origin to its destination. */
module MouseReplay {
  import opened Items
  import opened Passes

  /** What the script asks of the application: a mouse move, or to wait. */
  datatype Request = MouseMove(parameters: map<string, Value>) | Sleep(msec: int)

  /** The conversion of a real number to an integer, towards zero. */
  function Truncated(x: real): int {
    if x >= 0.0 then x.Floor else -(-x).Floor
  }

  /** `qRound`, case by case. */
  function QRound(x: real): (r: int)
  {
    if x >= 0.0 then Truncated(x + 0.5)
    else Truncated(x - Truncated(x - 1.0) as real + 0.5) + Truncated(x - 1.0)
  }

  lemma QRoundIsNearest(x: real)
    ensures QRound(x) == (x + 0.5).Floor
  {
    if x < 0.0 {
      var t := Truncated(x - 1.0);
      assert x - t as real + 0.5 >= 0.0;
      assert (x - t as real + 0.5).Floor == (x + 0.5).Floor - t;
    }
  }

  function Abs(x: int): nat {
    if x < 0 then -x else x
  }

  /** Division of integers, towards zero. */
  function Divided(x: int, y: nat): int
    requires y > 0
  {
    if x >= 0 then x / y else -(-x / y)
  }

  datatype Point = Point(x: int, y: int)

  function Length(origin: Point, destination: Point): nat {
    Abs(destination.x - origin.x) + Abs(destination.y - origin.y)
  }

  /** One coordinate after `i` steps of `diff / length`, without rounding errors in between. */
  function Coordinate(origin: int, diff: int, length: nat, i: nat): int
    requires length > 0
  {
    QRound(origin as real + Offset(diff, length, i))
  }

  function Offset(diff: int, length: nat, i: nat): real
    requires length > 0
  {
    diff as real / length as real * i as real
  }

  function Position(origin: Point, destination: Point, i: nat): Point
    requires Length(origin, destination) > 0
  {
    var n := Length(origin, destination);
    Point(Coordinate(origin.x, destination.x - origin.x, n, i), Coordinate(origin.y, destination.y - origin.y, n, i))
  }

  const MOVE_KEYS := {"duration", "originX", "originY", "destinationX", "destinationY"}

  function Origin(parameters: map<string, Value>): Point {
    Point(AsInt(Entry(parameters, "originX")), AsInt(Entry(parameters, "originY")))
  }

  function Destination(parameters: map<string, Value>): Point {
    Point(AsInt(Entry(parameters, "destinationX")), AsInt(Entry(parameters, "destinationY")))
  }

  function StepParameters(parameters: map<string, Value>, p: Point): map<string, Value> {
    (parameters - MOVE_KEYS)["x" := Int(p.x)]["y" := Int(p.y)]
  }

  /** A move to each of the first `n` positions, and a wait after each. */
  function Steps(parameters: map<string, Value>, n: nat): (r: seq<Request>)
    requires Length(Origin(parameters), Destination(parameters)) > 0
    ensures |r| == 2 * n
  {
    if n == 0 then []
    else
      var origin, destination := Origin(parameters), Destination(parameters);
      var interval := Divided(AsInt(Entry(parameters, "duration")), Length(origin, destination));
      Steps(parameters, n - 1)
      + [MouseMove(StepParameters(parameters, Position(origin, destination, n - 1))), Sleep(interval)]
  }

  /** A plain move as it is; a collapsed one as steps, or as nothing if it leads nowhere. */
  function Replayed(parameters: map<string, Value>): (r: seq<Request>)
  {
    if "duration" !in parameters then [MouseMove(parameters)]
    else
      var n := Length(Origin(parameters), Destination(parameters));
      if n == 0 then [] else Steps(parameters, n + 1)
  }

  method MoveMouse(parameters: map<string, Value>) returns (requests: seq<Request>)
    ensures requests == Replayed(parameters)
  {
    hide Steps, Position, Divided, Length, StepParameters, Entry, Origin, Destination;
    if "duration" !in parameters {
      return [MouseMove(parameters)];
    }
    var duration := AsInt(Entry(parameters, "duration"));
    var origin, destination := Origin(parameters), Destination(parameters);
    var stepParameters := parameters - MOVE_KEYS;
    var length := Length(origin, destination);
    if length == 0 {
      return [];
    }
    var interval := Divided(duration, length);
    requests := [];
    StepsNone(parameters);
    for i := 0 to length + 1
      invariant requests == Steps(parameters, i)
      invariant stepParameters - {"x", "y"} == parameters - MOVE_KEYS - {"x", "y"}
    {
      var position := Position(origin, destination, i);
      StepMap(parameters, stepParameters, position);
      stepParameters := stepParameters["x" := Int(position.x)]["y" := Int(position.y)];
      StepsMore(parameters, i);
      requests := requests + [MouseMove(stepParameters)];
      requests := requests + [Sleep(interval)];
    }
  }

  lemma StepsNone(parameters: map<string, Value>)
    requires Length(Origin(parameters), Destination(parameters)) > 0
    ensures Steps(parameters, 0) == []
  {
  }

  lemma StepsMore(parameters: map<string, Value>, n: nat)
    requires Length(Origin(parameters), Destination(parameters)) > 0
    ensures var origin, destination := Origin(parameters), Destination(parameters);
      var interval := Divided(AsInt(Entry(parameters, "duration")), Length(origin, destination));
      Steps(parameters, n + 1) == Steps(parameters, n)
        + [MouseMove(StepParameters(parameters, Position(origin, destination, n)))] + [Sleep(interval)]
  {
    hide Position, Divided, Length, StepParameters, Entry, Origin, Destination;
  }

  /** Parameters that agree but for the coordinates agree once these are set. */
  lemma StepMap(parameters: map<string, Value>, before: map<string, Value>, p: Point)
    requires before - {"x", "y"} == parameters - MOVE_KEYS - {"x", "y"}
    ensures before["x" := Int(p.x)]["y" := Int(p.y)] == StepParameters(parameters, p)
    ensures StepParameters(parameters, p) - {"x", "y"} == parameters - MOVE_KEYS - {"x", "y"}
  {
    var a, b := before - {"x", "y"}, parameters - MOVE_KEYS;
    assert forall k | k in before && k != "x" && k != "y" :: k in a && a[k] == before[k];
    assert forall k | k in b && k != "x" && k != "y" :: k in a && a[k] == b[k];
  }

  lemma StepsAt(parameters: map<string, Value>, n: nat, i: nat)
    requires Length(Origin(parameters), Destination(parameters)) > 0 && i < n
    ensures var origin, destination := Origin(parameters), Destination(parameters);
      && Steps(parameters, n)[2 * i] == MouseMove(StepParameters(parameters, Position(origin, destination, i)))
      && Steps(parameters, n)[2 * i + 1]
         == Sleep(Divided(AsInt(Entry(parameters, "duration")), Length(origin, destination)))
  {
    if i < n - 1 {
      StepsAt(parameters, n - 1, i);
    }
  }

  // The path of the pointer.

  lemma CoordinateIs(origin: int, diff: int, length: nat, i: nat)
    requires length > 0
    ensures Coordinate(origin, diff, length, i) == origin + (Offset(diff, length, i) + 0.5).Floor
  {
    hide Offset;
    var x := Offset(diff, length, i);
    QRoundIsNearest(origin as real + x);
    assert (origin as real + x + 0.5).Floor == origin + (x + 0.5).Floor;
  }

  lemma OffsetEnds(diff: int, length: nat)
    requires length > 0
    ensures Offset(diff, length, 0) == 0.0 && Offset(diff, length, length) == diff as real
  {
  }

  lemma CoordinateEnds(origin: int, diff: int, length: nat)
    requires length > 0
    ensures Coordinate(origin, diff, length, 0) == origin && Coordinate(origin, diff, length, length) == origin + diff
  {
    hide Offset, Coordinate;
    CoordinateIs(origin, diff, length, 0);
    CoordinateIs(origin, diff, length, length);
    OffsetEnds(diff, length);
    assert (diff as real + 0.5).Floor == diff;
  }

  lemma OffsetStep(diff: int, length: nat, i: nat)
    requires length > 0 && Abs(diff) <= length
    ensures var d := Offset(diff, length, i + 1) - Offset(diff, length, i);
      if diff >= 0 then 0.0 <= d <= 1.0 else -1.0 <= d <= 0.0
  {
    Fraction(diff, length);
    OneMore(diff as real / length as real, i);
  }

  /** From one step to the next the pointer stays or moves one pixel, never away from the destination. */
  lemma CoordinateStep(origin: int, diff: int, length: nat, i: nat)
    requires length > 0 && Abs(diff) <= length
    ensures var d := Coordinate(origin, diff, length, i + 1) - Coordinate(origin, diff, length, i);
      if diff >= 0 then 0 <= d <= 1 else -1 <= d <= 0
  {
    hide Coordinate, Offset, Abs;
    CoordinateIs(origin, diff, length, i);
    CoordinateIs(origin, diff, length, i + 1);
    OffsetStep(diff, length, i);
    var a, b := Offset(diff, length, i) + 0.5, Offset(diff, length, i + 1) + 0.5;
    FloorStep(a, b);
  }

  lemma OneMore(s: real, i: nat)
    ensures s * (i + 1) as real == s * i as real + s
  {
  }

  lemma FloorStep(a: real, b: real)
    requires -1.0 <= b - a <= 1.0
    ensures b >= a ==> a.Floor <= b.Floor <= a.Floor + 1
    ensures b <= a ==> a.Floor - 1 <= b.Floor <= a.Floor
  {
  }

  lemma Fraction(diff: int, length: nat)
    requires length > 0 && Abs(diff) <= length
    ensures var s := diff as real / length as real; if diff >= 0 then 0.0 <= s <= 1.0 else -1.0 <= s <= 0.0
  {
    var s, n := diff as real / length as real, length as real;
    assert s * n == diff as real;
    Product(s, n);
  }

  lemma Product(s: real, n: real)
    requires n > 0.0
    ensures s > 1.0 ==> s * n > n
    ensures s < -1.0 ==> s * n < -n
    ensures s < 0.0 ==> s * n < 0.0
    ensures s > 0.0 ==> s * n > 0.0
  {
    if s > 1.0 {
      assert (s - 1.0) * n > 0.0;
    }
    if s < -1.0 {
      assert (s + 1.0) * n < 0.0;
    }
  }

  /** A walk: first at the origin, last at the destination, and at most a pixel per axis and step, always onwards. */
  lemma ReplayWalks(origin: Point, destination: Point)
    requires Length(origin, destination) > 0
    ensures Position(origin, destination, 0) == origin
    ensures Position(origin, destination, Length(origin, destination)) == destination
    ensures forall i: nat :: var p, q := Position(origin, destination, i), Position(origin, destination, i + 1);
      Onwards(origin.x, destination.x, p.x, q.x) && Onwards(origin.y, destination.y, p.y, q.y)
  {
    hide Coordinate;
    var n := Length(origin, destination);
    CoordinateEnds(origin.x, destination.x - origin.x, n);
    CoordinateEnds(origin.y, destination.y - origin.y, n);
    forall i: nat
      ensures var p, q := Position(origin, destination, i), Position(origin, destination, i + 1);
        Onwards(origin.x, destination.x, p.x, q.x) && Onwards(origin.y, destination.y, p.y, q.y)
    {
      CoordinateStep(origin.x, destination.x - origin.x, n, i);
      CoordinateStep(origin.y, destination.y - origin.y, n, i);
    }
  }

  /** From `a` to `b` is no step or one pixel in the direction of the whole move. */
  predicate Onwards(from: int, to: int, a: int, b: int) {
    if from <= to then a <= b <= a + 1 else a - 1 <= b <= a
  }

  /**
    At every step the pointer is, on each axis, within half a pixel of the straight line: after `i` of `n` steps the
    distance from the origin is `i / n` of the whole, rounded.
   */
  lemma ReplayStraight(origin: Point, destination: Point, i: nat)
    requires Length(origin, destination) > 0
    ensures var n: int, p := Length(origin, destination), Position(origin, destination, i);
      && -n <= 2 * n * (p.x - origin.x) - 2 * i * (destination.x - origin.x) <= n
      && -n <= 2 * n * (p.y - origin.y) - 2 * i * (destination.y - origin.y) <= n
  {
    hide Coordinate;
    var n := Length(origin, destination);
    CoordinateStraight(origin.x, destination.x - origin.x, n, i);
    CoordinateStraight(origin.y, destination.y - origin.y, n, i);
  }

  lemma CoordinateStraight(origin: int, diff: int, length: nat, i: nat)
    requires length > 0
    ensures var n: int := length; -n <= 2 * n * (Coordinate(origin, diff, length, i) - origin) - 2 * i * diff <= n
  {
    hide Coordinate, Offset;
    CoordinateIs(origin, diff, length, i);
    var c, x := Coordinate(origin, diff, length, i) - origin, Offset(diff, length, i);
    OffsetTimes(diff, length, i);
    assert -0.5 <= x - c as real <= 0.5;
    Scaled(x, c, length, i * diff);
    assert 2 * length * c == 2 * (length * c) && 2 * i * diff == 2 * (i * diff);
  }

  lemma OffsetTimes(diff: int, length: nat, i: nat)
    requires length > 0
    ensures Offset(diff, length, i) * length as real == (i * diff) as real
  {
    var d, n := diff as real / length as real, length as real;
    assert d * n == diff as real;
    assert d * i as real * n == d * n * i as real;
    assert (i * diff) as real == i as real * diff as real;
  }

  lemma Scaled(x: real, c: int, n: int, v: int)
    requires n > 0 && -0.5 <= x - c as real <= 0.5 && x * n as real == v as real
    ensures var d := n * c; -n <= 2 * d - 2 * v <= n
  {
    var d := n * c;
    RealOf(n, c);
    Nearby(x * n as real, c as real * n as real, x, c as real, n as real);
    Halves(v - d, n);
  }

  /** Named products, so that nothing is multiplied twice. */
  lemma Nearby(p: real, q: real, x: real, y: real, r: real)
    requires p == x * r && q == y * r && r > 0.0 && -0.5 <= x - y <= 0.5
    ensures -0.5 * r <= p - q <= 0.5 * r
  {
    ScaledReal(x, y, r);
  }

  lemma ScaledReal(x: real, y: real, r: real)
    requires r > 0.0 && -0.5 <= x - y <= 0.5
    ensures -0.5 * r <= x * r - y * r <= 0.5 * r
  {
    RealProduct(x - y, r);
    Distribute(x, y, r);
  }

  lemma Distribute(x: real, y: real, r: real)
    ensures (x - y) * r == x * r - y * r
  {
  }

  lemma RealOf(n: int, c: int)
    ensures (n * c) as real == c as real * n as real
  {
  }

  lemma Halves(d: int, n: int)
    requires -0.5 * n as real <= d as real <= 0.5 * n as real
    ensures -n <= 2 * d <= n
  {
  }

  lemma RealProduct(e: real, r: real)
    requires r > 0.0 && -0.5 <= e <= 0.5
    ensures -0.5 * r <= e * r <= 0.5 * r
  {
    NotNegativeReal(e + 0.5, r);
    NotNegativeReal(0.5 - e, r);
    Distribute(e, -0.5, r);
    Distribute(0.5, e, r);
  }

  lemma NotNegativeReal(a: real, b: real)
    requires a >= 0.0 && b >= 0.0
    ensures a * b >= 0.0
  {
  }

  // The time it takes.

  function TotalSleep(requests: seq<Request>): int {
    if requests == [] then 0
    else TotalSleep(requests[..|requests| - 1]) + match requests[|requests| - 1] case Sleep(t) => t case _ => 0
  }

  lemma {:induction false} StepsSleep(parameters: map<string, Value>, n: nat)
    requires Length(Origin(parameters), Destination(parameters)) > 0
    ensures TotalSleep(Steps(parameters, n))
         == n * Divided(AsInt(Entry(parameters, "duration")), Length(Origin(parameters), Destination(parameters)))
  {
    hide Steps, Position, Divided, Length, StepParameters, Entry, Origin, Destination;
    if n == 0 {
      StepsNone(parameters);
    } else {
      StepsSleep(parameters, n - 1);
      StepsMore(parameters, n - 1);
      var length := Length(Origin(parameters), Destination(parameters));
      var interval := Divided(AsInt(Entry(parameters, "duration")), length);
      var move := MouseMove(StepParameters(parameters, Position(Origin(parameters), Destination(parameters), n - 1)));
      SleepMore(Steps(parameters, n - 1), move);
      SleepMore(Steps(parameters, n - 1) + [move], Sleep(interval));
      Times(n - 1, interval);
    }
  }

  lemma SleepMore(requests: seq<Request>, r: Request)
    ensures TotalSleep(requests + [r]) == TotalSleep(requests) + match r case Sleep(t) => t case _ => 0
  {
    assert (requests + [r])[..|requests|] == requests;
  }

  lemma Times(n: nat, q: int)
    ensures (n + 1) * q == n * q + q && (n + 1) * -q == -((n + 1) * q)
  {
  }

  lemma Quotient(d: nat, n: nat)
    requires n > 0
    ensures d - n < n * (d / n) <= d
  {
    assert d == n * (d / n) + d % n;
  }

  /** The waits add up to no more than the duration and one interval, and fall short of it by less than a step each. */
  lemma ReplayTime(parameters: map<string, Value>)
    requires "duration" in parameters && Length(Origin(parameters), Destination(parameters)) > 0
    ensures var n := Length(Origin(parameters), Destination(parameters));
      var duration := AsInt(Entry(parameters, "duration"));
      && Abs(TotalSleep(Replayed(parameters))) <= Abs(duration) + Abs(duration) / n
      && Abs(TotalSleep(Replayed(parameters))) > Abs(duration) + Abs(duration) / n - n
  {
    hide Steps, Length, Entry, Origin, Destination, TotalSleep;
    var n := Length(Origin(parameters), Destination(parameters));
    var duration := AsInt(Entry(parameters, "duration"));
    StepsSleep(parameters, n + 1);
    TimeBound(duration, n);
  }

  lemma TimeBound(duration: int, n: nat)
    requires n > 0
    ensures var total := Abs((n + 1) * Divided(duration, n));
      Abs(duration) + Abs(duration) / n - n < total <= Abs(duration) + Abs(duration) / n
  {
    hide Divided, Abs;
    var q := Abs(duration) / n;
    Quotient(Abs(duration), n);
    Times(n, q);
    AbsTimes(duration, n);
  }

  lemma AbsTimes(duration: int, n: nat)
    requires n > 0
    ensures Abs((n + 1) * Divided(duration, n)) == (n + 1) * (Abs(duration) / n)
  {
    DividedIs(duration, n);
    hide Divided;
    Signed(n + 1, Abs(duration) / n);
  }

  lemma DividedIs(duration: int, n: nat)
    requires n > 0
    ensures Divided(duration, n) == if duration >= 0 then Abs(duration) / n else -(Abs(duration) / n)
  {
  }

  lemma Signed(a: int, q: int)
    requires a >= 0 && q >= 0
    ensures Abs(a * q) == a * q && Abs(a * -q) == a * q
  {
    NotNegative(a, q);
    Negated(a, q);
  }

  lemma Negated(a: int, q: int)
    ensures a * -q == -(a * q)
  {
  }

  lemma NotNegative(a: nat, b: nat)
    ensures a * b >= 0
  {
  }

  /**
    A collapsed move counted out in its own parameters, `dx` and `dy` its extent: one move more than the pixels it is
    long on both axes together, each on the pixel nearest to the straight line and with the other parameters, and after
    each a wait of the duration divided by that length, rounded towards zero.
   */
  lemma ReplayCounted(parameters: map<string, Value>, dx: int, dy: int)
    requires "duration" in parameters
    requires dx == AsInt(Entry(parameters, "destinationX")) - AsInt(Entry(parameters, "originX"))
    requires dy == AsInt(Entry(parameters, "destinationY")) - AsInt(Entry(parameters, "originY"))
    ensures var n, r := Extent(dx) + Extent(dy), Replayed(parameters);
      if n == 0 then r == []
      else
        && |r| == 2 * (n + 1)
        && forall i | 0 <= i <= n :: StepIs(parameters, dx, dy, n, i, r[2 * i]) && WaitIs(parameters, n, r[2 * i + 1])
  {
    hide Steps, StepIs, WaitIs, Length, Extent, Entry;
    var n := Length(Origin(parameters), Destination(parameters));
    LengthIs(Origin(parameters), Destination(parameters));
    if n > 0 {
      forall i | 0 <= i <= n
        ensures var r := Steps(parameters, n + 1);
          StepIs(parameters, dx, dy, n, i, r[2 * i]) && WaitIs(parameters, n, r[2 * i + 1])
      {
        StepCounted(parameters, dx, dy, i, n);
      }
    }
  }

  /** How far apart two coordinates are. */
  function Extent(d: int): (n: int)
    ensures n >= 0 && (n == d || n == -d)
  {
    if d < 0 then -d else d
  }

  /** Step `i` of `n`: rounded, the origin and `i / n` of the extent on each axis; the other parameters stay. */
  predicate StepIs(parameters: map<string, Value>, dx: int, dy: int, n: int, i: int, r: Request) {
    && r.MouseMove? && {"x", "y"} <= r.parameters.Keys && r.parameters["x"].Int? && r.parameters["y"].Int?
    && -n <= 2 * n * (r.parameters["x"].number - AsInt(Entry(parameters, "originX"))) - 2 * i * dx <= n
    && -n <= 2 * n * (r.parameters["y"].number - AsInt(Entry(parameters, "originY"))) - 2 * i * dy <= n
    && r.parameters - {"x", "y"} == parameters - MOVE_KEYS - {"x", "y"}
  }

  /** What is left of the duration after `n` such waits is less than one of the `n` parts more. */
  predicate WaitIs(parameters: map<string, Value>, n: int, r: Request)
    requires "duration" in parameters
  {
    && r.Sleep?
    && var duration := AsInt(parameters["duration"]);
       var left := duration - n * r.msec;
       if duration >= 0 then 0 <= left < n else -n < left <= 0
  }

  lemma StepCounted(parameters: map<string, Value>, dx: int, dy: int, i: nat, n: nat)
    requires "duration" in parameters && i <= n == Length(Origin(parameters), Destination(parameters)) && n > 0
    requires dx == Destination(parameters).x - Origin(parameters).x
    requires dy == Destination(parameters).y - Origin(parameters).y
    ensures var r := Steps(parameters, n + 1);
      StepIs(parameters, dx, dy, n, i, r[2 * i]) && WaitIs(parameters, n, r[2 * i + 1])
  {
    hide Steps, Position, Divided, Length;
    StepsAt(parameters, n + 1, i);
    DividedLeaves(AsInt(parameters["duration"]), n);
    ReplayStraight(Origin(parameters), Destination(parameters), i);
    var p := Position(Origin(parameters), Destination(parameters), i);
    assert StepParameters(parameters, p) - {"x", "y"} == parameters - MOVE_KEYS - {"x", "y"};
  }

  lemma DividedLeaves(x: int, n: int)
    requires n > 0
    ensures var left := x - n * Divided(x, n); if x >= 0 then 0 <= left < n else -n < left <= 0
  {
    DividedIs(x, n);
    Quotient(Abs(x), n);
    Negated(n, Abs(x) / n);
  }

  /**
    A move that a run was collapsed to, played back: it starts at the first point of the run and ends at its last with
    the other parameters of its last move, through as many steps as the points are apart.
   */
  lemma CollapsedReplays(first: map<string, Value>, last: map<string, Value>, duration: int)
    requires forall k | k in MOVE_KEYS :: k !in last
    requires Entry(last, "x").Int? && Entry(last, "y").Int?
    ensures var parameters := MoveParameters(first, last, duration);
      var origin := Point(AsInt(Entry(first, "x")), AsInt(Entry(first, "y")));
      var destination := Point(last["x"].number, last["y"].number);
      var n := Extent(destination.x - origin.x) + Extent(destination.y - origin.y);
      var r := Replayed(parameters);
      if n == 0 then r == []
      else
        && |r| == 2 * (n + 1)
        && r[0] == MouseMove(last["x" := Int(origin.x)]["y" := Int(origin.y)]) && r[2 * n] == MouseMove(last)
  {
    hide MoveParameters, Steps, Position, Length, Origin, Destination, StepParameters;
    var parameters := MoveParameters(first, last, duration);
    var origin := Point(AsInt(Entry(first, "x")), AsInt(Entry(first, "y")));
    var destination := Point(last["x"].number, last["y"].number);
    CollapsedKeys(first, last, duration);
    var n := Length(origin, destination);
    LengthIs(origin, destination);
    if n > 0 {
      StepsAt(parameters, n + 1, 0);
      StepsAt(parameters, n + 1, n);
      ReplayWalks(origin, destination);
      StepsBack(parameters, last, origin);
      StepsBack(parameters, last, destination);
      assert last["x" := Int(destination.x)]["y" := Int(destination.y)] == last;
    }
  }

  lemma LengthIs(p: Point, q: Point)
    ensures Length(p, q) == Extent(q.x - p.x) + Extent(q.y - p.y)
  {
  }

  lemma CollapsedKeys(first: map<string, Value>, last: map<string, Value>, duration: int)
    requires forall k | k in MOVE_KEYS :: k !in last
    ensures var p := MoveParameters(first, last, duration);
      && "duration" in p && p - MOVE_KEYS == last - {"x", "y"}
      && Origin(p) == Point(AsInt(Entry(first, "x")), AsInt(Entry(first, "y")))
      && Destination(p) == Point(AsInt(Entry(last, "x")), AsInt(Entry(last, "y")))
  {
  }

  lemma StepsBack(parameters: map<string, Value>, last: map<string, Value>, p: Point)
    requires parameters - MOVE_KEYS == last - {"x", "y"}
    ensures StepParameters(parameters, p) == last["x" := Int(p.x)]["y" := Int(p.y)]
  {
  }
}
