/**
  The playback protocol between the Interpreter (client) and the injected Player (server) over two
  FIFO channels, as a state machine. Client and server steps interleave freely.
 */
module AckProtocol {

  // ----- Commands and the events they expand to -----

  /** Start elements the client writes, with the root element. */
  datatype Name =
    | Hooq | Msec | DumpName | PickName | DragAndDrop
    | WindowClosed | ContextMenu | FocusChanged | KeyPress | KeyRelease
    | MouseMove | MouseButtonPress | MouseButtonDoubleClick | MouseButtonRelease | MouseWheel | Shortcut

  datatype Point = Point(x: int, y: int)

  /** A command with the parameters that decide what it expands to: a drag-and-drop has two ends, a wait its time. */
  datatype Command = Command(
    name: Name, target: string, targetPoint: Point, source: string, sourcePoint: Point, msec: int)

  /** What the build and `QApplication` decide: how long and how far a button is held down before a drag begins. */
  datatype Platform = Platform(windows: bool, dragTime: nat, dragDistance: nat)

  /** The client calls `waitForAck` after writing these. */
  predicate Waits(c: Command) {
    !c.name.Hooq? && !c.name.DumpName? && !c.name.PickName?
  }

  datatype Kind = Ack | Dump | Drop | Focus | Object | Pick | Sleep | Flush | Close

  /** What an event brings: a wait, the left button at a point, or what its element asks for. */
  datatype Input =
    | Nothing | Wait(msec: int) | Press(at: Point) | MoveTo(at: Point) | Release(at: Point) | Posted(name: Name)

  datatype Event = Event(kind: Kind, ack: bool, path: string, input: Input)

  /** The event makes the Player write an ACK when it is done with it. */
  predicate Producing(e: Event) {
    e.ack && e.kind !in {Dump, Flush, Pick}
  }

  function WithoutAck(kind: Kind, path: string, input: Input): Event {
    Event(kind, false, path, input)
  }

  function Below(p: Point, d: int): Point {
    Point(p.x, p.y + d)
  }

  /** The parts of the drag-and-drop macro; two of the flushes are absent on Windows. */
  function DragParts(platform: Platform, c: Command): (es: seq<Event>)
    ensures forall e | e in es :: !e.ack
  {
    var flush := if platform.windows then [] else [WithoutAck(Flush, "", Nothing)];
    flush + [WithoutAck(Focus, c.source, Nothing)] + flush
    + [WithoutAck(Object, c.source, Press(c.sourcePoint)),
       WithoutAck(Object, c.source, MoveTo(Below(c.sourcePoint, 1))),
       WithoutAck(Sleep, "", Wait(platform.dragTime + 1)),
       WithoutAck(Object, c.source, MoveTo(Below(c.sourcePoint, platform.dragDistance + 1))),
       WithoutAck(Object, c.target, MoveTo(c.targetPoint)),
       WithoutAck(Drop, c.target, Release(c.targetPoint)),
       WithoutAck(Flush, "", Nothing)]
  }

  /** The macro as a whole is acknowledged by its last event. */
  function DragAndDropEvents(platform: Platform, c: Command): (es: seq<Event>) {
    DragParts(platform, c) + [Event(Ack, true, "", Nothing)]
  }

  /** `handleElement`: what one start element appends to the event queue. */
  function Expand(platform: Platform, c: Command): (es: seq<Event>) {
    match c.name
    case Hooq => []
    case Msec => [Event(Sleep, true, "", Wait(c.msec))]
    case DumpName => [Event(Dump, true, c.target, Nothing)]
    case PickName => [Event(Pick, true, "", Nothing)]
    case DragAndDrop => DragAndDropEvents(platform, c)
    case WindowClosed => [Event(Close, true, c.target, Nothing)]
    case FocusChanged => [Event(Focus, true, c.target, Nothing)]
    case _ => [Event(Object, true, c.target, Posted(c.name))]
  }

  function Acks(es: seq<Event>): nat {
    if es == [] then 0 else (if Producing(es[0]) then 1 else 0) + Acks(es[1..])
  }

  /** The events of a list of commands, in order. */
  function EventsOf(platform: Platform, cs: seq<Command>): seq<Event> {
    if cs == [] then [] else EventsOf(platform, cs[..|cs| - 1]) + Expand(platform, cs[|cs| - 1])
  }

  lemma {:induction false} AcksConcat(a: seq<Event>, b: seq<Event>)
    ensures Acks(a + b) == Acks(a) + Acks(b)
  {
    if a == [] {
      assert a + b == b;
    } else {
      assert (a + b)[1..] == a[1..] + b;
      AcksConcat(a[1..], b);
    }
  }

  lemma {:induction false} AcksAt(es: seq<Event>, i: nat)
    requires i < |es| && Producing(es[i])
    ensures Acks(es) >= 1
  {
    if i > 0 {
      AcksAt(es[1..], i - 1);
    }
  }

  lemma {:induction false} NoAcks(es: seq<Event>)
    requires forall e | e in es :: !Producing(e)
    ensures Acks(es) == 0
  {
    if es != [] {
      NoAcks(es[1..]);
    }
  }

  /**
    A command the client waits for yields exactly one ACK, from its last event; any other yields
    none. Only that last event of a macro may be acknowledged.
   */
  lemma ExpandAcks(platform: Platform, c: Command)
    ensures Acks(Expand(platform, c)) == if Waits(c) then 1 else 0
    ensures Waits(c) ==> Expand(platform, c) != [] && Producing(Expand(platform, c)[|Expand(platform, c)| - 1])
    ensures forall i | 0 <= i < |Expand(platform, c)| - 1 :: !Expand(platform, c)[i].ack
    ensures !Waits(c) ==> forall e | e in Expand(platform, c) :: e.ack
  {
    if c.name.DragAndDrop? {
      var parts := DragParts(platform, c);
      NoAcks(parts);
      AcksConcat(parts, [Event(Ack, true, "", Nothing)]);
    }
  }

  /**
    Where a drag-and-drop goes: it waits once, at `wait`, and drops once, at `drop`. The focus and everything up to the
    first move after the wait go to the source, the move right before the drop and the drop itself to the target, and
    nothing in between lets other events in.
   */
  lemma DragPlaces(platform: Platform, c: Command) returns (wait: nat, drop: nat)
    requires c.name.DragAndDrop?
    ensures var es := Expand(platform, c);
      && wait + 2 < drop < |es| - 1
      && (forall i | 0 <= i < |es| :: (es[i].kind.Sleep? <==> i == wait) && (es[i].kind.Drop? <==> i == drop))
      && es[drop].path == c.target && es[drop].input == Release(c.targetPoint)
      && es[drop - 1].kind.Object? && es[drop - 1].path == c.target && es[drop - 1].input == MoveTo(c.targetPoint)
      && (forall i | 0 <= i <= wait + 1 && es[i].kind in {Focus, Object} :: es[i].path == c.source)
      && (forall i | wait < i < drop :: es[i].kind.Object?)
      && (forall i | drop < i < |es| :: es[i].kind in {Flush, Ack})
    ensures DragBegins(platform, c, Expand(platform, c), wait)
  {
    hide DragBegins, Expand;
    var es := Expand(platform, c);
    DragStarts(platform, c);
    DragList(platform, c);
    wait, drop := |es| - 6, |es| - 3;
  }

  /** The events before the button goes down, and those from then on. */
  lemma DragList(platform: Platform, c: Command)
    requires c.name.DragAndDrop?
    ensures var es := Expand(platform, c); var n := |es|;
      && n >= 9
      && (forall i | 0 <= i < n - 8 :: es[i].kind in {Focus, Flush} && (es[i].kind.Focus? ==> es[i].path == c.source))
      && es[n - 8].kind == es[n - 7].kind == Object && es[n - 8].path == es[n - 7].path == c.source
      && es[n - 6].kind == Sleep && es[n - 5].kind == Object && es[n - 5].path == c.source
      && es[n - 4] == WithoutAck(Object, c.target, MoveTo(c.targetPoint))
      && es[n - 3] == WithoutAck(Drop, c.target, Release(c.targetPoint))
      && es[n - 2].kind == Flush && es[n - 1].kind == Ack
  {
  }

  lemma DragStarts(platform: Platform, c: Command)
    requires c.name.DragAndDrop?
    ensures var es := Expand(platform, c); |es| >= 9 && DragBegins(platform, c, es, |es| - 6)
  {
    var es := Expand(platform, c);
    var wait, press := |es| - 6, |es| - 8;
    var focus := press - if platform.windows then 1 else 2;
    assert es[focus].kind.Focus?;
    assert forall i | 0 <= i < |es| && es[i].input.Press? :: i == press;
    assert es[press] == WithoutAck(Object, c.source, Press(c.sourcePoint));
    assert es[press + 1] == WithoutAck(Object, c.source, MoveTo(Below(c.sourcePoint, 1)));
    assert es[wait].input == Wait(platform.dragTime + 1);
    assert es[wait + 1].input == MoveTo(Below(c.sourcePoint, platform.dragDistance + 1));
    hide Expand;
    assert Begins(platform, c, es, focus, press, press + 1, wait);
  }

  /**
    What makes the toolkit start a drag: the source has the focus, the button goes down on it once, at the point asked
    for, the pointer moves, and it moves again after longer than the drag time by more than the drag distance.
   */
  ghost predicate DragBegins(platform: Platform, c: Command, es: seq<Event>, wait: nat) {
    exists focus, press, nudge :: Begins(platform, c, es, focus, press, nudge, wait)
  }

  predicate Begins(platform: Platform, c: Command, es: seq<Event>, focus: int, press: int, nudge: int, wait: int) {
    && 0 <= focus < press < nudge < wait < |es| - 1 && es[focus].kind.Focus?
    && (forall i | 0 <= i < |es| :: es[i].input.Press? <==> i == press)
    && es[press].kind.Object? && es[press].input == Press(c.sourcePoint)
    && es[nudge].kind.Object? && es[nudge].input.MoveTo? && es[nudge].input.at != c.sourcePoint
    && es[wait].input.Wait? && es[wait].input.msec > platform.dragTime
    && es[wait + 1].input.MoveTo? && Distance(es[wait + 1].input.at, c.sourcePoint) > platform.dragDistance
  }

  /** The Manhattan distance. */
  function Distance(p: Point, q: Point): int {
    (if p.x < q.x then q.x - p.x else p.x - q.x) + if p.y < q.y then q.y - p.y else p.y - q.y
  }

  /** Any other command but the root element yields one event, for its target if it names one, of its own kind. */
  lemma SingleEvent(platform: Platform, c: Command)
    requires !c.name.DragAndDrop? && !c.name.Hooq?
    ensures |Expand(platform, c)| == 1
    ensures var e := Expand(platform, c)[0];
      && e.ack
      && (!c.name.Msec? && !c.name.PickName? ==> e.path == c.target)
      && (e.kind.Sleep? <==> c.name.Msec?) && (e.kind.Sleep? ==> e.input == Wait(c.msec))
      && (e.kind.Dump? <==> c.name.DumpName?) && (e.kind.Pick? <==> c.name.PickName?)
      && (e.kind.Close? <==> c.name.WindowClosed?) && (e.kind.Focus? <==> c.name.FocusChanged?)
      && (e.kind.Object? ==> e.input == Posted(c.name)) && e.kind !in {Ack, Drop, Flush}
  {
  }

  lemma EventsOfSnoc(platform: Platform, cs: seq<Command>, n: nat)
    requires n < |cs|
    ensures EventsOf(platform, cs[..n + 1]) == EventsOf(platform, cs[..n]) + Expand(platform, cs[n])
  {
    assert cs[..n + 1][..n] == cs[..n];
  }

  lemma {:induction false} EventsOfPrefix(platform: Platform, cs: seq<Command>, n: nat)
    requires n <= |cs|
    ensures EventsOf(platform, cs[..n]) <= EventsOf(platform, cs)
  {
    if n < |cs| {
      EventsOfPrefix(platform, cs[..|cs| - 1], n);
      assert cs[..|cs| - 1][..n] == cs[..n];
    } else {
      assert cs[..n] == cs;
    }
  }

  /** Two ways of cutting a sequence in two. */
  lemma TwoCuts<T>(a: seq<T>, b: seq<T>, c: seq<T>, d: seq<T>)
    requires a + b == c + d && |a| <= |c|
    ensures c == a + c[|a|..] && b == c[|a|..] + d && d == b[|c| - |a|..]
  {
    assert c == (c + d)[..|c|] == (a + b)[..|c|];
    assert b == (a + b)[|a|..] == (c + d)[|a|..];
    assert (c + d)[|a|..] == c[|a|..] + d;
  }

  /** Cut the events anywhere after an unacknowledged one: the ACK of its command is still to come. */
  lemma {:induction false} AckStillToCome(platform: Platform, cs: seq<Command>, a: seq<Event>, b: seq<Event>)
    requires EventsOf(platform, cs) == a + b && a != [] && !a[|a| - 1].ack
    ensures Acks(b) >= 1
  {
    var n := |cs| - 1;
    var front, block := EventsOf(platform, cs[..n]), Expand(platform, cs[n]);
    assert a + b == front + block;
    ExpandAcks(platform, cs[n]);
    if |front| < |a| {
      var k := |a| - |front|;
      TwoCuts(front, block, a, b);
      assert a[|a| - 1] == block[k - 1];
      assert k < |block|;
      AcksAt(b, |b| - 1);
    } else {
      var rest := front[|a|..];
      TwoCuts(a, b, front, block);
      AckStillToCome(platform, cs[..n], a, rest);
      AcksConcat(rest, block);
    }
  }

  // ----- The Player -----

  datatype Reply = ACK | DUMPED | PICKED | NOTFOUND(path: string)

  /** Where the Player's thread is: in the event loop, in `processEvents`, in a flush inside it. */
  datatype Control = Idle | Looping | Flushing

  /** The Player's fields, its position, and the events it has taken from its queue so far. */
  datatype Player = Player(
    queue: seq<Event>, processing: bool, ackNext: bool, picking: bool, timer: bool, control: Control,
    endRead: bool, finished: bool, log: seq<Event>,
    // the loop was entered from inside the reading loop of `readNext`, which looks for the end when it returns
    reading: bool)

  /** A transition of the Player together with what it writes to the socket. */
  type Moved = (Player, seq<Reply>)

  /** `ack()`. */
  function AckIf(ackNext: bool): seq<Reply> {
    if ackNext then [ACK] else []
  }

  /** Entering `processEvents`: a no-op when the guard is set. */
  function EnterLoop(p: Player, reading: bool): Player {
    if p.processing then p else p.(processing := true, control := Looping, reading := reading)
  }

  function ReadStartElement(p: Player, es: seq<Event>): Player {
    EnterLoop(p.(queue := p.queue + es), true)
  }

  function ReadEndDocument(p: Player): Moved {
    (EnterLoop(p.(endRead := true), false), AckIf(p.ackNext))
  }

  /** The event at the head of the queue is taken and the ack register set from it. */
  function Taken(p: Player): Player
    requires p.queue != []
  {
    p.(queue := p.queue[1..], log := p.log + [p.queue[0]], ackNext := p.queue[0].ack)
  }

  /** `readNext` gets control back and finds that a flush has read the end: it acknowledges it again. */
  predicate Late(p: Player) {
    p.reading && p.endRead && p.ackNext
  }

  /** Taking the next event ends the loop and makes up for the ACK of the end that a flush has read. */
  predicate LateAck(p: Player)
    requires p.queue != []
  {
    p.queue[0].kind in {Sleep, Pick} && Late(Taken(p))
  }

  /** What is done with a taken event, and what is written for it. */
  function Dispatch(p: Player, e: Event, found: bool): Moved {
    match e.kind
    case Ack => (p, AckIf(e.ack))
    case Close => (p, AckIf(e.ack))
    case Dump => (p, [DUMPED])
    case Flush => (p.(control := Flushing), [])
    case Pick => (p.(picking := true, control := Idle, reading := false), AckIf(Late(p)))
    case Sleep => (p.(timer := true, control := Idle, reading := false), AckIf(Late(p)))
    case _ => (p, (if found then [] else [NOTFOUND(e.path)]) + AckIf(e.ack))
  }

  /** One pass of the loop in `processEvents`. */
  function DequeueOne(p: Player, found: bool): Moved
    requires p.queue != []
  {
    Dispatch(Taken(p), p.queue[0], found)
  }

  /** The loop finds the queue empty; at the end of the document it signals `finished`. */
  function LeaveLoop(p: Player): Player {
    p.(processing := false, control := Idle, finished := p.finished || p.endRead, reading := false)
  }

  function WaitFinished(p: Player): Moved {
    (EnterLoop(p.(timer := false, processing := false), false), AckIf(p.ackNext))
  }

  function EndPick(p: Player): Moved {
    (EnterLoop(p.(picking := false, processing := false), false), [PICKED])
  }

  /** The re-entrancy guard is set exactly while the loop runs or a sleep or a pick is in progress. */
  ghost predicate Guarded(p: Player) {
    && (p.processing <==> p.control != Idle || p.timer || p.picking)
    && (p.timer || p.picking ==> p.control == Idle)
    && !(p.timer && p.picking)
    && (!p.processing ==> p.queue == [])
    && (p.log != [] ==> p.ackNext == p.log[|p.log| - 1].ack)
    && (p.timer ==> p.log != [] && p.log[|p.log| - 1].kind == Sleep)
    && (p.picking ==> p.log != [] && p.log[|p.log| - 1].kind == Pick)
    && (p.control == Flushing ==> p.log != [] && p.log[|p.log| - 1].kind == Flush)
    && (p.finished ==> p.endRead && !p.processing && p.queue == [])
    && (p.endRead && !p.processing ==> p.finished)
    && (p.reading ==> p.control != Idle)
  }

  /** ACKs the Player will still write for the events it holds. */
  function Owed(p: Player): nat {
    Acks(p.queue) + if p.timer && p.ackNext then 1 else 0
  }

  function AckReplies(rs: seq<Reply>): nat {
    if rs == [] then 0 else (if rs[0].ACK? then 1 else 0) + AckReplies(rs[1..])
  }

  /** Reading in any position the Player reads in: the guard is kept, and only enqueueing happens under it. */
  lemma ReadStartKeeps(p: Player, es: seq<Event>)
    requires Guarded(p) && p.control != Looping && !p.endRead
    ensures Guarded(ReadStartElement(p, es))
    ensures Owed(ReadStartElement(p, es)) == Owed(p) + Acks(es)
    ensures p.processing ==> ReadStartElement(p, es) == p.(queue := p.queue + es)
  {
    AcksConcat(p.queue, es);
  }

  lemma DequeueKeeps(p: Player, found: bool)
    requires Guarded(p) && p.control == Looping && p.queue != []
    ensures var (p', out) := DequeueOne(p, found);
            && Guarded(p') && Owed(p') + AckReplies(out) == Owed(p) + (if LateAck(p) then 1 else 0)
            && p'.log + p'.queue == p.log + p.queue
            && p'.endRead == p.endRead && !p'.finished && (p'.reading ==> p.reading && !LateAck(p))
  {
    hide AckReplies, Acks;
    DequeuePays(p, found);
    var v := Taken(p);
    assert v.log[|v.log| - 1] == p.queue[0];
    assert v.log + v.queue == p.log + p.queue;
  }

  lemma DequeuePays(p: Player, found: bool)
    requires Guarded(p) && p.control == Looping && p.queue != []
    ensures var (p', out) := DequeueOne(p, found);
            Owed(p') + AckReplies(out) == Owed(p) + if LateAck(p) then 1 else 0
  {
    RepliesOf(p.queue[0], found);
    assert AckReplies(AckIf(true)) == 1 && AckReplies(AckIf(false)) == 0;
  }

  /** Dispatching an event writes an ACK exactly when the event produces one and is not a sleep. */
  lemma RepliesOf(e: Event, found: bool)
    ensures AckReplies([DUMPED]) == 0
    ensures AckReplies(AckIf(e.ack)) == if e.ack then 1 else 0
    ensures AckReplies((if found then [] else [NOTFOUND(e.path)]) + AckIf(e.ack)) == if e.ack then 1 else 0
  {
    var rs := AckIf(e.ack);
    assert ([NOTFOUND(e.path)] + rs)[1..] == rs;
    assert [] + rs == rs;
    assert rs == [] || (rs[0] == ACK && rs[1..] == []);
  }

  lemma TimerAndPickKeep(p: Player)
    requires Guarded(p) && p.control == Idle
    ensures p.timer ==> var (p', out) := WaitFinished(p); Guarded(p') && Owed(p') + AckReplies(out) == Owed(p)
    ensures p.picking ==> var (p', out) := EndPick(p); Guarded(p') && Owed(p') + AckReplies(out) == Owed(p)
  {
    assert AckReplies([ACK]) == 1 && AckReplies([PICKED]) == 0;
  }

  // ----- Both parties and the channels -----

  /** What the client writes: start elements, the end of the document, the outer DIE command. */
  datatype Element = Start(command: Command) | EndDocument | Die

  datatype Client = Client(pending: int, endSent: bool, dieSent: bool, sent: seq<Command>)

  datatype World = World(
    client: Client, toServer: seq<Element>, toClient: seq<Reply>, player: Player, dead: bool,
    // how many commands the Player has read, and whether the ACK of the end of the document was not written
    read: nat, endLost: bool)

  /** A fresh session; the ack register has no defined value yet. */
  function Init(ackNext: bool): World {
    World(Client(0, false, false, []), [], [],
          Player([], false, ackNext, false, false, Idle, false, false, [], false), false, 0, false)
  }

  datatype Step =
    | SendCommand(command: Command)
    | SendEnd
    | SendDie
    | Receive
    | ReadStart
    | ReadEnd
    | ReadDie
    | Dequeue(found: bool)
    | FlushReturns
    | LoopEnds
    | Recheck
    | TimerFires
    | PickEnds

  predicate Enabled(w: World, step: Step) {
    match step
    case SendCommand(_) => !w.client.endSent
    case SendEnd => !w.client.endSent
    case SendDie => w.client.endSent && !w.client.dieSent && w.client.pending == 0
    case Receive => w.toClient != []
    // the Player reads from its event loop and re-entrantly from a flush
    case ReadStart => w.player.control != Looping && !w.player.endRead && w.toServer != [] && w.toServer[0].Start?
    case ReadEnd => w.player.control != Looping && !w.player.endRead && w.toServer != [] && w.toServer[0].EndDocument?
    // after `finished` the outer command loop reads again
    case ReadDie => w.player.finished && !w.dead && w.toServer != [] && w.toServer[0].Die?
    case Dequeue(_) => w.player.control == Looping && w.player.queue != []
    case FlushReturns => w.player.control == Flushing
    case LoopEnds => w.player.control == Looping && w.player.queue == []
    // `readNext` calls `processEvents` once more when it has read all there is
    case Recheck => w.player.control == Idle && !w.player.endRead
    case TimerFires => w.player.control == Idle && w.player.timer
    case PickEnds => w.player.control == Idle && w.player.picking
  }

  /** The client writes an element and, if it waits for it, counts one more ACK. */
  function Sent(w: World, e: Element, waits: bool): World {
    w.(toServer := w.toServer + [e], client := w.client.(pending := w.client.pending + if waits then 1 else 0))
  }

  function Move(w: World, m: Moved): World {
    w.(player := m.0, toClient := w.toClient + m.1)
  }

  function Apply(platform: Platform, w: World, step: Step): World
    requires Enabled(w, step)
  {
    match step
    case SendCommand(c) =>
      var v := Sent(w, Start(c), Waits(c));
      v.(client := v.client.(sent := v.client.sent + [c]))
    case SendEnd =>
      var v := Sent(w, EndDocument, true);
      v.(client := v.client.(endSent := true))
    case SendDie =>
      var v := Sent(w, Die, true);
      v.(client := v.client.(dieSent := true))
    case Receive =>
      var got := if w.toClient[0].ACK? then 1 else 0;
      w.(toClient := w.toClient[1..], client := w.client.(pending := w.client.pending - got))
    case ReadStart =>
      ReadNext(w, Expand(platform, w.toServer[0].command))
    case ReadEnd =>
      Move(w, ReadEndDocument(w.player)).(toServer := w.toServer[1..], endLost := !w.player.ackNext)
    case ReadDie => w.(toServer := w.toServer[1..], toClient := w.toClient + [ACK], dead := true)
    case Dequeue(found) =>
      Move(w, DequeueOne(w.player, found)).(endLost := w.endLost && !LateAck(w.player))
    case FlushReturns => w.(player := w.player.(control := Looping))
    case LoopEnds => w.(player := LeaveLoop(w.player))
    case Recheck => w.(player := EnterLoop(w.player, false))
    case TimerFires => Move(w, WaitFinished(w.player))
    case PickEnds => Move(w, EndPick(w.player))
  }

  // ----- Invariants -----

  /** Elements in flight whose ACK the client counts on. */
  function Awaited(es: seq<Element>): nat {
    if es == [] then 0
    else (match es[0] case Start(c) => (if Waits(c) then 1 else 0) case _ => 1) + Awaited(es[1..])
  }

  lemma {:induction false} AckRepliesConcat(a: seq<Reply>, b: seq<Reply>)
    ensures AckReplies(a + b) == AckReplies(a) + AckReplies(b)
  {
    if a == [] {
      assert a + b == b;
    } else {
      assert (a + b)[1..] == a[1..] + b;
      AckRepliesConcat(a[1..], b);
    }
  }

  lemma {:induction false} AwaitedSnoc(es: seq<Element>, e: Element)
    ensures Awaited(es + [e]) == Awaited(es) + Awaited([e])
  {
    if es != [] {
      assert (es + [e])[1..] == es[1..] + [e];
      AwaitedSnoc(es[1..], e);
    }
  }

  lemma {:induction false} AwaitedAt(es: seq<Element>, i: nat)
    requires i < |es| && (es[i].Start? ==> Waits(es[i].command))
    ensures Awaited(es) >= 1
  {
    if i > 0 {
      AwaitedAt(es[1..], i - 1);
    }
  }

  function Starts(cs: seq<Command>): (es: seq<Element>)
    ensures |es| == |cs|
  {
    seq(|cs|, i requires 0 <= i < |cs| => Start(cs[i]))
  }

  function Tail(w: World): (es: seq<Element>) {
    (if w.client.endSent && !w.player.endRead then [EndDocument] else [])
    + (if w.client.dieSent && !w.dead then [Die] else [])
  }

  /** The channel to the server holds exactly what was sent and not yet read, in order. */
  ghost predicate InOrder(w: World) {
    && w.read <= |w.client.sent|
    && w.toServer == Starts(w.client.sent[w.read..]) + Tail(w)
    && (w.player.endRead ==> w.client.endSent && w.read == |w.client.sent|)
    && (w.client.dieSent ==> w.client.endSent)
    && (w.dead ==> w.client.dieSent && w.player.finished)
  }

  /** Nothing is lost or reordered on the server: taken and queued events are those of the commands read. */
  ghost predicate Faithful(platform: Platform, w: World) {
    && w.read <= |w.client.sent|
    && EventsOf(platform, w.client.sent[..w.read]) == w.player.log + w.player.queue
  }

  /** The client's count is accounted for, to the last ACK. */
  ghost predicate Conserved(w: World) {
    && w.client.pending == Awaited(w.toServer) + Owed(w.player) + AckReplies(w.toClient) + (if w.endLost then 1 else 0)
    && (w.endLost ==> w.player.endRead)
    && (w.player.reading && w.player.endRead ==> w.endLost)
  }

  ghost predicate Inv(platform: Platform, w: World) {
    InOrder(w) && Faithful(platform, w) && Guarded(w.player) && Conserved(w)
  }

  lemma InitInv(platform: Platform, ackNext: bool)
    ensures Inv(platform, Init(ackNext))
  {
  }

  /** The element at the head of the channel is the next one in the order of sending. */
  lemma HeadIsNext(w: World)
    requires InOrder(w) && w.toServer != []
    ensures w.toServer[0].Start? ==> w.read < |w.client.sent| && w.toServer[0].command == w.client.sent[w.read]
    ensures !w.toServer[0].Start? ==> w.read == |w.client.sent| && w.toServer == Tail(w)
  {
    var starts := Starts(w.client.sent[w.read..]);
    if w.read < |w.client.sent| {
      assert w.toServer[0] == starts[0];
    } else {
      assert starts == [] && w.toServer == Tail(w);
    }
  }

  lemma CommandKeepsInv(platform: Platform, w: World, c: Command)
    requires Inv(platform, w) && Enabled(w, SendCommand(c))
    ensures Inv(platform, Apply(platform, w, SendCommand(c)))
  {
    hide EventsOf, Acks, AckReplies, Guarded;
    var v := Apply(platform, w, SendCommand(c));
    AwaitedSnoc(w.toServer, Start(c));
    assert v.client.sent[..v.read] == w.client.sent[..w.read];
    assert v.client.sent[v.read..] == w.client.sent[w.read..] + [c];
    assert Starts(v.client.sent[v.read..]) == Starts(w.client.sent[w.read..]) + [Start(c)];
    assert w.toServer == Starts(w.client.sent[w.read..]) && v.toServer == Starts(v.client.sent[v.read..]) + [];
  }

  lemma FinalKeepsInv(platform: Platform, w: World, step: Step)
    requires Inv(platform, w) && Enabled(w, step) && (step.SendEnd? || step.SendDie?)
    ensures Inv(platform, Apply(platform, w, step))
  {
    hide EventsOf, Acks, AckReplies, Starts, Guarded;
    var v := Apply(platform, w, step);
    var e := v.toServer[|v.toServer| - 1];
    AwaitedSnoc(w.toServer, e);
    assert Tail(v) == Tail(w) + [e];
    assert v.toServer == Starts(v.client.sent[v.read..]) + Tail(v);
  }

  function ReadNext(w: World, es: seq<Event>): World
    requires w.toServer != []
  {
    w.(toServer := w.toServer[1..], read := w.read + 1, player := ReadStartElement(w.player, es))
  }

  lemma ReadKeepsInv(platform: Platform, w: World)
    requires Inv(platform, w) && Enabled(w, ReadStart)
    ensures Inv(platform, Apply(platform, w, ReadStart))
  {
    HeadIsNext(w);
    var c := w.toServer[0].command;
    ExpandAcks(platform, c);
    ReadKeepsOrder(w, Expand(platform, c));
    ReadKeepsAccounts(w, Expand(platform, c));
    ReadStaysFaithful(platform, w, c);
  }

  lemma ReadStaysFaithful(platform: Platform, w: World, c: Command)
    requires Faithful(platform, w) && w.toServer != [] && w.read < |w.client.sent| && c == w.client.sent[w.read]
    ensures Faithful(platform, ReadNext(w, Expand(platform, c)))
  {
    hide Expand;
    EventsOfSnoc(platform, w.client.sent, w.read);
    var es := Expand(platform, c);
    assert w.player.log + w.player.queue + es == w.player.log + (w.player.queue + es);
  }

  lemma ReadKeepsAccounts(w: World, es: seq<Event>)
    requires Guarded(w.player) && Conserved(w) && Enabled(w, ReadStart)
    requires Acks(es) == if Waits(w.toServer[0].command) then 1 else 0
    ensures Guarded(ReadNext(w, es).player) && Conserved(ReadNext(w, es))
  {
    ReadStartKeeps(w.player, es);
  }

  lemma ReadKeepsOrder(w: World, es: seq<Event>)
    requires InOrder(w) && Enabled(w, ReadStart)
    ensures InOrder(ReadNext(w, es))
  {
    HeadIsNext(w);
    var rest := w.client.sent[w.read..];
    assert Starts(rest)[1..] == Starts(rest[1..]);
    assert rest[1..] == w.client.sent[w.read + 1..];
  }

  lemma EndKeepsInv(platform: Platform, w: World)
    requires Inv(platform, w) && Enabled(w, ReadEnd)
    ensures Inv(platform, Apply(platform, w, ReadEnd))
  {
    EndKeepsOrder(platform, w);
    if w.player.control == Flushing {
      FlushIsUnacknowledged(platform, w);
    }
    EndKeepsAccounts(platform, w);
  }

  /** While a flush runs, the register says that nothing is to be acknowledged. */
  lemma FlushIsUnacknowledged(platform: Platform, w: World)
    requires Faithful(platform, w) && Guarded(w.player) && w.player.control == Flushing
    ensures !w.player.ackNext
  {
    hide EventsOf;
    var log := w.player.log;
    FlushUnacknowledged(platform, w.client.sent[..w.read]);
    assert (log + w.player.queue)[|log| - 1] == log[|log| - 1];
  }

  lemma EndKeepsOrder(platform: Platform, w: World)
    requires InOrder(w) && Enabled(w, ReadEnd)
    ensures InOrder(Apply(platform, w, ReadEnd))
  {
    HeadIsNext(w);
    var v := Apply(platform, w, ReadEnd);
    assert Starts(w.client.sent[w.read..]) == [];
    assert v.toServer == Tail(v);
  }

  lemma EndKeepsAccounts(platform: Platform, w: World)
    requires Guarded(w.player) && Conserved(w) && Enabled(w, ReadEnd)
    requires w.player.control == Flushing ==> !w.player.ackNext
    ensures var v := Apply(platform, w, ReadEnd); Guarded(v.player) && Conserved(v)
  {
    hide Acks;
    assert AckReplies([ACK]) == 1;
    AckRepliesConcat(w.toClient, AckIf(w.player.ackNext));
  }

  lemma DieKeepsInv(platform: Platform, w: World)
    requires Inv(platform, w) && Enabled(w, ReadDie)
    ensures Inv(platform, Apply(platform, w, ReadDie))
  {
    HeadIsNext(w);
    assert AckReplies([ACK]) == 1;
    AckRepliesConcat(w.toClient, [ACK]);
  }

  /** A Player transition that keeps the accounts keeps the world's invariant; so does a late ACK of the end. */
  lemma MoveKeepsInv(platform: Platform, w: World, m: Moved, late: bool)
    requires Inv(platform, w) && Guarded(m.0)
    requires Owed(m.0) + AckReplies(m.1) == Owed(w.player) + if late then 1 else 0
    requires m.0.log + m.0.queue == w.player.log + w.player.queue
    requires m.0.endRead == w.player.endRead && (w.dead ==> m.0.finished)
    requires (m.0.reading ==> w.player.reading && !late) && (late ==> w.player.reading && w.player.endRead)
    ensures Inv(platform, Move(w, m).(endLost := w.endLost && !late))
  {
    AckRepliesConcat(w.toClient, m.1);
  }

  /** Steps of the Player's own code. */
  lemma PlayerKeepsInv(platform: Platform, w: World, step: Step)
    requires Inv(platform, w) && Enabled(w, step)
    requires step.Dequeue? || step.TimerFires? || step.PickEnds? || step.FlushReturns? || step.LoopEnds?
      || step.Recheck?
    ensures Inv(platform, Apply(platform, w, step))
  {
    assert w.toClient + [] == w.toClient;
    if step.Dequeue? {
      DequeueKeeps(w.player, step.found);
      MoveKeepsInv(platform, w, DequeueOne(w.player, step.found), LateAck(w.player));
    } else if step.FlushReturns? {
      MoveKeepsInv(platform, w, (w.player.(control := Looping), []), false);
    } else if step.LoopEnds? {
      MoveKeepsInv(platform, w, (LeaveLoop(w.player), []), false);
    } else if step.Recheck? {
      MoveKeepsInv(platform, w, (EnterLoop(w.player, false), []), false);
    } else {
      TimerAndPickKeep(w.player);
      MoveKeepsInv(platform, w, if step.TimerFires? then WaitFinished(w.player) else EndPick(w.player), false);
    }
  }

  /** Every step of either party, from any state that meets the invariants, keeps them. */
  lemma StepKeepsInv(platform: Platform, w: World, step: Step)
    requires Inv(platform, w) && Enabled(w, step)
    ensures Inv(platform, Apply(platform, w, step))
  {
    match step
    case SendCommand(c) => CommandKeepsInv(platform, w, c);
    case SendEnd => FinalKeepsInv(platform, w, step);
    case SendDie => FinalKeepsInv(platform, w, step);
    case Receive => assert w.toClient == [w.toClient[0]] + w.toClient[1..];
    case ReadStart => ReadKeepsInv(platform, w);
    case ReadEnd => EndKeepsInv(platform, w);
    case ReadDie => DieKeepsInv(platform, w);
    case _ => PlayerKeepsInv(platform, w, step);
  }

  // ----- Whole runs -----

  /** The steps can be taken one after the other from `w`. */
  ghost predicate Possible(platform: Platform, w: World, steps: seq<Step>)
    decreases |steps|
  {
    steps != [] ==> Enabled(w, steps[0]) && Possible(platform, Apply(platform, w, steps[0]), steps[1..])
  }

  ghost function After(platform: Platform, w: World, steps: seq<Step>): World
    requires Possible(platform, w, steps)
    decreases |steps|
  {
    if steps == [] then w else After(platform, Apply(platform, w, steps[0]), steps[1..])
  }

  lemma AfterNone(platform: Platform, w: World)
    ensures Possible(platform, w, []) && After(platform, w, []) == w
  {
  }

  lemma AfterCons(platform: Platform, w: World, step: Step, rest: seq<Step>)
    requires Enabled(w, step) && Possible(platform, Apply(platform, w, step), rest)
    ensures Possible(platform, w, [step] + rest)
    ensures After(platform, w, [step] + rest) == After(platform, Apply(platform, w, step), rest)
  {
    hide Enabled, Apply;
    assert ([step] + rest)[1..] == rest;
  }

  lemma {:induction false} AfterConcat(platform: Platform, w: World, a: seq<Step>, b: seq<Step>)
    requires Possible(platform, w, a) && Possible(platform, After(platform, w, a), b)
    ensures Possible(platform, w, a + b) && After(platform, w, a + b) == After(platform, After(platform, w, a), b)
    decreases |a|
  {
    hide Apply, Enabled;
    if a == [] {
      assert a + b == b;
    } else {
      assert (a + b)[1..] == a[1..] + b;
      AfterConcat(platform, Apply(platform, w, a[0]), a[1..], b);
    }
  }

  /** Every interleaving of every length keeps the invariants. */
  lemma {:induction false} RunKeepsInv(platform: Platform, w: World, steps: seq<Step>)
    requires Inv(platform, w) && Possible(platform, w, steps)
    ensures Inv(platform, After(platform, w, steps))
    decreases |steps|
  {
    if steps != [] {
      StepKeepsInv(platform, w, steps[0]);
      RunKeepsInv(platform, Apply(platform, w, steps[0]), steps[1..]);
    }
  }

  /** The client's assertion that its count is not negative holds in every reachable state. */
  lemma NeverNegative(platform: Platform, ackNext: bool, steps: seq<Step>)
    requires Possible(platform, Init(ackNext), steps)
    ensures After(platform, Init(ackNext), steps).client.pending >= 0
  {
    InitInv(platform, ackNext);
    RunKeepsInv(platform, Init(ackNext), steps);
  }

  /** Events the Player is completely done with, in the order it took them. */
  ghost function Completed(p: Player): seq<Event>
    requires Guarded(p)
  {
    if p.timer || p.picking || p.control == Flushing then p.log[..|p.log| - 1] else p.log
  }

  /**
    When `waitForAck` sees the count at zero, every event of every command sent up to and including
    the last one waited for is done, in the order of sending, with nothing skipped or added.
   */
  lemma AckedMeansHandled(platform: Platform, w: World, k: nat)
    requires Inv(platform, w) && w.client.pending == 0
    requires k < |w.client.sent| && Waits(w.client.sent[k])
    ensures EventsOf(platform, w.client.sent[..k + 1]) <= Completed(w.player)
  {
    hide Acks, EventsOf, Expand, Awaited, AckReplies, Completed, Starts;
    assert k < w.read by {
      NotAwaitedIsRead(w, k);
    }
    var cs := w.client.sent[..w.read];
    assert cs[..k + 1] == w.client.sent[..k + 1];
    EventsOfPrefix(platform, cs, k + 1);
    EventsOfSnoc(platform, w.client.sent, k);
    ExpandAcks(platform, w.client.sent[k]);
    NothingOwedIsDone(w.player, EventsOf(platform, cs[..k + 1]));
  }

  lemma NotAwaitedIsRead(w: World, k: nat)
    requires InOrder(w) && Awaited(w.toServer) == 0 && k < |w.client.sent| && Waits(w.client.sent[k])
    ensures k < w.read
  {
    if w.read <= k {
      var rest := w.client.sent[w.read..];
      assert Starts(rest)[k - w.read] == Start(rest[k - w.read]);
      AwaitedAt(w.toServer, k - w.read);
    }
  }

  /** With no ACK owed, any run of events that ends in an ACK-producing one is done. */
  lemma NothingOwedIsDone(p: Player, es: seq<Event>)
    requires Guarded(p) && Owed(p) == 0
    requires es <= p.log + p.queue && es != [] && Producing(es[|es| - 1])
    ensures es <= Completed(p)
  {
    var n := |es|;
    assert es[n - 1] == (p.log + p.queue)[n - 1];
    if |p.log| < n {
      AcksAt(p.queue, n - 1 - |p.log|);
    }
  }

  /** The same over every run from a fresh session. */
  lemma RunAckedMeansHandled(platform: Platform, ackNext: bool, steps: seq<Step>, k: nat)
    requires Possible(platform, Init(ackNext), steps)
    requires var w := After(platform, Init(ackNext), steps);
      w.client.pending == 0 && k < |w.client.sent| && Waits(w.client.sent[k])
    ensures Inv(platform, After(platform, Init(ackNext), steps))
    ensures var w := After(platform, Init(ackNext), steps);
      EventsOf(platform, w.client.sent[..k + 1]) <= Completed(w.player)
  {
    InitInv(platform, ackNext);
    RunKeepsInv(platform, Init(ackNext), steps);
    AckedMeansHandled(platform, After(platform, Init(ackNext), steps), k);
  }

  /** When the Player has finished, and so when DIE is obeyed, every command sent has been handled. */
  lemma FinishedMeansAllHandled(platform: Platform, w: World)
    requires Inv(platform, w) && w.player.finished
    ensures Completed(w.player) == EventsOf(platform, w.client.sent)
  {
    assert w.client.sent[..w.read] == w.client.sent;
  }

  // ----- The acknowledgement of the end of the document -----

  /** The first sleep or pick among the events is one to be acknowledged. */
  predicate Repays(es: seq<Event>) {
    es != [] && if es[0].kind in {Sleep, Pick} then es[0].ack else Repays(es[1..])
  }

  /**
    The ACK of the end is lost for good: it was not written when the end was read, and the loop that a flush read it in,
    if it is still running, will not return for an event to be acknowledged.
   */
  predicate Lost(w: World) {
    w.endLost && !(w.player.reading && Repays(w.player.queue))
  }

  /**
    The end of the document is acknowledged through the shared register. Its ACK is not written when, at that moment, an
    unacknowledged part of a drag-and-drop is the last event taken, its own ACK still queued, or when no event was ever
    taken and the register happens to be false; and then it is lost exactly when the end was not read in a flush of a
    reading loop that a sleep or pick to be acknowledged will end.
   */
  lemma EndAckLostExactly(platform: Platform, w: World)
    requires Inv(platform, w) && Enabled(w, ReadEnd)
    ensures var unwritten := if w.player.log == [] then !w.player.ackNext else !w.player.log[|w.player.log| - 1].ack;
            && (Apply(platform, w, ReadEnd).endLost <==> unwritten)
            && (Lost(Apply(platform, w, ReadEnd)) <==> unwritten && !(w.player.reading && Repays(w.player.queue)))
    ensures w.player.log != [] && !w.player.log[|w.player.log| - 1].ack ==> Acks(w.player.queue) >= 1
  {
    if w.player.log != [] && !w.player.log[|w.player.log| - 1].ack {
      AckStillToCome(platform, w.client.sent[..w.read], w.player.log, w.player.queue);
    }
  }

  lemma FateKept(platform: Platform, w: World, step: Step)
    requires Inv(platform, w) && w.player.endRead && Enabled(w, step)
    ensures Apply(platform, w, step).player.endRead && (Lost(Apply(platform, w, step)) <==> Lost(w))
  {
    hide EventsOf, Acks, AckReplies, Awaited, Starts, Dispatch, Faithful, InOrder;
    if step.Dequeue? {
      FateTaken(w, step.found);
    }
  }

  lemma FateTaken(w: World, found: bool)
    requires Guarded(w.player) && Conserved(w) && w.player.endRead && Enabled(w, Dequeue(found))
    ensures forall platform :: var v := Apply(platform, w, Dequeue(found)); v.player.endRead && (Lost(v) <==> Lost(w))
  {
    hide Acks, AckReplies, Awaited;
  }

  /** Once the end is read its fate is settled: no run changes it, and it shows by the time the Player has finished. */
  lemma {:induction false} FateSettled(platform: Platform, w: World, steps: seq<Step>)
    requires Inv(platform, w) && w.player.endRead && Possible(platform, w, steps)
    ensures Inv(platform, After(platform, w, steps)) && (Lost(After(platform, w, steps)) <==> Lost(w))
    ensures After(platform, w, steps).player.finished ==> (After(platform, w, steps).endLost <==> Lost(w))
    decreases |steps|
  {
    hide Lost;
    if steps != [] {
      StepKeepsInv(platform, w, steps[0]);
      FateKept(platform, w, steps[0]);
      FateSettled(platform, Apply(platform, w, steps[0]), steps[1..]);
    } else if w.player.finished {
      FinishedShows(platform, w);
    }
  }

  lemma FinishedShows(platform: Platform, w: World)
    requires Inv(platform, w) && w.player.finished
    ensures w.endLost <==> Lost(w)
  {
  }

  /** A lost ACK is never made up for: the count stays positive, so the final wait cannot succeed. */
  lemma LostMeansStuck(platform: Platform, w: World, steps: seq<Step>)
    requires Inv(platform, w) && Lost(w) && Possible(platform, w, steps)
    ensures Lost(After(platform, w, steps)) && After(platform, w, steps).client.pending >= 1
  {
    FateSettled(platform, w, steps);
  }

  /** No command the client waits for is outstanding, and at least one event has been asked for. */
  ghost predicate Quiet(platform: Platform, w: World) {
    && (w.player.endRead || (Acks(w.player.queue) == 0 && Awaited(w.toServer) <= 1))
    && w.client.endSent && EventsOf(platform, w.client.sent) != []
  }

  lemma QuietKept(platform: Platform, w: World, step: Step)
    requires Inv(platform, w) && Quiet(platform, w) && !w.endLost && Enabled(w, step)
    ensures Quiet(platform, Apply(platform, w, step)) && !Apply(platform, w, step).endLost
  {
    hide EventsOf, Starts, Expand;
    match step
    case ReadStart => QuietRead(platform, w);
    case ReadEnd => QuietEnd(platform, w);
    case SendDie =>
      if !w.player.endRead {
        EndStillAwaited(w);
      }
    case ReadDie => assert w.player.endRead;
    case Dequeue(found) => QuietMove(platform, w, DequeueOne(w.player, found));
    case TimerFires => QuietMove(platform, w, WaitFinished(w.player));
    case PickEnds => QuietMove(platform, w, EndPick(w.player));
    case _ =>
  }

  lemma QuietMove(platform: Platform, w: World, m: Moved)
    requires Quiet(platform, w) && m.0.endRead == w.player.endRead && Acks(m.0.queue) <= Acks(w.player.queue)
    ensures Quiet(platform, Move(w, m))
  {
  }

  lemma QuietRead(platform: Platform, w: World)
    requires Inv(platform, w) && Quiet(platform, w) && Enabled(w, ReadStart)
    ensures Quiet(platform, Apply(platform, w, ReadStart))
  {
    EndStillAwaited(w);
    var es := Expand(platform, w.toServer[0].command);
    ExpandAcks(platform, w.toServer[0].command);
    AcksConcat(w.player.queue, es);
  }

  lemma QuietEnd(platform: Platform, w: World)
    requires Inv(platform, w) && Quiet(platform, w) && Enabled(w, ReadEnd)
    ensures !Apply(platform, w, ReadEnd).endLost
  {
    HeadIsNext(w);
    assert w.client.sent[..w.read] == w.client.sent;
    EndAckLostExactly(platform, w);
  }

  /** While the end of the document is in flight, it is one of the elements awaited. */
  lemma EndStillAwaited(w: World)
    requires InOrder(w) && w.client.endSent && !w.player.endRead
    ensures Awaited(w.toServer) >= 1
    ensures w.toServer[0].Start? ==> Awaited(w.toServer[1..]) >= 1
  {
    var i := |w.client.sent| - w.read;
    assert w.toServer[i] == EndDocument;
    AwaitedAt(w.toServer, i);
    if w.toServer[0].Start? {
      HeadIsNext(w);
      assert w.toServer[1..][i - 1] == EndDocument;
      AwaitedAt(w.toServer[1..], i - 1);
    }
  }

  /**
    A client that ends the document only once its waits have succeeded, as the Interpreter does,
    always gets the final ACK: from any state with count zero and some event asked for, sending the
    end and then running in any way never loses it.
   */
  lemma {:induction false} WaitingClientGetsFinalAck(platform: Platform, w: World, steps: seq<Step>)
    requires Inv(platform, w) && !w.client.endSent && w.client.pending == 0 && EventsOf(platform, w.client.sent) != []
    requires Possible(platform, Apply(platform, w, SendEnd), steps)
    ensures !After(platform, Apply(platform, w, SendEnd), steps).endLost
  {
    var v := Apply(platform, w, SendEnd);
    StepKeepsInv(platform, w, SendEnd);
    AwaitedSnoc(w.toServer, EndDocument);
    QuietRun(platform, v, steps);
  }

  lemma {:induction false} QuietRun(platform: Platform, w: World, steps: seq<Step>)
    requires Inv(platform, w) && Quiet(platform, w) && !w.endLost && Possible(platform, w, steps)
    ensures !After(platform, w, steps).endLost
    decreases |steps|
  {
    if steps != [] {
      StepKeepsInv(platform, w, steps[0]);
      QuietKept(platform, w, steps[0]);
      QuietRun(platform, Apply(platform, w, steps[0]), steps[1..]);
    }
  }

  /** Such a client's end of document never arrives while a flush runs. */
  lemma WaitingClientNeverEndsInFlush(platform: Platform, w: World)
    requires Inv(platform, w) && Quiet(platform, w) && !w.player.endRead
    ensures w.player.control != Flushing
  {
    hide InOrder, Conserved, EventsOf, Acks, Expand;
    if w.player.control == Flushing {
      var log := w.player.log;
      FlushUnacknowledged(platform, w.client.sent[..w.read]);
      assert (log + w.player.queue)[|log| - 1] == log[|log| - 1];
      AckStillToCome(platform, w.client.sent[..w.read], log, w.player.queue);
    }
  }

  /** Flushes happen only inside a drag-and-drop, where nothing but its end is acknowledged. */
  lemma {:induction false} FlushUnacknowledged(platform: Platform, cs: seq<Command>)
    ensures forall e | e in EventsOf(platform, cs) && e.kind == Flush :: !e.ack
  {
    if cs != [] {
      FlushUnacknowledged(platform, cs[..|cs| - 1]);
      ExpandAcks(platform, cs[|cs| - 1]);
    }
  }

  const PLATFORM := Platform(true, 500, 4)
  const DRAG := Command(DragAndDrop, "t", Point(0, 0), "s", Point(0, 0), 0)

  /** Without that wait the ACK can be lost: the end arrives during the sleep inside a drag-and-drop. */
  lemma ImpatientClientCanLoseFinalAck(ackNext: bool) returns (steps: seq<Step>)
    ensures Possible(PLATFORM, Init(ackNext), steps)
    ensures Lost(After(PLATFORM, Init(ackNext), steps))
  {
    var c := DRAG;
    var w0 := Init(ackNext);
    var w1 := Apply(PLATFORM, w0, SendCommand(c));
    var w2 := Apply(PLATFORM, w1, SendEnd);
    var w3 := Apply(PLATFORM, w2, ReadStart);
    steps := EndDuringSleep(w3);
    steps := Before(w2, ReadStart, steps);
    steps := Before(w1, SendEnd, steps);
    steps := Before(w0, SendCommand(c), steps);
  }

  /** Three unacknowledged events, the unacknowledged sleep, then the end of the document. */
  lemma EndDuringSleep(w3: World) returns (steps: seq<Step>)
    requires w3.player.control == Looping && w3.toServer == [EndDocument] && !w3.player.endRead
    requires DragAndDropEvents(PLATFORM, DRAG) <= w3.player.queue
    ensures Possible(PLATFORM, w3, steps) && Lost(After(PLATFORM, w3, steps))
  {
    var es := DragAndDropEvents(PLATFORM, DRAG);
    assert es[0].kind == Focus && es[1].kind == Object && es[2].kind == Object && es[3].kind == Sleep && !es[3].ack;
    hide DragAndDropEvents, Apply, Enabled, Possible, After, Dispatch;
    var w4 := TakeDelivered(w3);
    var w5 := TakeDelivered(w4);
    var w6 := TakeDelivered(w5);
    var w7 := TakeSleep(w6);
    var w8 := EndInSleep(w7);
    AfterNone(PLATFORM, w8);
    steps := Before(w7, ReadEnd, []);
    steps := Before(w6, Dequeue(true), steps);
    steps := Before(w5, Dequeue(true), steps);
    steps := Before(w4, Dequeue(true), steps);
    steps := Before(w3, Dequeue(true), steps);
  }

  lemma TakeDelivered(w: World) returns (v: World)
    requires w.player.control == Looping && w.player.queue != [] && w.player.queue[0].kind in {Focus, Object}
    ensures Enabled(w, Dequeue(true)) && v == Apply(PLATFORM, w, Dequeue(true))
    ensures v.player == Taken(w.player) && v.toServer == w.toServer
  {
    v := Apply(PLATFORM, w, Dequeue(true));
  }

  lemma TakeSleep(w: World) returns (v: World)
    requires w.player.control == Looping && w.player.queue != []
    requires w.player.queue[0].kind == Sleep && !w.player.queue[0].ack
    ensures Enabled(w, Dequeue(true)) && v == Apply(PLATFORM, w, Dequeue(true))
    ensures v.player.control == Idle && !v.player.ackNext && !v.player.reading
    ensures v.player.endRead == w.player.endRead && v.toServer == w.toServer
  {
    v := Apply(PLATFORM, w, Dequeue(true));
  }

  lemma EndInSleep(w: World) returns (v: World)
    requires w.player.control == Idle && !w.player.ackNext && !w.player.reading && !w.player.endRead
    requires w.toServer == [EndDocument]
    ensures Enabled(w, ReadEnd) && v == Apply(PLATFORM, w, ReadEnd) && Lost(v)
  {
    v := Apply(PLATFORM, w, ReadEnd);
  }

  lemma Before(w: World, step: Step, rest: seq<Step>) returns (steps: seq<Step>)
    requires Enabled(w, step) && Possible(PLATFORM, Apply(PLATFORM, w, step), rest)
    ensures Possible(PLATFORM, w, steps) && After(PLATFORM, w, steps) == After(PLATFORM, Apply(PLATFORM, w, step), rest)
  {
    steps := [step] + rest;
    AfterCons(PLATFORM, w, step, rest);
  }
}
