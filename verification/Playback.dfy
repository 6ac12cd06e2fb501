/** Lists of steps of a machine given by a partial step function. */
module Runs {
  import opened Wrappers

  /** Where a list of steps leads, if each can be taken in turn. */
  ghost function Run<S, T>(step: (S, T) -> Option<S>, s: S, ts: seq<T>): (r: Option<S>) {
    if ts == [] then Some(s)
    else
      match Run(step, s, ts[..|ts| - 1])
      case None => None
      case Some(q) => step(q, ts[|ts| - 1])
  }

  lemma RunSnoc<S, T>(step: (S, T) -> Option<S>, s: S, ts: seq<T>, t: T)
    requires Run(step, s, ts).Some?
    ensures Run(step, s, ts + [t]) == step(Run(step, s, ts).value, t)
  {
    assert (ts + [t])[..|ts|] == ts;
  }

  lemma {:induction false} RunJoin<S, T>(step: (S, T) -> Option<S>, s: S, ts: seq<T>, us: seq<T>)
    requires Run(step, s, ts).Some?
    ensures Run(step, s, ts + us) == Run(step, Run(step, s, ts).value, us)
  {
    if us == [] {
      assert ts + us == ts;
    } else {
      var n := |us| - 1;
      RunJoin(step, s, ts, us[..n]);
      assert (ts + us)[..|ts| + n] == ts + us[..n];
    }
  }
}

/**
  The two objects at the ends of the socket, with the loops of their methods. Every method of the
  Player is proved to perform a run of the transitions of `AckProtocol`; what happens outside its own
  code (what arrives while a flush runs, which objects can be found, what a wait wakes up to) is a
  parameter.
 */
module Playback {
  import opened Wrappers
  import P = AckProtocol
  import opened Runs

  // ----- Runs on the server side -----

  /** The Player and its socket. */
  datatype Site = Site(player: P.Player, toServer: seq<P.Element>, toClient: seq<P.Reply>)

  datatype Transition =
    | ReadStart | ReadEnd | Take(found: bool) | Flushed | Leave | Recheck | Timer | Picked
    | Arrive(elements: seq<P.Element>)

  predicate Can(s: Site, t: Transition) {
    var p := s.player;
    match t
    case ReadStart => p.control != P.Looping && !p.endRead && s.toServer != [] && s.toServer[0].Start?
    case ReadEnd => p.control != P.Looping && !p.endRead && s.toServer != [] && s.toServer[0].EndDocument?
    case Take(_) => p.control == P.Looping && p.queue != []
    case Flushed => p.control == P.Flushing
    case Leave => p.control == P.Looping && p.queue == []
    case Recheck => p.control == P.Idle && !p.endRead
    case Timer => p.control == P.Idle && p.timer
    case Picked => p.control == P.Idle && p.picking
    case Arrive(_) => true
  }

  function Moved(s: Site, m: P.Moved): Site {
    s.(player := m.0, toClient := s.toClient + m.1)
  }

  function Do(platform: P.Platform, s: Site, t: Transition): Site
    requires Can(s, t)
  {
    var p := s.player;
    match t
    case ReadStart =>
      s.(player := P.ReadStartElement(p, P.Expand(platform, s.toServer[0].command)), toServer := s.toServer[1..])
    case ReadEnd => Moved(s, P.ReadEndDocument(p)).(toServer := s.toServer[1..])
    case Take(found) => Moved(s, P.DequeueOne(p, found))
    case Flushed => s.(player := p.(control := P.Looping))
    case Leave => s.(player := P.LeaveLoop(p))
    case Recheck => s.(player := P.EnterLoop(p, false))
    case Timer => Moved(s, P.WaitFinished(p))
    case Picked => Moved(s, P.EndPick(p))
    case Arrive(es) => s.(toServer := s.toServer + es)
  }

  /** The partial step function of the server side. */
  function Machine(platform: P.Platform): (Site, Transition) -> Option<Site> {
    (s: Site, t: Transition) => if Can(s, t) then Some(Do(platform, s, t)) else None
  }

  /** Along every run the guard is set exactly when it has to be. */
  lemma {:induction false} RunIsGuarded(platform: P.Platform, s: Site, ts: seq<Transition>)
    requires P.Guarded(s.player) && Run(Machine(platform), s, ts).Some?
    ensures P.Guarded(Run(Machine(platform), s, ts).value.player)
  {
    if ts != [] {
      var n := |ts| - 1;
      RunIsGuarded(platform, s, ts[..n]);
      TransitionIsGuarded(platform, Run(Machine(platform), s, ts[..n]).value, ts[n]);
    }
  }

  lemma TransitionIsGuarded(platform: P.Platform, s: Site, t: Transition)
    requires P.Guarded(s.player) && Can(s, t)
    ensures P.Guarded(Do(platform, s, t).player)
  {
    match t
    case ReadStart => P.ReadStartKeeps(s.player, P.Expand(platform, s.toServer[0].command));
    case ReadEnd => assert P.Guarded(P.ReadEndDocument(s.player).0);
    case Take(found) => P.DequeueKeeps(s.player, found);
    case Timer => P.TimerAndPickKeep(s.player);
    case Picked => P.TimerAndPickKeep(s.player);
    case _ =>
  }

  /** The step of the whole system that a transition of the server side is. */
  function AsStep(t: Transition): P.Step
    requires !t.Arrive?
  {
    match t
    case ReadStart => P.ReadStart
    case ReadEnd => P.ReadEnd
    case Take(found) => P.Dequeue(found)
    case Flushed => P.FlushReturns
    case Leave => P.LoopEnds
    case Recheck => P.Recheck
    case Timer => P.TimerFires
    case Picked => P.PickEnds
  }

  /** What the classes do is what the protocol's state machine does. */
  lemma TransitionIsStep(platform: P.Platform, w: P.World, t: Transition)
    requires !t.Arrive? && Can(Site(w.player, w.toServer, w.toClient), t)
    ensures P.Enabled(w, AsStep(t))
    ensures var v := P.Apply(platform, w, AsStep(t));
            Site(v.player, v.toServer, v.toClient) == Do(platform, Site(w.player, w.toServer, w.toClient), t)
  {
  }

  // ----- Runs of the server side as runs of the whole system -----

  function SiteOf(w: P.World): Site {
    Site(w.player, w.toServer, w.toClient)
  }

  /** What a client can write that has or has not ended the document: commands, then the end. */
  predicate Sendable(ended: bool, es: seq<P.Element>)
    decreases |es|
  {
    es == [] || (!ended && !es[0].Die? && Sendable(es[0].EndDocument?, es[1..]))
  }

  function SendSteps(es: seq<P.Element>): (steps: seq<P.Step>)
  {
    if es == [] then []
    else [match es[0] case Start(c) => P.SendCommand(c) case EndDocument => P.SendEnd case Die => P.SendDie]
         + SendSteps(es[1..])
  }

  function Steps(ts: seq<Transition>): (steps: seq<P.Step>)
  {
    if ts == [] then []
    else Steps(ts[..|ts| - 1])
         + match ts[|ts| - 1] case Arrive(es) => SendSteps(es) case t => [AsStep(t)]
  }

  /** Everything that arrives during the transitions, in order. */
  function Arrivals(ts: seq<Transition>): (es: seq<P.Element>)
  {
    if ts == [] then []
    else Arrivals(ts[..|ts| - 1]) + match ts[|ts| - 1] case Arrive(es) => es case _ => []
  }

  /** The client is where it is after writing these. */
  predicate Wrote(w: P.World, ended: bool, es: seq<P.Element>) {
    w.client.endSent == (ended || P.EndDocument in es)
  }

  lemma {:induction false} SendableSplit(ended: bool, a: seq<P.Element>, b: seq<P.Element>)
    requires Sendable(ended, a + b)
    ensures Sendable(ended, a) && Sendable(ended || P.EndDocument in a, b)
    decreases |a|
  {
    if a == [] {
      assert a + b == b;
    } else {
      assert (a + b)[1..] == a[1..] + b;
      SendableSplit(a[0].EndDocument?, a[1..], b);
    }
  }

  lemma {:induction false} SendAll(platform: P.Platform, w: P.World, es: seq<P.Element>)
    requires Sendable(w.client.endSent, es)
    ensures P.Possible(platform, w, SendSteps(es))
    ensures var v := P.After(platform, w, SendSteps(es));
            SiteOf(v) == SiteOf(w).(toServer := w.toServer + es) && Wrote(v, w.client.endSent, es)
    decreases |es|
  {
    hide P.Apply, P.Enabled, P.Possible, P.After, SiteOf, Wrote;
    if es == [] {
      P.AfterNone(platform, w);
      NothingSent(w);
    } else {
      var step := SendSteps(es)[0];
      SendOne(platform, w, es[0], step);
      var v := P.Apply(platform, w, step);
      SendAll(platform, v, es[1..]);
      P.AfterCons(platform, w, step, SendSteps(es[1..]));
      SentOneMore(w, v, P.After(platform, v, SendSteps(es[1..])), es);
    }
  }

  lemma NothingSent(w: P.World)
    ensures SiteOf(w) == SiteOf(w).(toServer := w.toServer + []) && Wrote(w, w.client.endSent, [])
  {
    assert w.toServer + [] == w.toServer;
  }

  lemma SentOneMore(w: P.World, v: P.World, u: P.World, es: seq<P.Element>)
    requires es != [] && SiteOf(v) == SiteOf(w).(toServer := w.toServer + [es[0]])
    requires !w.client.endSent && v.client.endSent == es[0].EndDocument?
    requires SiteOf(u) == SiteOf(v).(toServer := v.toServer + es[1..]) && Wrote(u, v.client.endSent, es[1..])
    ensures SiteOf(u) == SiteOf(w).(toServer := w.toServer + es) && Wrote(u, w.client.endSent, es)
  {
    assert es == [es[0]] + es[1..];
    assert w.toServer + [es[0]] + es[1..] == w.toServer + es;
  }

  lemma SendOne(platform: P.Platform, w: P.World, e: P.Element, step: P.Step)
    requires !w.client.endSent && !e.Die?
    requires step == if e.Start? then P.SendCommand(e.command) else P.SendEnd
    ensures P.Enabled(w, step)
    ensures var v := P.Apply(platform, w, step);
            SiteOf(v) == SiteOf(w).(toServer := w.toServer + [e]) && v.client.endSent == e.EndDocument?
  {
  }

  /** What the classes do is a run of the protocol's state machine, with the client writing what arrives. */
  lemma {:induction false} RunIsWorldRun(platform: P.Platform, w: P.World, ts: seq<Transition>)
    requires Run(Machine(platform), SiteOf(w), ts).Some? && Sendable(w.client.endSent, Arrivals(ts))
    ensures P.Possible(platform, w, Steps(ts))
    ensures var v := P.After(platform, w, Steps(ts));
            Run(Machine(platform), SiteOf(w), ts) == Some(SiteOf(v)) && Wrote(v, w.client.endSent, Arrivals(ts))
  {
    hide Machine, P.Possible, P.After, Sendable;
    if ts == [] {
      P.AfterNone(platform, w);
      NothingArrives(w.client.endSent);
    } else {
      var n := |ts| - 1;
      var init, t := ts[..n], ts[n];
      var more := match t case Arrive(es) => es case _ => [];
      SendableSplit(w.client.endSent, Arrivals(init), more);
      assert Arrivals(ts) == Arrivals(init) + more;
      RunIsWorldRun(platform, w, init);
      var v := P.After(platform, w, Steps(init));
      var last := match t case Arrive(es) => SendSteps(es) case _ => [AsStep(t)];
      LastRun(platform, v, t, more, last);
      P.AfterConcat(platform, w, Steps(init), last);
    }
  }

  lemma NothingArrives(ended: bool)
    ensures Sendable(ended, [])
  {
  }

  lemma LastRun(platform: P.Platform, v: P.World, t: Transition, more: seq<P.Element>, last: seq<P.Step>)
    requires Machine(platform)(SiteOf(v), t).Some? && Sendable(v.client.endSent, more)
    requires more == match t case Arrive(es) => es case _ => []
    requires last == match t case Arrive(es) => SendSteps(es) case _ => [AsStep(t)]
    ensures P.Possible(platform, v, last)
    ensures var u := P.After(platform, v, last);
            Machine(platform)(SiteOf(v), t) == Some(SiteOf(u)) && Wrote(u, v.client.endSent, more)
  {
    if t.Arrive? {
      SendAll(platform, v, more);
    } else {
      TransitionIsStep(platform, v, t);
      assert last[1..] == [];
    }
  }

  /** From a fresh session, whatever the Player's methods do: the client has counted every ACK on its way to it. */
  lemma CountIsEnough(platform: P.Platform, ackNext: bool, ts: seq<Transition>)
    requires Run(Machine(platform), SiteOf(P.Init(ackNext)), ts).Some? && Sendable(false, Arrivals(ts))
    ensures P.Possible(platform, P.Init(ackNext), Steps(ts))
    ensures var v := P.After(platform, P.Init(ackNext), Steps(ts));
            && Run(Machine(platform), SiteOf(P.Init(ackNext)), ts) == Some(SiteOf(v))
            && P.Inv(platform, v) && P.AckReplies(v.toClient) <= v.client.pending
  {
    P.InitInv(platform, ackNext);
    RunIsWorldRun(platform, P.Init(ackNext), ts);
    P.RunKeepsInv(platform, P.Init(ackNext), Steps(ts));
  }

  // ----- The objects -----

  class Socket {
    var toServer: seq<P.Element>
    var toClient: seq<P.Reply>

    constructor ()
      ensures toServer == [] && toClient == []
    {
      toServer, toClient := [], [];
    }
  }

  /** How one pass of the loop in `processEvents` ends. */
  datatype Pass = Next | FlushNow | Return

  class Player {
    const device: Socket
    const platform: P.Platform
    /** Whether `findObject` finds the path. */
    const finds: string -> bool

    var eventQueue: seq<P.Event>
    var processingEvents: bool
    var ackNext: bool
    var pickMode: bool
    var timerRunning: bool
    var atEndDocument: bool
    var finished: bool
    // where the thread is, and the events taken so far
    ghost var control: P.Control
    ghost var log: seq<P.Event>
    // whether the loop was entered from inside the reading loop
    ghost var reading: bool

    ghost function State(): P.Player
      reads this
    {
      P.Player(eventQueue, processingEvents, ackNext, pickMode, timerRunning, control, atEndDocument, finished,
        log, reading)
    }

    ghost function Here(): Site
      reads this, device
    {
      Site(State(), device.toServer, device.toClient)
    }

    /** `ackNext` is what the uninitialised register happens to hold. */
    constructor (device: Socket, platform: P.Platform, finds: string -> bool, ackNext: bool)
      ensures this.device == device && this.platform == platform && this.finds == finds
      ensures State() == P.Init(ackNext).player
    {
      this.device, this.platform, this.finds := device, platform, finds;
      eventQueue, processingEvents, this.ackNext := [], false, ackNext;
      pickMode, timerRunning, atEndDocument, finished := false, false, false, false;
      control, log, reading := P.Idle, [], false;
    }

    method AckNow()
      modifies device`toClient
      ensures device.toClient == old(device.toClient) + P.AckIf(ackNext)
    {
      if ackNext {
        device.toClient := device.toClient + [P.ACK];
      }
    }

    static function PassOf(kind: P.Kind): Pass {
      match kind
      case Flush => FlushNow
      case Pick => Return
      case Sleep => Return
      case _ => Next
    }

    /** The ACK that `late` announces is written by `ReadNext` when it gets control back. */
    method Dispatch(event: P.Event) returns (pass: Pass, ghost late: bool)
      requires ackNext == event.ack
      modifies this`pickMode, this`timerRunning, this`control, this`reading, device`toClient
      ensures Plus(Here(), late) == Moved(old(Here()), P.Dispatch(old(State()), event, finds(event.path)))
      ensures pass == PassOf(event.kind) && (late <==> pass == Return && P.Late(old(State())))
      ensures pass != Return ==> reading == old(reading)
      ensures control == match pass case Next => old(control) case FlushNow => P.Flushing case Return => P.Idle
    {
      pass := PassOf(event.kind);
      late := pass == Return && P.Late(State());
      match event.kind
      case Ack => AckNow();
      case Close => AckNow();
      case Dump => device.toClient := device.toClient + [P.DUMPED];
      case Flush => control := P.Flushing;
      case Pick => pickMode := true; control, reading := P.Idle, false;
      case Sleep => timerRunning := true; control, reading := P.Idle, false;
      case _ => Deliver(event.path);
      assert device.toClient + [] == device.toClient;
    }

    /** Deliver to the object at the path, or report that there is none; acknowledge either way. */
    method Deliver(path: string)
      modifies device`toClient
      ensures device.toClient ==
              old(device.toClient) + ((if finds(path) then [] else [P.NOTFOUND(path)]) + P.AckIf(ackNext))
    {
      if !finds(path) {
        device.toClient := device.toClient + [P.NOTFOUND(path)];
      }
      AckNow();
    }

    /** The event at the head of the queue is taken and the register set from it. */
    method NextEvent() returns (event: P.Event)
      requires eventQueue != []
      modifies this`eventQueue, this`log, this`ackNext
      ensures State() == P.Taken(old(State()))
      ensures event == old(eventQueue)[0] && ackNext == event.ack && eventQueue == old(eventQueue)[1..]
    {
      event := eventQueue[0];
      eventQueue := eventQueue[1..];
      log := log + [event];
      ackNext := event.ack;
    }

    /** The body of the loop: take an event, set the register, dispatch it, acknowledge it. */
    method TakeOne() returns (pass: Pass, ghost late: bool)
      requires control == P.Looping && eventQueue != []
      modifies this`eventQueue, this`log, this`ackNext, this`pickMode, this`timerRunning, this`control, this`reading
      modifies device`toClient
      ensures Machine(platform)(old(Here()), Take(finds(old(eventQueue)[0].path))) == Some(Plus(Here(), late))
      ensures pass == PassOf(old(eventQueue)[0].kind)
      ensures late <==> pass == Return && old(reading) && atEndDocument && ackNext
      ensures eventQueue == old(eventQueue)[1..]
      ensures pass != Return ==> reading == old(reading)
      ensures control == match pass case Next => P.Looping case FlushNow => P.Flushing case Return => P.Idle
    {
      hide Machine, P.Dispatch, Plus, P.Taken, Moved;
      TakeIs(platform, Here(), finds(eventQueue[0].path));
      var event := NextEvent();
      MovedOver(old(Here()), State(), P.Dispatch(State(), event, finds(event.path)));
      pass, late := Dispatch(event);
    }

    /** `readNext` re-entered from a flush: the guard is set, so the commands there are are only enqueued. */
    method ReEnter() returns (ghost ts: seq<Transition>)
      requires processingEvents && control == P.Flushing
      modifies this`eventQueue, this`atEndDocument, device
      ensures Run(Machine(platform), old(Here()), ts) == Some(Here())
      ensures old(atEndDocument) ==> atEndDocument
    {
      hide Machine;
      ts := [];
      ghost var start := Here();
      while !atEndDocument && device.toServer != [] && !device.toServer[0].Die?
        invariant Run(Machine(platform), start, ts) == Some(Here())
        invariant old(atEndDocument) ==> atEndDocument
        decreases |device.toServer|
      {
        ghost var t := if device.toServer[0].Start? then ReadStart else ReadEnd;
        RunSnoc(Machine(platform), start, ts, t);
        if device.toServer[0].Start? {
          EnqueueNext();
        } else {
          EndInFlush();
        }
        ts := ts + [t];
      }
    }

    /** The end of the document, read from a flush. */
    method EndInFlush()
      requires processingEvents && control == P.Flushing
      requires !atEndDocument && device.toServer != [] && device.toServer[0].EndDocument?
      modifies this`atEndDocument, device
      ensures Machine(platform)(old(Here()), ReadEnd) == Some(Here())
      ensures atEndDocument && device.toServer == old(device.toServer)[1..]
    {
      device.toServer := device.toServer[1..];
      AckNow();
      atEndDocument := true;
    }

    method EnqueueNext()
      requires processingEvents && control == P.Flushing
      requires !atEndDocument && device.toServer != [] && device.toServer[0].Start?
      modifies this`eventQueue, device`toServer
      ensures Machine(platform)(old(Here()), ReadStart) == Some(Here())
      ensures device.toServer == old(device.toServer)[1..]
    {
      var element := device.toServer[0];
      device.toServer := device.toServer[1..];
      eventQueue := eventQueue + P.Expand(platform, element.command);
    }

    /** `QApplication::processEvents`: whatever the client has written meanwhile arrives and is read. */
    method FlushApplication(arrived: seq<P.Element>) returns (ghost ts: seq<Transition>)
      requires processingEvents && control == P.Flushing
      modifies this`eventQueue, this`control, this`atEndDocument, device
      ensures Run(Machine(platform), old(Here()), ts) == Some(Here())
      ensures control == P.Looping && (old(atEndDocument) ==> atEndDocument)
    {
      hide Machine;
      ghost var start := Here();
      RunSnoc(Machine(platform), start, [], Arrive(arrived));
      AnyArrival(platform, start, arrived);
      device.toServer := device.toServer + arrived;
      ghost var us := ReEnter();
      ts := [] + [Arrive(arrived)] + us;
      RunJoin(Machine(platform), start, [] + [Arrive(arrived)], us);
      RunSnoc(Machine(platform), start, ts, Flushed);
      CanReturn(platform, Here());
      control := P.Looping;
      ts := ts + [Flushed];
    }

    /** One turn of the loop: an event and, if it is a flush, what `arrived` by then. */
    method Turn(arrived: Option<seq<P.Element>>) returns (pass: Pass, n: nat, ghost ts: seq<Transition>,
        ghost late: bool)
      requires control == P.Looping && processingEvents && eventQueue != []
      modifies this`eventQueue, this`log, this`ackNext, this`pickMode, this`timerRunning, this`control, this`reading
      modifies this`atEndDocument, device
      ensures Run(Machine(platform), old(Here()), ts) == Some(Plus(Here(), late))
      ensures late <==> pass == Return && old(reading) && atEndDocument && ackNext
      ensures n == if pass == FlushNow && arrived.Some? then 1 else 0
      ensures old(atEndDocument) ==> atEndDocument
      ensures n == 0 ==> |eventQueue| < |old(eventQueue)| && device.toServer == old(device.toServer)
      ensures n == 0 ==> atEndDocument == old(atEndDocument)
      ensures if pass == Return then control == P.Idle else control == P.Looping && reading == old(reading)
    {
      hide Machine;
      ghost var start := Here();
      ghost var t := Take(finds(eventQueue[0].path));
      RunSnoc(Machine(platform), start, [], t);
      pass, late := TakeOne();
      n, ts := 0, [] + [t];
      if pass == FlushNow {
        ghost var us;
        assert device.toClient + [] == device.toClient;
        if arrived.Some? {
          us := FlushApplication(arrived.value);
          n := 1;
        } else {
          us := FlushNothing();
        }
        RunJoin(Machine(platform), start, ts, us);
        ts := ts + us;
        assert device.toClient + [] == device.toClient;
      }
    }

    /**
      Process the queue unless already doing so. `arrivals` holds, for each flush in turn, what the
      client has written by then; `used` counts the flushes. The run starts where the loop is entered.
     */
    method ProcessEvents(arrivals: seq<seq<P.Element>>, ghost inReader: bool)
      returns (used: nat, ghost ts: seq<Transition>, ghost late: bool)
      requires (processingEvents ==> control == P.Idle) && !finished
      modifies this, device
      ensures used <= |arrivals| && (old(processingEvents) ==> used == 0)
      ensures Run(Machine(platform), Entered(old(Here()), inReader), ts) == Some(Plus(Here(), late))
      ensures late <==> inReader && !old(processingEvents) && atEndDocument && !finished && ackNext
      ensures (control == P.Idle || !old(processingEvents)) && (old(atEndDocument) ==> atEndDocument)
      ensures !old(processingEvents) ==> control == P.Idle
      ensures used == 0 ==> device.toServer == old(device.toServer) && atEndDocument == old(atEndDocument)
      ensures finished ==> atEndDocument
    {
      hide Machine, P.Late;
      used, ts, late := 0, [], false;
      assert device.toClient + [] == device.toClient;
      if processingEvents {
        return;
      }
      processingEvents := true;
      control, reading := P.Looping, inReader;
      ghost var start := Here();
      while eventQueue != []
        invariant control == P.Looping && processingEvents && (old(atEndDocument) ==> atEndDocument)
        invariant reading == inReader && !finished && !late
        invariant used <= |arrivals|
        invariant used == 0 ==> device.toServer == old(device.toServer) && atEndDocument == old(atEndDocument)
        invariant Run(Machine(platform), start, ts) == Some(Here())
        decreases |arrivals| - used, |eventQueue|
      {
        var pass, n;
        ghost var us;
        pass, n, us, late := Turn(if used < |arrivals| then Some(arrivals[used]) else None);
        RunJoin(Machine(platform), start, ts, us);
        used, ts := used + n, ts + us;
        if pass == Return {
          return;
        }
        assert device.toClient + [] == device.toClient;
      }
      RunSnoc(Machine(platform), start, ts, Leave);
      LeaveLoop();
      ts := ts + [Leave];
      assert device.toClient + [] == device.toClient;
    }

    /** A flush during which nothing is read. */
    method FlushNothing() returns (ghost ts: seq<Transition>)
      requires control == P.Flushing
      modifies this`control
      ensures Run(Machine(platform), old(Here()), ts) == Some(Here())
      ensures control == P.Looping
    {
      RunSnoc(Machine(platform), Here(), [], Flushed);
      CanReturn(platform, Here());
      ts := [] + [Flushed];
      control := P.Looping;
    }

    /** The queue is empty; at the end of the document this also signals `finished`. */
    method LeaveLoop()
      requires control == P.Looping && eventQueue == []
      modifies this`finished, this`processingEvents, this`control, this`reading
      ensures Machine(platform)(old(Here()), Leave) == Some(Here())
      ensures control == P.Idle && finished == (old(finished) || atEndDocument)
    {
      if atEndDocument {
        finished := true;
      }
      processingEvents := false;
      control, reading := P.Idle, false;
    }

    /** One element read from the event loop, up to the call of `processEvents`. */
    method ReadElement() returns (ghost t: Transition)
      requires control == P.Idle && !atEndDocument && device.toServer != [] && !device.toServer[0].Die?
      modifies this`eventQueue, this`atEndDocument, device
      ensures Machine(platform)(old(Here()), t) == Some(Entered(Here(), t == ReadStart))
      ensures device.toServer == old(device.toServer)[1..] && (t == ReadStart <==> !atEndDocument)
    {
      var element := device.toServer[0];
      device.toServer := device.toServer[1..];
      if element.Start? {
        t := ReadStart;
        eventQueue := eventQueue + P.Expand(platform, element.command);
      } else {
        t := ReadEnd;
        AckNow();
        atEndDocument := true;
      }
    }

    /**
      Read all there is, processing the queue after each element, and once more at the end. Resetting the device when
      the Player finishes also resets the token, so that the end is not seen again after that.
     */
    method ReadNext(arrivals: seq<seq<P.Element>>) returns (used: nat, ghost ts: seq<Transition>)
      requires P.Guarded(State()) && control == P.Idle && !atEndDocument
      modifies this, device
      ensures used <= |arrivals|
      ensures Run(Machine(platform), old(Here()), ts) == Some(Here())
      ensures control == P.Idle && P.Guarded(State())
      ensures used == 0 ==> atEndDocument || device.toServer == [] || device.toServer[0].Die?
    {
      hide Machine;
      used, ts := 0, [];
      ghost var start := Here();
      while !atEndDocument && device.toServer != [] && !device.toServer[0].Die?
        invariant used <= |arrivals| && control == P.Idle
        invariant !atEndDocument ==> !finished
        invariant Run(Machine(platform), start, ts) == Some(Here())
        decreases |arrivals| - used, |device.toServer|
      {
        var n, us := ReadOne(arrivals[used..]);
        RunJoin(Machine(platform), start, ts, us);
        used, ts := used + n, ts + us;
      }
      if !atEndDocument {
        RunSnoc(Machine(platform), start, ts, Recheck);
        CanRecheck(platform, Here());
        var n;
        ghost var us, late;
        n, us, late := ProcessEvents(arrivals[used..], false);
        assert device.toClient + [] == device.toClient;
        RunJoin(Machine(platform), start, ts + [Recheck], us);
        used, ts := used + n, ts + [Recheck] + us;
      }
      RunIsGuarded(platform, start, ts);
    }

    /** The body of the reading loop; when a flush has read the end meanwhile, it is acknowledged here again. */
    method ReadOne(arrivals: seq<seq<P.Element>>) returns (used: nat, ghost ts: seq<Transition>)
      requires control == P.Idle && !atEndDocument && device.toServer != [] && !device.toServer[0].Die? && !finished
      modifies this, device
      ensures used <= |arrivals| && control == P.Idle
      ensures Run(Machine(platform), old(Here()), ts) == Some(Here())
      ensures used == 0 ==> device.toServer == old(device.toServer)[1..]
      ensures !atEndDocument ==> !finished
    {
      hide Machine;
      ghost var start := Here();
      ghost var t := ReadElement();
      RunSnoc(Machine(platform), start, [], t);
      var isStart := !atEndDocument;
      var wasProcessing := processingEvents;
      ghost var us, late;
      used, us, late := ProcessEvents(arrivals, t == ReadStart);
      if isStart && atEndDocument && !finished {
        assert !wasProcessing;
        AckNow();
      } else {
        assert device.toClient + [] == device.toClient;
      }
      RunJoin(Machine(platform), start, [] + [t], us);
      ts := [] + [t] + us;
    }

    /** The sleep is over. */
    method WaitFinished(arrivals: seq<seq<P.Element>>) returns (used: nat, ghost ts: seq<Transition>)
      requires P.Guarded(State()) && timerRunning
      modifies this, device
      ensures used <= |arrivals|
      ensures Run(Machine(platform), old(Here()), ts) == Some(Here())
      ensures control == P.Idle && P.Guarded(State())
    {
      hide Machine;
      ghost var start := Here();
      RunSnoc(Machine(platform), start, [], Timer);
      StopTimer();
      ghost var us, late;
      used, us, late := ProcessEvents(arrivals, false);
      assert device.toClient + [] == device.toClient;
      RunJoin(Machine(platform), start, [] + [Timer], us);
      ts := [] + [Timer] + us;
      RunIsGuarded(platform, start, ts);
    }

    method StopTimer()
      requires control == P.Idle && timerRunning
      modifies this`timerRunning, this`processingEvents, device`toClient
      ensures Machine(platform)(old(Here()), Timer) == Some(Entered(Here(), false))
      ensures !processingEvents
    {
      AckNow();
      timerRunning := false;
      processingEvents := false;
    }

    /** The user has released the mouse button on the object to pick. */
    method EndPick(arrivals: seq<seq<P.Element>>) returns (used: nat, ghost ts: seq<Transition>)
      requires P.Guarded(State()) && pickMode
      modifies this, device
      ensures used <= |arrivals|
      ensures Run(Machine(platform), old(Here()), ts) == Some(Here())
      ensures control == P.Idle && P.Guarded(State())
    {
      hide Machine;
      ghost var start := Here();
      RunSnoc(Machine(platform), start, [], Picked);
      StopPick();
      ghost var us, late;
      used, us, late := ProcessEvents(arrivals, false);
      assert device.toClient + [] == device.toClient;
      RunJoin(Machine(platform), start, [] + [Picked], us);
      ts := [] + [Picked] + us;
      RunIsGuarded(platform, start, ts);
    }

    method StopPick()
      requires control == P.Idle && pickMode
      modifies this`pickMode, this`processingEvents, device`toClient
      ensures Machine(platform)(old(Here()), Picked) == Some(Entered(Here(), false))
      ensures !processingEvents
    {
      device.toClient := device.toClient + [P.PICKED];
      pickMode := false;
      processingEvents := false;
    }
  }

  ghost function Entered(s: Site, reading: bool): Site {
    s.(player := P.EnterLoop(s.player, reading))
  }

  /** With one more ACK on its way to the client, if it is still to be written. */
  ghost function Plus(s: Site, late: bool): Site {
    s.(toClient := s.toClient + P.AckIf(late))
  }

  lemma TakeIs(platform: P.Platform, s: Site, found: bool)
    requires s.player.control == P.Looping && s.player.queue != []
    ensures Machine(platform)(s, Take(found)) ==
            Some(Moved(s, P.Dispatch(P.Taken(s.player), s.player.queue[0], found)))
  {
  }

  lemma MovedOver(s: Site, p: P.Player, m: P.Moved)
    ensures Moved(s.(player := p), m) == Moved(s, m)
  {
  }

  lemma AnyArrival(platform: P.Platform, s: Site, es: seq<P.Element>)
    ensures Machine(platform)(s, Arrive(es)) == Some(s.(toServer := s.toServer + es))
  {
  }

  lemma CanReturn(platform: P.Platform, s: Site)
    requires s.player.control == P.Flushing
    ensures Machine(platform)(s, Flushed) == Some(s.(player := s.player.(control := P.Looping)))
  {
  }

  lemma CanRecheck(platform: P.Platform, s: Site)
    requires s.player.control == P.Idle && !s.player.endRead
    ensures Machine(platform)(s, Recheck) == Some(Entered(s, false))
  {
  }

  // ----- The client -----

  /** All lines of the wake-ups, in order. */
  function Lines(wakeups: seq<seq<P.Reply>>): seq<P.Reply> {
    if wakeups == [] then [] else wakeups[0] + Lines(wakeups[1..])
  }

  lemma LinesStep(wakeups: seq<seq<P.Reply>>, used: nat)
    requires used < |wakeups|
    ensures P.AckReplies(Lines(wakeups[..used + 1])) ==
            P.AckReplies(Lines(wakeups[..used])) + P.AckReplies(wakeups[used])
  {
    assert wakeups[..used + 1] == wakeups[..used] + [wakeups[used]];
    LinesSnoc(wakeups[..used], wakeups[used]);
    P.AckRepliesConcat(Lines(wakeups[..used]), wakeups[used]);
  }

  lemma {:induction false} LinesSnoc(a: seq<seq<P.Reply>>, b: seq<P.Reply>)
    ensures Lines(a + [b]) == Lines(a) + b
  {
    if a == [] {
      assert [b][1..] == [] && b + [] == b;
    } else {
      assert (a + [b])[1..] == a[1..] + [b];
      LinesSnoc(a[1..], b);
      assert a[0] + (Lines(a[1..]) + b) == (a[0] + Lines(a[1..])) + b;
    }
  }

  /** Steps of the server alone. */
  predicate ServerOnly(steps: seq<P.Step>) {
    forall s | s in steps :: !s.SendCommand? && !s.SendEnd? && !s.SendDie? && !s.Receive?
  }

  /** The client has received all there is. */
  function Received(w: P.World): P.World {
    w.(toClient := [], client := w.client.(pending := w.client.pending - P.AckReplies(w.toClient)))
  }

  /** Before each wake-up the server takes steps of its own, after which its replies are what the wake-up brings. */
  ghost predicate Answers(platform: P.Platform, w: P.World, turns: seq<seq<P.Step>>, wakeups: seq<seq<P.Reply>>)
    decreases |turns|
  {
    |turns| == |wakeups| &&
    (turns == [] ||
     (ServerOnly(turns[0]) && P.Possible(platform, w, turns[0]) &&
      var v := P.After(platform, w, turns[0]);
      v.toClient == wakeups[0] && Answers(platform, Received(v), turns[1..], wakeups[1..])))
  }

  /** Receiving one reply after the other is a run. */
  lemma {:induction false} ReceiveAll(platform: P.Platform, w: P.World)
    requires P.Inv(platform, w)
    ensures P.Inv(platform, Received(w))
    decreases |w.toClient|
  {
    if w.toClient == [] {
      assert Received(w) == w;
    } else {
      var v := P.Apply(platform, w, P.Receive);
      ReceiveOne(platform, w);
      P.StepKeepsInv(platform, w, P.Receive);
      hide P.Inv, P.Apply;
      ReceiveAll(platform, v);
    }
  }

  lemma ReceiveOne(platform: P.Platform, w: P.World)
    requires w.toClient != []
    ensures P.Enabled(w, P.Receive)
    ensures var v := P.Apply(platform, w, P.Receive); v.toClient == w.toClient[1..] && Received(v) == Received(w)
  {
  }

  lemma {:induction false} ServerKeepsClient(platform: P.Platform, w: P.World, steps: seq<P.Step>)
    requires P.Inv(platform, w) && ServerOnly(steps) && P.Possible(platform, w, steps)
    ensures P.Inv(platform, P.After(platform, w, steps)) && P.After(platform, w, steps).client == w.client
    decreases |steps|
  {
    if steps != [] {
      assert steps[0] in steps && forall s | s in steps[1..] :: s in steps;
      P.StepKeepsInv(platform, w, steps[0]);
      ServerStep(platform, w, steps[0]);
      hide P.Inv, P.Apply, P.Enabled;
      ServerKeepsClient(platform, P.Apply(platform, w, steps[0]), steps[1..]);
    }
  }

  lemma ServerStep(platform: P.Platform, w: P.World, step: P.Step)
    requires P.Enabled(w, step) && ServerOnly([step])
    ensures P.Apply(platform, w, step).client == w.client
  {
    assert step in [step];
  }

  /** The session after some wake-ups: the client's count has moved by the ACKs received. */
  lemma {:induction false} AnswersGoOn(platform: P.Platform, w: P.World, turns: seq<seq<P.Step>>,
      wakeups: seq<seq<P.Reply>>, n: nat) returns (u: P.World)
    requires P.Inv(platform, w) && Answers(platform, w, turns, wakeups) && n <= |wakeups|
    ensures P.Inv(platform, u) && u.client.sent == w.client.sent
    ensures u.client.pending == w.client.pending - P.AckReplies(Lines(wakeups[..n]))
    decreases n
  {
    hide P.Inv;
    if n == 0 {
      u := w;
    } else {
      var v := P.After(platform, w, turns[0]);
      ServerKeepsClient(platform, w, turns[0]);
      ReceiveAll(platform, v);
      u := AnswersGoOn(platform, Received(v), turns[1..], wakeups[1..], n - 1);
      assert wakeups[..n][0] == wakeups[0] && wakeups[..n][1..] == wakeups[1..][..n - 1];
      P.AckRepliesConcat(wakeups[0], Lines(wakeups[1..][..n - 1]));
    }
  }

  lemma SendingCounts(platform: P.Platform, w: P.World, c: P.Command)
    requires P.Inv(platform, w) && !w.client.endSent
    ensures P.Enabled(w, P.SendCommand(c))
    ensures var v := P.Apply(platform, w, P.SendCommand(c));
      && P.Inv(platform, v) && v.client.sent == w.client.sent + [c]
      && v.client.pending == w.client.pending + if P.Waits(c) then 1 else 0
  {
    P.StepKeepsInv(platform, w, P.SendCommand(c));
  }

  lemma ZeroMeansHandled(platform: P.Platform, u: P.World)
    requires P.Inv(platform, u) && u.client.pending == 0
    ensures P.Guarded(u.player)
    ensures forall k | 0 <= k < |u.client.sent| && P.Waits(u.client.sent[k]) ::
      P.EventsOf(platform, u.client.sent[..k + 1]) <= P.Completed(u.player)
  {
    hide P.EventsOf, P.Completed;
    forall k | 0 <= k < |u.client.sent| && P.Waits(u.client.sent[k])
      ensures P.EventsOf(platform, u.client.sent[..k + 1]) <= P.Completed(u.player)
    {
      P.AckedMeansHandled(platform, u, k);
    }
  }

  class Interpreter {
    const socket: Socket
    var pendingAcks: int

    constructor (socket: Socket)
      ensures this.socket == socket && pendingAcks == 0
    {
      this.socket, pendingAcks := socket, 0;
    }

    predicate Ack()
      reads this
    {
      pendingAcks == 0
    }

    /** The code also asserts that the count is not negative, which `CountIsEnough` says of every session. */
    method SetAck(ack: bool)
      modifies this
      ensures pendingAcks == old(pendingAcks) + if ack then -1 else 1
    {
      if ack {
        pendingAcks := pendingAcks - 1;
      } else {
        pendingAcks := pendingAcks + 1;
      }
    }

    /** Handle every line received; only an ACK changes the count. */
    method ProcessSocketData()
      modifies this, socket`toClient
      ensures pendingAcks == old(pendingAcks) - P.AckReplies(old(socket.toClient)) && socket.toClient == []
    {
      while socket.toClient != []
        invariant pendingAcks - P.AckReplies(socket.toClient) == old(pendingAcks) - P.AckReplies(old(socket.toClient))
        decreases |socket.toClient|
      {
        var line := socket.toClient[0];
        socket.toClient := socket.toClient[1..];
        if line.ACK? {
          SetAck(true);
        }
      }
    }

    /**
      Count one more ACK and spin the event loop until the count is zero or the connection is gone.
      `wakeups` holds what arrives before each wake-up; the connection closes after the last one.
     */
    method WaitForAck(wakeups: seq<seq<P.Reply>>) returns (ok: bool, used: nat)
      requires socket.toClient == []
      modifies this, socket`toClient
      ensures used <= |wakeups| && socket.toClient == []
      ensures pendingAcks == old(pendingAcks) + 1 - P.AckReplies(Lines(wakeups[..used]))
      ensures ok <==> pendingAcks == 0
      ensures !ok ==> used == |wakeups|
    {
      SetAck(false);
      used := 0;
      while used < |wakeups| && !Ack()
        invariant used <= |wakeups| && socket.toClient == []
        invariant pendingAcks == old(pendingAcks) + 1 - P.AckReplies(Lines(wakeups[..used]))
      {
        LinesStep(wakeups, used);
        socket.toClient := wakeups[used];
        ProcessSocketData();
        used := used + 1;
      }
      ok := Ack();
    }

    /**
      Write a command; wait for its ACK if it has one. In any session that has come to `w` and in which the server
      answers the wake-ups by its own steps, the session goes on to `u`; success means that every command waited for
      so far, and all before it, has been handled there, in the order of sending.
     */
    method WriteCommand(c: P.Command, wakeups: seq<seq<P.Reply>>, ghost platform: P.Platform, ghost w: P.World,
        ghost turns: seq<seq<P.Step>>)
      returns (ok: bool, ghost u: P.World)
      requires socket.toClient == []
      requires P.Inv(platform, w) && !w.client.endSent && w.toClient == [] && w.client.pending == pendingAcks
      requires Answers(platform, P.Apply(platform, w, P.SendCommand(c)), turns, wakeups)
      modifies this, socket
      ensures socket.toServer == old(socket.toServer) + [P.Start(c)]
      ensures ok <==> !P.Waits(c) || pendingAcks == 0
      ensures !P.Waits(c) ==> pendingAcks == old(pendingAcks)
      ensures P.Inv(platform, u) && u.client.pending == pendingAcks && u.client.sent == w.client.sent + [c]
      ensures ok && P.Waits(c) ==>
        forall k | 0 <= k < |u.client.sent| && P.Waits(u.client.sent[k]) ::
          P.EventsOf(platform, u.client.sent[..k + 1]) <= P.Completed(u.player)
    {
      hide P.Inv, P.Apply, Answers;
      ghost var v := P.Apply(platform, w, P.SendCommand(c));
      SendingCounts(platform, w, c);
      socket.toServer := socket.toServer + [P.Start(c)];
      if !P.Waits(c) {
        return true, v;
      }
      var used;
      ok, used := WaitForAck(wakeups);
      u := AnswersGoOn(platform, v, turns, wakeups, used);
      if ok {
        ZeroMeansHandled(platform, u);
      }
    }
  }
}
