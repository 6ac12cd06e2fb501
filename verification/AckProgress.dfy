/** From where a waiting client can still get all its ACKs. */
module AckProgress {
  import opened AckProtocol

  /**
    The ACK of the end is not lost, and will not be: if the end is still to be read, there is an event before it to set
    the register, or the register is set as it happens to be.
   */
  ghost predicate Hopeful(platform: Platform, w: World) {
    && !Lost(w)
    && (w.client.endSent && !w.player.endRead ==> EventsOf(platform, w.client.sent) != [] || w.player.ackNext)
  }

  predicate IsSend(step: Step) {
    step.SendCommand? || step.SendEnd? || step.SendDie?
  }

  predicate NoSends(steps: seq<Step>) {
    forall step | step in steps :: !IsSend(step)
  }

  /** How far the Player's thread is from being idle with nothing in progress. */
  function Phase(p: Player): nat {
    if p.timer || p.picking then 3 else if p.control == Flushing then 2 else if p.control == Looping then 1 else 0
  }

  /** Nothing is left to do: everything sent has been read, handled and answered. */
  predicate Done(w: World) {
    w.toServer == [] && w.toClient == [] && Phase(w.player) == 0
  }

  /** What happens next if the client only receives and the Player is left to itself. */
  function NextStep(w: World): (step: Step)
    ensures !IsSend(step)
  {
    if w.toClient != [] then Receive
    else if w.player.control == Flushing then FlushReturns
    else if w.player.control == Looping then (if w.player.queue != [] then Dequeue(true) else LoopEnds)
    else if w.player.timer then TimerFires
    else if w.player.picking then PickEnds
    else if w.toServer != [] && w.toServer[0].Start? then ReadStart
    else if w.toServer != [] && w.toServer[0].EndDocument? then ReadEnd
    else ReadDie
  }

  /** Something is always left to happen until all is done, and it brings the end nearer. */
  ghost predicate Nearer(v: World, w: World) {
    || |v.toServer| < |w.toServer|
    || (|v.toServer| == |w.toServer| &&
        (|v.player.queue| < |w.player.queue| ||
         (|v.player.queue| == |w.player.queue| &&
          (Phase(v.player) < Phase(w.player) ||
           (Phase(v.player) == Phase(w.player) && |v.toClient| < |w.toClient|)))))
  }

  lemma NextIsEnabled(platform: Platform, w: World)
    requires Inv(platform, w) && !Done(w)
    ensures Enabled(w, NextStep(w))
  {
    hide EventsOf, Acks, AckReplies, Awaited, Starts, Faithful, Conserved;
    if Phase(w.player) == 0 && w.toClient == [] {
      HeadIsNext(w);
      if w.toServer[0].Die? {
        DieComesLast(platform, w);
      }
    }
  }

  /** When only the final command is left to be read, the Player has finished. */
  lemma DieComesLast(platform: Platform, w: World)
    requires Inv(platform, w) && Phase(w.player) == 0 && w.toServer != [] && w.toServer[0].Die?
    ensures w.player.endRead && !w.dead
  {
    hide EventsOf, Acks, AckReplies, Awaited, Starts, Faithful, Conserved, Guarded;
    HeadIsNext(w);
  }

  lemma NextIsNearer(platform: Platform, w: World)
    requires Inv(platform, w) && !Done(w) && Enabled(w, NextStep(w))
    ensures Nearer(Apply(platform, w, NextStep(w)), w)
  {
    hide EventsOf, Acks, AckReplies, Awaited, Starts, InOrder, Faithful, Conserved, Expand, Dispatch;
    if NextStep(w).Dequeue? {
      TakingIsNearer(platform, w);
    }
  }

  lemma TakingIsNearer(platform: Platform, w: World)
    requires Enabled(w, Dequeue(true))
    ensures var v := Apply(platform, w, Dequeue(true));
            |v.toServer| == |w.toServer| && |v.player.queue| < |w.player.queue|
  {
    hide Dispatch, Late;
    DispatchKeepsQueue(Taken(w.player), w.player.queue[0], true);
  }

  lemma DispatchKeepsQueue(p: Player, e: Event, found: bool)
    ensures Dispatch(p, e, found).0.queue == p.queue
  {
  }

  /** Whatever happens short of a send leaves the hope there is. */
  lemma NextKeepsHope(platform: Platform, w: World)
    requires Inv(platform, w) && !Done(w) && Enabled(w, NextStep(w)) && Hopeful(platform, w)
    ensures Hopeful(platform, Apply(platform, w, NextStep(w)))
  {
    var step := NextStep(w);
    if w.player.endRead {
      FateKept(platform, w, step);
    } else if step.ReadEnd? {
      EndIsAcknowledged(platform, w);
    } else {
      NotYetLost(platform, w, step);
    }
  }

  lemma NotYetLost(platform: Platform, w: World, step: Step)
    requires Inv(platform, w) && Enabled(w, step) && !w.player.endRead && !step.ReadEnd? && !IsSend(step)
    ensures var v := Apply(platform, w, step);
            && !v.player.endRead && !Lost(v) && v.client.sent == w.client.sent && v.client.endSent == w.client.endSent
            && (v.player.ackNext == w.player.ackNext || EventsOf(platform, w.client.sent) != [])
  {
    hide EventsOf, Acks, AckReplies, Awaited, Starts, InOrder, Faithful, Expand;
    if step.Dequeue? {
      assert w.player.log + w.player.queue != [] by {
        assert (w.player.log + w.player.queue)[|w.player.log|] == w.player.queue[0];
      }
      TakenIsSent(platform, w);
    }
  }

  lemma TakenIsSent(platform: Platform, w: World)
    requires Faithful(platform, w) && w.player.log + w.player.queue != []
    ensures EventsOf(platform, w.client.sent) != []
  {
    EventsOfPrefix(platform, w.client.sent, w.read);
  }

  /** With all events handled, the end is acknowledged. */
  lemma EndIsAcknowledged(platform: Platform, w: World)
    requires Inv(platform, w) && Enabled(w, ReadEnd) && Phase(w.player) == 0 && Hopeful(platform, w)
    ensures !Apply(platform, w, ReadEnd).endLost
  {
    hide Acks, AckReplies, Awaited, Starts, Expand;
    HeadIsNext(w);
    assert w.client.sent[..w.read] == w.client.sent;
    EndAckLostExactly(platform, w);
    NoAcksQueued();
  }

  lemma NoAcksQueued()
    ensures Acks([]) == 0
  {
  }

  /** From every hopeful state the client need only wait: left to itself the system answers everything. */
  lemma {:induction false} WaitSucceeds(platform: Platform, w: World) returns (steps: seq<Step>)
    requires Inv(platform, w) && Hopeful(platform, w)
    ensures NoSends(steps) && Possible(platform, w, steps) && After(platform, w, steps).client.pending == 0
    decreases |w.toServer|, |w.player.queue|, Phase(w.player), |w.toClient|
  {
    hide Hopeful, Apply, Enabled, NextStep;
    if Done(w) {
      steps := [];
      AfterNone(platform, w);
      DoneIsZero(platform, w);
    } else {
      var step := NextStep(w);
      NextIsEnabled(platform, w);
      NextIsNearer(platform, w);
      NextKeepsHope(platform, w);
      StepKeepsInv(platform, w, step);
      var rest := WaitSucceeds(platform, Apply(platform, w, step));
      steps := [step] + rest;
      AfterCons(platform, w, step, rest);
    }
  }

  lemma DoneIsZero(platform: Platform, w: World)
    requires Inv(platform, w) && Hopeful(platform, w) && Done(w)
    ensures w.client.pending == 0
  {
    NoAcksQueued();
  }

  lemma HopelessStays(platform: Platform, w: World, step: Step)
    requires Inv(platform, w) && !Hopeful(platform, w) && Enabled(w, step) && !IsSend(step)
    ensures !Hopeful(platform, Apply(platform, w, step))
  {
    if w.player.endRead {
      FateKept(platform, w, step);
    } else if step.ReadEnd? {
      NothingTaken(platform, w);
      hide Acks, AckReplies, Awaited, Starts, Expand, EventsOf;
    } else {
      NotYetLost(platform, w, step);
    }
  }

  lemma NothingTaken(platform: Platform, w: World)
    requires Faithful(platform, w) && EventsOf(platform, w.client.sent) == []
    ensures w.player.log == [] && w.player.queue == []
  {
    if w.player.log + w.player.queue != [] {
      TakenIsSent(platform, w);
    }
    assert w.player.log + w.player.queue == [];
  }

  lemma HopelessIsPositive(platform: Platform, w: World)
    requires Inv(platform, w) && !Hopeful(platform, w)
    ensures w.client.pending >= 1
  {
    if !Lost(w) {
      EndStillAwaited(w);
    }
  }

  lemma {:induction false} WaitFails(platform: Platform, w: World, steps: seq<Step>)
    requires Inv(platform, w) && !Hopeful(platform, w) && NoSends(steps) && Possible(platform, w, steps)
    ensures After(platform, w, steps).client.pending >= 1
    decreases |steps|
  {
    hide Hopeful, Apply, Enabled, IsSend;
    if steps == [] {
      HopelessIsPositive(platform, w);
    } else {
      assert steps[0] in steps && forall s | s in steps[1..] :: s in steps;
      StepKeepsInv(platform, w, steps[0]);
      HopelessStays(platform, w, steps[0]);
      WaitFails(platform, Apply(platform, w, steps[0]), steps[1..]);
    }
  }

  /**
    In every state a session can reach: a wait without further sends can succeed exactly when the ACK of the end is
    neither lost nor bound to be, which is only so when an end was sent with no event before it to set the register.
   */
  lemma WaitCanSucceedExactly(platform: Platform, w: World)
    requires Inv(platform, w)
    ensures (exists steps ::
              NoSends(steps) && Possible(platform, w, steps) && After(platform, w, steps).client.pending == 0)
       <==> Hopeful(platform, w)
  {
    hide Inv, Hopeful, Possible, After, NoSends;
    if Hopeful(platform, w) {
      var steps := WaitSucceeds(platform, w);
    }
    if steps: seq<Step> :|
      NoSends(steps) && Possible(platform, w, steps) && After(platform, w, steps).client.pending == 0
    {
      if !Hopeful(platform, w) {
        WaitFails(platform, w, steps);
      }
    }
  }
}
