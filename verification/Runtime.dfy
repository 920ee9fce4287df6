/**
 The runtime state of an agent: an absorbing `Finished` status and the terminal event that goes with it.

 An emitter writes the status under the lock and sends its event after releasing it, so the two are separate steps.
 */
module Runtime {
  import opened Wrappers

  datatype Status = Pending | Running | Finished

  datatype Event = Finish(session: Option<string>) | Error(message: string)

  class AgentRuntime {
    var status: Option<Status>
    var events: seq<Event>

    constructor ()
      ensures status == None && events == []
    {
      status := None;
      events := [];
    }

    method TransitionTo(s: Status)
      modifies this`status
      ensures status == if old(status) == Some(Finished) then old(status) else Some(s)
    {
      if status == Some(Finished) {
        return;
      }
      status := Some(s);
    }

    method ResetForNewTurn(s: Status)
      modifies this`status
      ensures status == Some(s)
    {
      status := Some(s);
    }

    // The section under the lock.
    method FlipToFinished() returns (alreadyFinished: bool)
      modifies this`status
      ensures status == Some(Finished)
      ensures alreadyFinished <==> old(status) == Some(Finished)
    {
      alreadyFinished := status == Some(Finished);
      if !alreadyFinished {
        status := Some(Finished);
      }
    }

    method EmitFinish(session: Option<string>)
      modifies this
      ensures status == Some(Finished)
      ensures events == if old(status) == Some(Finished) then old(events) else old(events) + [Finish(session)]
    {
      var alreadyFinished := FlipToFinished();
      if alreadyFinished {
        return;
      }
      events := events + [Finish(session)];
    }

    method EmitErrorData(message: string)
      modifies this
      ensures status == Some(Finished)
      ensures events == if old(status) == Some(Finished) then old(events) else old(events) + [Error(message)]
    {
      var alreadyFinished := FlipToFinished();
      if alreadyFinished {
        return;
      }
      events := events + [Error(message)];
    }
  }

  // ----- Racing emitters -----

  // A sender knows the turn in which it finished the agent; turns are counted by resets.
  datatype Emitter = Sending(event: Event, turn: nat) | Sent(event: Event) | Silent

  datatype State = State(
    status: Option<Status>,
    emitters: map<nat, Emitter>,
    events: seq<Event>,
    // what has happened so far
    flips: nat,
    resets: nat)

  datatype Step =
    | Flip(emitter: nat, event: Event)
    | Send(emitter: nat)
    | Transition(status: Status)
    | Reset(status: Status)

  const INIT := State(None, map[], [], 0, 0)

  ghost predicate Enabled(s: State, step: Step) {
    match step
    case Flip(e, _) => e !in s.emitters
    case Send(e) => e in s.emitters && s.emitters[e].Sending?
    case Transition(_) => true
    case Reset(_) => true
  }

  ghost function Apply(s: State, step: Step): State
    requires Enabled(s, step)
  {
    match step
    case Flip(e, event) =>
      if s.status == Some(Finished) then s.(emitters := s.emitters[e := Silent])
      else s.(status := Some(Finished), emitters := s.emitters[e := Sending(event, s.resets)], flips := s.flips + 1)
    case Send(e) =>
      s.(emitters := s.emitters[e := Sent(s.emitters[e].event)], events := s.events + [s.emitters[e].event])
    case Transition(status) => if s.status == Some(Finished) then s else s.(status := Some(status))
    case Reset(status) => s.(status := Some(status), resets := s.resets + 1)
  }

  ghost predicate ValidRun(s: State, steps: seq<Step>)
    decreases |steps|
  {
    steps != [] ==> Enabled(s, steps[0]) && ValidRun(Apply(s, steps[0]), steps[1..])
  }

  ghost function Run(s: State, steps: seq<Step>): State
    requires ValidRun(s, steps)
    decreases |steps|
  {
    if steps == [] then s else Run(Apply(s, steps[0]), steps[1..])
  }

  ghost function Senders(s: State): set<nat> {
    set e | e in s.emitters && s.emitters[e].Sending?
  }

  // A flip is possible again only after a reset.
  ghost predicate Inv(s: State) {
    |s.events| + |Senders(s)| == s.flips &&
    s.flips + (if s.status == Some(Finished) then 0 else 1) <= 1 + s.resets
  }

  lemma StepKeepsInv(s: State, step: Step)
    requires Inv(s) && Enabled(s, step)
    ensures Inv(Apply(s, step))
  {
    var u := Apply(s, step);
    match step
    case Flip(e, _) =>
      assert e !in Senders(s);
      if s.status == Some(Finished) {
        assert Senders(u) == Senders(s);
      } else {
        assert Senders(u) == Senders(s) + {e};
      }
    case Send(e) =>
      assert e in Senders(s);
      assert Senders(u) == Senders(s) - {e};
    case Transition(_) =>
      assert Senders(u) == Senders(s);
    case Reset(_) =>
      assert Senders(u) == Senders(s);
  }

  lemma {:induction false} RunKeepsInv(s: State, steps: seq<Step>)
    requires Inv(s) && ValidRun(s, steps)
    ensures Inv(Run(s, steps))
    decreases |steps|
  {
    if steps != [] {
      StepKeepsInv(s, steps[0]);
      RunKeepsInv(Apply(s, steps[0]), steps[1..]);
    }
  }

  /**
   In every interleaving the terminal events sent and those about to be sent are the flips to Finished, one each, and
   there are at most one more of them than resets.
   */
  lemma TerminalEventsAreFlips(steps: seq<Step>)
    requires ValidRun(INIT, steps)
    ensures var s := Run(INIT, steps);
            |s.events| + |Senders(s)| == s.flips && s.flips <= 1 + s.resets
  {
    assert Senders(INIT) == {};
    RunKeepsInv(INIT, steps);
  }

  // Only emitters finish the agent, and nothing starts a new turn.
  ghost predicate OneTurn(steps: seq<Step>) {
    forall step :: step in steps ==> !step.Reset? && !(step.Transition? && step.status == Finished)
  }

  // `e` finished the turn, and everyone else came too late.
  ghost predicate Winner(s: State, e: nat) {
    e in s.emitters && !s.emitters[e].Silent? &&
    (forall d :: d in s.emitters && d != e ==> s.emitters[d].Silent?) &&
    s.events == if s.emitters[e].Sent? then [s.emitters[e].event] else []
  }

  ghost predicate OneTurnInv(s: State) {
    if s.status == Some(Finished) then exists e :: Winner(s, e) else s.emitters == map[] && s.events == []
  }

  lemma OneTurnStep(s: State, step: Step)
    requires OneTurnInv(s) && Enabled(s, step) && OneTurn([step])
    ensures OneTurnInv(Apply(s, step))
  {
    assert step in [step];
    var u := Apply(s, step);
    if s.status == Some(Finished) {
      var e :| Winner(s, e);
      assert Winner(u, e);
    } else if step.Flip? {
      assert Winner(u, step.emitter);
    }
  }

  lemma {:induction false} OneTurnKeepsInv(s: State, steps: seq<Step>)
    requires OneTurnInv(s) && ValidRun(s, steps) && OneTurn(steps)
    ensures OneTurnInv(Run(s, steps))
    ensures Run(s, steps).emitters == map[] ==> s.emitters == map[]
    decreases |steps|
  {
    if steps != [] {
      OneTurnStep(s, steps[0]);
      OneTurnKeepsInv(Apply(s, steps[0]), steps[1..]);
    }
  }

  /**
   However many emitters race in one turn, once they are all through exactly one terminal event has been sent: that of
   the one emitter that flipped the status, while all the others stayed silent.
   */
  lemma RacingEmittersSendOnce(steps: seq<Step>)
    requires ValidRun(INIT, steps) && OneTurn(steps)
    requires var s := Run(INIT, steps); s.emitters != map[] && Senders(s) == {}
    ensures var s := Run(INIT, steps);
            exists e :: e in s.emitters && s.emitters[e].Sent? && s.events == [s.emitters[e].event] &&
                        forall d :: d in s.emitters && d != e ==> s.emitters[d].Silent?
  {
    OneTurnKeepsInv(INIT, steps);
    var s := Run(INIT, steps);
    var e :| Winner(s, e);
    assert e !in Senders(s);
  }

  ghost predicate OnlyTransitions(steps: seq<Step>) {
    forall step :: step in steps ==> step.Transition?
  }

  /** With nobody emitting and no new turn, the status is the last one written, until `Finished` has been. */
  lemma {:induction false} TransitionsAbsorb(s: State, steps: seq<Step>)
    requires ValidRun(s, steps) && OnlyTransitions(steps)
    ensures var u := Run(s, steps);
            u == s.(status := u.status) &&
            u.status ==
            if s.status == Some(Finished) || Transition(Finished) in steps then Some(Finished)
            else if steps == [] then s.status
            else Some(steps[|steps| - 1].status)
    decreases |steps|
  {
    if steps != [] {
      assert steps[0] in steps && forall step :: step in steps[1..] ==> step in steps;
      TransitionsAbsorb(Apply(s, steps[0]), steps[1..]);
      assert Transition(Finished) in steps <==> steps[0] == Transition(Finished) || Transition(Finished) in steps[1..];
    }
  }

  lemma RunCons(s: State, step: Step, rest: seq<Step>)
    requires Enabled(s, step) && ValidRun(Apply(s, step), rest)
    ensures ValidRun(s, [step] + rest)
    ensures Run(s, [step] + rest) == Run(Apply(s, step), rest)
  {
    assert ([step] + rest)[1..] == rest;
  }

  /** Flip and send with nothing between them do what `EmitFinish` and `EmitErrorData` do. */
  lemma UninterruptedEmit(s: State, e: nat, event: Event) returns (steps: seq<Step>)
    requires e !in s.emitters
    ensures ValidRun(s, steps) && Run(s, steps).status == Some(Finished)
    ensures Run(s, steps).events == if s.status == Some(Finished) then s.events else s.events + [event]
  {
    var u := Apply(s, Flip(e, event));
    var rest := if s.status == Some(Finished) then [] else [Send(e)] + [];
    if s.status != Some(Finished) {
      RunCons(u, Send(e), []);
    }
    RunCons(s, Flip(e, event), rest);
    steps := [Flip(e, event)] + rest;
  }

  // ----- Events in their own turn -----

  // Every reset waits until nothing is left to send.
  ghost predicate QuietResets(s: State, steps: seq<Step>)
    requires ValidRun(s, steps)
    decreases |steps|
  {
    steps != [] ==> (steps[0].Reset? ==> Senders(s) == {}) && QuietResets(Apply(s, steps[0]), steps[1..])
  }

  // What is still to be sent belongs to the current turn.
  ghost predicate PendingInTurn(s: State) {
    forall e :: e in Senders(s) ==> s.emitters[e].turn == s.resets
  }

  // Every event is sent in the turn it ends, while the agent is finished.
  ghost predicate SentInTurn(s: State, steps: seq<Step>)
    requires ValidRun(s, steps)
    decreases |steps|
  {
    steps != [] ==>
      (steps[0].Send? ==> s.emitters[steps[0].emitter].turn == s.resets && s.status == Some(Finished)) &&
      SentInTurn(Apply(s, steps[0]), steps[1..])
  }

  // Until its turn is over, a sender finds the agent finished.
  ghost predicate FinishedInTurn(s: State) {
    forall e :: e in Senders(s) ==>
      s.emitters[e].turn <= s.resets && (s.emitters[e].turn == s.resets ==> s.status == Some(Finished))
  }

  lemma FinishedInTurnStep(s: State, step: Step)
    requires FinishedInTurn(s) && Enabled(s, step)
    ensures FinishedInTurn(Apply(s, step))
  {
    var u := Apply(s, step);
    assert forall e :: e in Senders(u) && e in s.emitters ==> e in Senders(s);
  }

  lemma {:induction false} RunFinishedInTurn(s: State, steps: seq<Step>)
    requires FinishedInTurn(s) && ValidRun(s, steps)
    ensures FinishedInTurn(Run(s, steps))
    decreases |steps|
  {
    if steps != [] {
      FinishedInTurnStep(s, steps[0]);
      RunFinishedInTurn(Apply(s, steps[0]), steps[1..]);
    }
  }

  // The turn of this sender is over.
  ghost predicate Late(s: State, e: nat) {
    e in Senders(s) && s.emitters[e].turn < s.resets
  }

  lemma {:induction false} LateStaysLate(s: State, steps: seq<Step>, e: nat)
    requires ValidRun(s, steps) && Late(s, e)
    ensures SentInTurn(s, steps) ==> Late(Run(s, steps), e)
    decreases |steps|
  {
    if steps != [] && !(steps[0].Send? && steps[0].emitter == e) {
      LateStaysLate(Apply(s, steps[0]), steps[1..], e);
    }
  }

  lemma {:induction false} QuietIffInTurn(s: State, steps: seq<Step>)
    requires ValidRun(s, steps) && PendingInTurn(s) && FinishedInTurn(s)
    ensures QuietResets(s, steps) <==> SentInTurn(s, steps) && PendingInTurn(Run(s, steps))
    decreases |steps|
  {
    if steps != [] {
      var u := Apply(s, steps[0]);
      if steps[0].Reset? && Senders(s) != {} {
        var e :| e in Senders(s);
        LateStaysLate(u, steps[1..], e);
      } else {
        assert forall e :: e in Senders(u) && e in s.emitters ==> e in Senders(s);
        assert steps[0].Send? ==> steps[0].emitter in Senders(s);
        FinishedInTurnStep(s, steps[0]);
        QuietIffInTurn(u, steps[1..]);
      }
    }
  }

  /**
   Over whole runs: every event is sent in the turn it ends, to an agent that is still finished, or is pending in that
   turn, if and only if no new turn is begun while a send is pending.
   */
  lemma EventsStayInTheirTurn(steps: seq<Step>)
    requires ValidRun(INIT, steps)
    ensures QuietResets(INIT, steps) <==> SentInTurn(INIT, steps) && PendingInTurn(Run(INIT, steps))
  {
    QuietIffInTurn(INIT, steps);
  }

  /** Beginning a new turn while a send is pending always lets that event arrive in a turn that is not finished. */
  lemma LoudResetMisplacesAnEvent(steps: seq<Step>, status: Status)
    requires ValidRun(INIT, steps) && Senders(Run(INIT, steps)) != {} && status != Finished
    ensures var u := Apply(Run(INIT, steps), Reset(status));
            exists e :: Enabled(u, Send(e)) && u.emitters[e].turn < u.resets && u.status == Some(status)
  {
    RunFinishedInTurn(INIT, steps);
    var s := Run(INIT, steps);
    var e :| e in Senders(s);
    assert Enabled(Apply(s, Reset(status)), Send(e));
  }

  /** Status and event are not written together: a turn's event can arrive when the next turn is already running. */
  lemma EventAfterTheNextTurnBegan() returns (steps: seq<Step>)
    ensures ValidRun(INIT, steps)
    ensures Run(INIT, steps).status == Some(Running) && Run(INIT, steps).events == [Finish(None)]
  {
    var s1 := Apply(INIT, Flip(0, Finish(None)));
    var s2 := Apply(s1, Reset(Running));
    RunCons(s2, Send(0), []);
    var r2 := [Send(0)] + [];
    RunCons(s1, Reset(Running), r2);
    var r1 := [Reset(Running)] + r2;
    RunCons(INIT, Flip(0, Finish(None)), r1);
    steps := [Flip(0, Finish(None))] + r1;
  }
}
