/**
 When removing a conversation leaves a second agent behind: exactly when a remover reads the conversation's cell, still
 empty, while a caller uses it.
 */
module TaskRemovals {
  import opened Wrappers
  import opened TaskProtocol
  import opened TaskTheorems

  // A caller waits for the slot's cell or runs the factory in it.
  ghost predicate UsedBy(s: State, slot: nat, c: nat) {
    c in s.callers && !s.callers[c].Returned? && s.callers[c].slot == slot
  }

  ghost predicate Busy(s: State, slot: nat) {
    exists c :: UsedBy(s, slot, c)
  }

  // A remover reads the cell of a busy slot and finds it empty.
  ghost predicate BusyRead(s: State, step: Step, slot: nat) {
    EmptyRead(s, step, slot) && Busy(s, slot)
  }

  ghost predicate NoBusyRead(s: State, steps: seq<Step>)
    requires ValidRun(s, steps)
    decreases |steps|
  {
    steps != [] ==> (forall slot :: !BusyRead(s, steps[0], slot)) && NoBusyRead(Apply(s, steps[0]), steps[1..])
  }

  // ----- Without such a read, a slot that is given up stays empty -----

  ghost predicate Dead(s: State, slot: nat) {
    slot < |s.cells| && s.cells[slot].None? && !Busy(s, slot)
  }

  ghost predicate AbandonedIsDead(s: State) {
    forall slot :: 0 <= slot < |s.places| && s.places[slot] == Abandoned ==> Dead(s, slot)
  }

  // Callers come to slots of the map only, and only callers fill a cell.
  lemma DeadStaysDead(s: State, step: Step, slot: nat)
    requires Enabled(s, step) && Dead(s, slot) && forall id :: id in s.tasks ==> s.tasks[id] != slot
    ensures Dead(Apply(s, step), slot)
  {
    var u := Apply(s, step);
    forall c
      ensures !UsedBy(u, slot, c)
    {
      assert !UsedBy(s, slot, c);
    }
    if step.Succeed? {
      assert !UsedBy(s, slot, step.caller);
    }
  }

  lemma ReadingMakesNobodyBusy(s: State, step: Step, slot: nat)
    requires Enabled(s, step) && step.ReadCell? && !Busy(s, slot)
    ensures !Busy(Apply(s, step), slot) && Apply(s, step).cells == s.cells
  {
    forall c
      ensures !UsedBy(Apply(s, step), slot, c)
    {
      assert !UsedBy(s, slot, c);
    }
  }

  lemma AbandonedIsUnmapped(s: State, slot: nat)
    requires Inv(s) && slot < |s.places| && s.places[slot] == Abandoned
    ensures forall id :: id in s.tasks ==> s.tasks[id] != slot
  {
  }

  lemma NewSlotsAreMapped(s: State, step: Step, slot: nat)
    requires Inv(s) && Enabled(s, step) && |s.places| <= slot < |Apply(s, step).places|
    ensures Apply(s, step).places[slot].InMap?
  {
  }

  lemma StepKeepsDead(s: State, step: Step)
    requires Inv(s) && Enabled(s, step) && AbandonedIsDead(s) && forall slot :: !BusyRead(s, step, slot)
    ensures AbandonedIsDead(Apply(s, step))
  {
    var u := Apply(s, step);
    forall slot | 0 <= slot < |u.places| && u.places[slot] == Abandoned
      ensures Dead(u, slot)
    {
      if slot >= |s.places| {
        NewSlotsAreMapped(s, step, slot);
        assert false;
      } else if s.places[slot] == Abandoned {
        AbandonedIsUnmapped(s, slot);
        DeadStaysDead(s, step, slot);
      } else {
        AbandonedByAnEmptyRead(s, step, slot);
        assert !BusyRead(s, step, slot);
        ReadingMakesNobodyBusy(s, step, slot);
      }
    }
  }

  lemma {:induction false} RunKeepsDead(s: State, steps: seq<Step>)
    requires Inv(s) && ValidRun(s, steps) && AbandonedIsDead(s) && NoBusyRead(s, steps)
    ensures AbandonedIsDead(Run(s, steps))
    decreases |steps|
  {
    if steps != [] {
      StepKeepsInv(s, steps[0]);
      StepKeepsDead(s, steps[0]);
      RunKeepsDead(Apply(s, steps[0]), steps[1..]);
    }
  }

  lemma DeadSlotsBuiltNothing(s: State, id: string)
    requires Inv(s) && AbandonedIsDead(s)
    ensures DetachedAgents(s, id) == {}
  {
    forall a | 0 <= a < |s.home|
      ensures !Detached(s, a)
    {
      assert s.cells[s.home[a]] == Some(a);
      assert !Dead(s, s.home[a]);
    }
  }

  /**
   If no remover ever reads an empty cell while a caller waits for it or builds in it,
     then at rest every conversation has
   at most one active task, and it is in the map.
   */
  lemma OneTaskWithoutBusyReads(steps: seq<Step>, id: string)
    requires ValidRun(INIT, steps) && NoBusyRead(INIT, steps) && Quiescent(Run(INIT, steps))
    ensures var s := Run(INIT, steps);
            LiveAgents(s, id) == MappedAgents(s, id) && |LiveAgents(s, id)| <= 1
  {
    RunKeepsInv(INIT, steps);
    RunKeepsDead(INIT, steps);
    DeadSlotsBuiltNothing(Run(INIT, steps), id);
    LiveAgentsOfAConversation(steps, id);
  }

  // ----- With such a read, callers alone go on to a second agent -----

  ghost predicate Leads(s: State, w: State) {
    exists steps :: ValidRun(s, steps) && Run(s, steps) == w
  }

  lemma LeadsToItself(s: State)
    ensures Leads(s, s)
  {
    assert ValidRun(s, []) && Run(s, []) == s;
  }

  lemma LeadsAfterStep(s: State, step: Step, w: State)
    requires Enabled(s, step) && Leads(Apply(s, step), w)
    ensures Leads(s, w)
  {
    var steps :| ValidRun(Apply(s, step), steps) && Run(Apply(s, step), steps) == w;
    RunCons(s, step, steps);
  }

  lemma {:induction false} RunsJoin(s: State, steps: seq<Step>, t: State, w: State)
    requires ValidRun(s, steps) && Run(s, steps) == t && Leads(t, w)
    ensures Leads(s, w)
    decreases |steps|
  {
    if steps != [] {
      RunsJoin(Apply(s, steps[0]), steps[1..], t, w);
      LeadsAfterStep(s, steps[0], w);
    }
  }

  lemma LeadsOn(s: State, t: State, w: State)
    requires Leads(s, t) && Leads(t, w)
    ensures Leads(s, w)
  {
    var steps :| ValidRun(s, steps) && Run(s, steps) == t;
    RunsJoin(s, steps, t, w);
  }

  // The factory run in this slot has succeeded; nothing else has moved but callers.
  ghost predicate Filled(s: State, w: State, slot: nat) {
    slot < |s.cells| && w.cells == s.cells[slot := Some(|s.home|)] &&
    w.tasks == s.tasks && w.places == s.places && w.owners == s.owners && w.removers == s.removers
  }

  lemma BuilderFills(s: State, c: nat) returns (w: State)
    requires Inv(s) && c in s.callers && s.callers[c].Building?
    ensures Leads(s, w) && Inv(w) && Filled(s, w, s.callers[c].slot)
  {
    assert CallerOk(s, c);
    w := Apply(s, Succeed(c));
    StepKeepsInv(s, Succeed(c));
    LeadsToItself(w);
    LeadsAfterStep(s, Succeed(c), w);
  }

  lemma WaiterFills(s: State, c: nat) returns (w: State)
    requires Inv(s) && Enabled(s, Acquire(c))
    ensures Leads(s, w) && Inv(w) && Filled(s, w, s.callers[c].slot)
  {
    var t := Apply(s, Acquire(c));
    StepKeepsInv(s, Acquire(c));
    assert t.callers[c] == Building(s.callers[c].slot);
    w := BuilderFills(t, c);
    LeadsAfterStep(s, Acquire(c), w);
  }

  // An empty slot that a caller uses can be filled by callers alone: by its builder, or by the caller itself.
  lemma BusySlotIsFilled(s: State, slot: nat) returns (w: State)
    requires Inv(s) && Busy(s, slot) && slot < |s.cells| && s.cells[slot].None?
    ensures Leads(s, w) && Inv(w) && Filled(s, w, slot)
  {
    var c :| UsedBy(s, slot, c);
    assert CallerOk(s, c);
    if s.callers[c].Building? {
      w := BuilderFills(s, c);
    } else if s.permits[slot].Some? {
      w := BuilderFills(s, s.permits[slot].value);
    } else {
      w := WaiterFills(s, c);
    }
  }

  lemma {:induction false} Unused(ids: set<nat>) returns (c: nat)
    ensures forall id :: id in ids ==> id < c
  {
    if ids == {} {
      c := 0;
    } else {
      var id :| id in ids;
      var d := Unused(ids - {id});
      c := if id < d then d else id + 1;
      forall other | other in ids
        ensures other < c
      {
        assert other == id || other in ids - {id};
      }
    }
  }

  // Slots stay where they are and whose they are, filled ones stay filled, and removers have not moved.
  ghost predicate Extends(s: State, w: State) {
    s.places <= w.places && s.owners <= w.owners && w.removers == s.removers && |s.cells| <= |w.cells| &&
    forall slot :: 0 <= slot < |s.cells| && s.cells[slot].Some? ==> w.cells[slot].Some?
  }

  // The map leads to a filled slot for this conversation.
  ghost predicate HasAgent(s: State, id: string) {
    id in s.tasks && s.tasks[id] < |s.cells| && s.cells[s.tasks[id]].Some?
  }

  lemma FilledExtends(s: State, u: State, w: State, id: string)
    requires Extends(s, u) && id in u.tasks && Filled(u, w, u.tasks[id])
    ensures Extends(s, w) && HasAgent(w, id)
  {
  }

  // A new caller obtains the conversation's slot, or makes one.
  lemma SlotObtained(s: State, c: nat, id: string)
    requires Inv(s) && c !in s.callers
    ensures var u := Apply(s, Obtain(c, id));
            Inv(u) && id in u.tasks && u.tasks[id] < |u.cells| && UsedBy(u, u.tasks[id], c) && Extends(s, u)
  {
    StepKeepsInv(s, Obtain(c, id));
  }

  // A new caller ends with an agent in the map, whoever builds it.
  lemma MappedAgentIsBuilt(s: State, id: string) returns (w: State)
    requires Inv(s)
    ensures Leads(s, w) && Inv(w) && HasAgent(w, id) && Extends(s, w)
  {
    var c := Unused(s.callers.Keys);
    assert c !in s.callers.Keys;
    var u := Apply(s, Obtain(c, id));
    SlotObtained(s, c, id);
    if u.cells[u.tasks[id]].Some? {
      LeadsToItself(u);
      w := u;
    } else {
      w := BusySlotIsFilled(u, u.tasks[id]);
      FilledExtends(s, u, w, id);
    }
    LeadsAfterStep(s, Obtain(c, id), w);
  }

  lemma TwoMembers(x: set<nat>, a: nat, b: nat)
    requires a in x && b in x && a != b
    ensures |x| >= 2
  {
    assert {a, b} <= x;
    assert |x| == |x - {a, b}| + |{a, b}|;
  }

  // A filled slot that was given up and the filled slot of the map hold two live agents of the conversation.
  lemma TwoSlotsTwoAgents(w: State, slot: nat, id: string)
    requires Inv(w) && slot < |w.cells| && w.places[slot] == Abandoned && w.owners[slot] == id && w.cells[slot].Some?
    requires HasAgent(w, id)
    ensures |LiveAgents(w, id)| >= 2 && DetachedAgents(w, id) != {} && MappedAgents(w, id) != {}
  {
    var a, b := w.cells[slot].value, w.cells[w.tasks[id]].value;
    assert w.home[a] == slot && w.home[b] == w.tasks[id];
    assert w.places[w.tasks[id]] == InMap(id);
    Classes(w, a);
    Classes(w, b);
    assert a in DetachedAgents(w, id);
    TwoMembers(LiveAgents(w, id), a, b);
  }

  lemma AbandonedByEmptyRead(s: State, step: Step, slot: nat)
    requires Inv(s) && Enabled(s, step) && BusyRead(s, step, slot)
    ensures var u := Apply(s, step);
            slot < |u.places| && u.places[slot] == Abandoned && u.cells == s.cells && u.owners == s.owners &&
              Busy(u, slot)
  {
    var c :| UsedBy(s, slot, c);
    assert UsedBy(Apply(s, step), slot, c);
  }

  lemma BusyReadLeadsOn(s: State, step: Step, slot: nat) returns (w: State)
    requires Inv(s) && Enabled(s, step) && BusyRead(s, step, slot)
    ensures Leads(Apply(s, step), w) && w.removers == Apply(s, step).removers && Inv(w)
    ensures slot < |s.owners| && slot < |w.cells| && w.cells[slot].Some?
    ensures slot < |w.places| && w.places[slot] == Abandoned && slot < |w.owners| && w.owners[slot] == s.owners[slot]
    ensures HasAgent(w, s.owners[slot])
  {
    var u := Apply(s, step);
    StepKeepsInv(s, step);
    AbandonedByEmptyRead(s, step, slot);
    var t := BusySlotIsFilled(u, slot);
    w := MappedAgentIsBuilt(t, s.owners[slot]);
    LeadsOn(u, t, w);
  }

  /**
   After any such read, in any reachable state, steps of callers alone lead to two live agents of the conversation: one
   detached for good, and one in the map.
   */
  lemma BusyReadStrandsAnAgent(steps: seq<Step>, step: Step, slot: nat) returns (w: State)
    requires ValidRun(INIT, steps) && Enabled(Run(INIT, steps), step) && BusyRead(Run(INIT, steps), step, slot)
    ensures var s := Run(INIT, steps);
            slot < |s.owners| && Leads(Apply(s, step), w) && w.removers == Apply(s, step).removers &&
            |LiveAgents(w, s.owners[slot])| >= 2 &&
            DetachedAgents(w, s.owners[slot]) != {} && MappedAgents(w, s.owners[slot]) != {}
  {
    RunKeepsInv(INIT, steps);
    w := BusyReadLeadsOn(Run(INIT, steps), step, slot);
    TwoSlotsTwoAgents(w, slot, w.owners[slot]);
  }
}
