/**
 The agent task manager under interleaving.

 A conversation maps to a slot, a once-cell.  A caller of `get_or_build_task` obtains the slot, then either finds the
 cell filled, or waits for the cell's permit and runs the factory.  A remover (`kill`, `kill_and_wait`, or one key of
 `clear`) takes the slot out of the map, then reads the cell, then makes its kill call.  Taking a slot out of the
 map does not stop a factory run that is already under way in it.

 Slots and agents are numbered in the order they are made.
 */
module TaskProtocol {
  import opened Wrappers

  datatype Outcome = Built(agent: nat) | Failed | Cancelled

  datatype Caller =
    | Waiting(slot: nat)
    | Building(slot: nat)
    | Returned(slot: nat, outcome: Outcome)

  datatype Hold =
    | Free
    | Holds(slot: nat)              // has the slot, has not read its cell
    | Kills(slot: nat, agent: nat)  // has read the agent, has not made the kill call

  datatype Remover = Remover(todo: seq<string>, hold: Hold)

  // Where a slot is.  Used to state the invariant: `Inv` ties it to the rest of the state.
  datatype Place =
    | InMap(id: string)
    | Held(remover: nat)
    | Condemned(remover: nat)
    | Killed
    | Abandoned  // its remover read it empty

  datatype State = State(
    tasks: map<string, nat>,
    cells: seq<Option<nat>>,
    permits: seq<Option<nat>>,
    callers: map<nat, Caller>,
    removers: map<nat, Remover>,
    // what has happened so far
    owners: seq<string>,     // the conversation each slot was made for
    home: seq<nat>,          // the slot each agent was built in
    places: seq<Place>,
    kills: seq<nat>,         // kill calls, by agent
    starts: seq<nat>)        // factory runs, by caller

  datatype Step =
    | Obtain(caller: nat, id: string)
    | Join(caller: nat)
    | Acquire(caller: nat)
    | Succeed(caller: nat)
    | Fail(caller: nat)
    | Cancel(caller: nat)
    | Order(remover: nat, ids: seq<string>)
    | Remove(remover: nat)
    | ReadCell(remover: nat)
    | Kill(remover: nat)

  ghost predicate SlotOk(s: State, slot: nat) {
    slot < |s.cells| && slot < |s.permits| && slot < |s.places|
  }

  ghost predicate WaitingIn(s: State, c: nat) {
    c in s.callers && s.callers[c].Waiting? && SlotOk(s, s.callers[c].slot)
  }

  ghost predicate BuildingIn(s: State, c: nat) {
    c in s.callers && s.callers[c].Building? && SlotOk(s, s.callers[c].slot)
  }

  ghost predicate Enabled(s: State, step: Step) {
    match step
    case Obtain(c, _) => c !in s.callers
    case Join(c) => WaitingIn(s, c) && s.cells[s.callers[c].slot].Some?
    case Acquire(c) => WaitingIn(s, c) && s.cells[s.callers[c].slot].None? && s.permits[s.callers[c].slot].None?
    case Succeed(c) => BuildingIn(s, c)
    case Fail(c) => BuildingIn(s, c)
    case Cancel(c) => WaitingIn(s, c) || BuildingIn(s, c)
    case Order(r, _) => r !in s.removers
    case Remove(r) => r in s.removers && s.removers[r].hold.Free? && s.removers[r].todo != []
    case ReadCell(r) => r in s.removers && s.removers[r].hold.Holds? && SlotOk(s, s.removers[r].hold.slot)
    case Kill(r) => r in s.removers && s.removers[r].hold.Kills? && SlotOk(s, s.removers[r].hold.slot)
  }

  ghost function Apply(s: State, step: Step): State
    requires Enabled(s, step)
  {
    match step
    case Obtain(c, id) =>
      if id in s.tasks then s.(callers := s.callers[c := Waiting(s.tasks[id])])
      else
        s.(tasks := s.tasks[id := |s.cells|], cells := s.cells + [None], permits := s.permits + [None],
           owners := s.owners + [id], places := s.places + [InMap(id)], callers := s.callers[c := Waiting(|s.cells|)])
    case Join(c) =>
      var slot := s.callers[c].slot;
      s.(callers := s.callers[c := Returned(slot, Built(s.cells[slot].value))])
    case Acquire(c) =>
      var slot := s.callers[c].slot;
      s.(permits := s.permits[slot := Some(c)], callers := s.callers[c := Building(slot)], starts := s.starts + [c])
    case Succeed(c) =>
      var slot := s.callers[c].slot;
      s.(cells := s.cells[slot := Some(|s.home|)], permits := s.permits[slot := None], home := s.home + [slot],
         callers := s.callers[c := Returned(slot, Built(|s.home|))])
    case Fail(c) =>
      var slot := s.callers[c].slot;
      s.(permits := s.permits[slot := None], callers := s.callers[c := Returned(slot, Failed)])
    case Cancel(c) =>
      var slot := s.callers[c].slot;
      s.(permits := if s.callers[c].Building? then s.permits[slot := None] else s.permits,
         callers := s.callers[c := Returned(slot, Cancelled)])
    case Order(r, ids) => s.(removers := s.removers[r := Remover(ids, Free)])
    case Remove(r) =>
      var id, rest := s.removers[r].todo[0], s.removers[r].todo[1..];
      if id in s.tasks && s.tasks[id] < |s.places| then
        var slot := s.tasks[id];
        s.(tasks := s.tasks - {id}, removers := s.removers[r := Remover(rest, Holds(slot))],
           places := s.places[slot := Held(r)])
      else s.(removers := s.removers[r := Remover(rest, Free)])
    case ReadCell(r) =>
      var slot := s.removers[r].hold.slot;
      if s.cells[slot].Some? then
        s.(removers := s.removers[r := s.removers[r].(hold := Kills(slot, s.cells[slot].value))],
           places := s.places[slot := Condemned(r)])
      else
        s.(removers := s.removers[r := s.removers[r].(hold := Free)], places := s.places[slot := Abandoned])
    case Kill(r) =>
      var hold := s.removers[r].hold;
      s.(removers := s.removers[r := s.removers[r].(hold := Free)], kills := s.kills + [hold.agent],
         places := s.places[hold.slot := Killed])
  }

  const INIT := State(map[], [], [], map[], map[], [], [], [], [], [])

  ghost predicate ValidRun(s: State, steps: seq<Step>)
    decreases |steps|
  {
    steps != [] ==> Enabled(s, steps[0]) && ValidRun(Apply(s, steps[0]), steps[1..])
  }

  ghost function Run(s: State, steps: seq<Step>): State
    requires ValidRun(s, steps)
    decreases |steps|
  {
    if steps == [] then s else Run(Apply(s, steps[0]), steps[1..])
  }

  // ----- The invariant -----

  ghost predicate CellsOk(s: State) {
    |s.permits| == |s.cells| == |s.places| &&
    (forall slot :: 0 <= slot < |s.cells| && s.cells[slot].Some? ==>
       s.cells[slot].value < |s.home| && s.home[s.cells[slot].value] == slot && s.permits[slot].None?) &&
    (forall a :: 0 <= a < |s.home| ==> s.home[a] < |s.cells| && s.cells[s.home[a]] == Some(a)) &&
    (forall slot :: 0 <= slot < |s.permits| && s.permits[slot].Some? ==>
       s.permits[slot].value in s.callers && s.callers[s.permits[slot].value] == Building(slot))
  }

  ghost predicate CallerOk(s: State, c: nat)
    requires c in s.callers && CellsOk(s)
  {
    s.callers[c].slot < |s.cells| &&
    match s.callers[c]
    case Waiting(_) => true
    case Building(slot) => s.permits[slot] == Some(c)
    case Returned(slot, outcome) => outcome.Built? ==> s.cells[slot] == Some(outcome.agent)
  }

  ghost predicate HoldOk(s: State, r: nat)
    requires r in s.removers && CellsOk(s)
  {
    match s.removers[r].hold
    case Free => true
    case Holds(slot) => slot < |s.places| && s.places[slot] == Held(r)
    case Kills(slot, agent) => slot < |s.places| && s.places[slot] == Condemned(r) && s.cells[slot] == Some(agent)
  }

  ghost predicate PlaceOk(s: State, slot: nat, place: Place)
    requires CellsOk(s) && slot < |s.cells|
  {
    match place
    case InMap(id) => id in s.tasks && s.tasks[id] == slot
    case Held(r) => r in s.removers && s.removers[r].hold == Holds(slot)
    case Condemned(r) => r in s.removers && s.removers[r].hold.Kills? && s.removers[r].hold.slot == slot
    case Killed => s.cells[slot].Some? && s.cells[slot].value in s.kills
    case Abandoned => true
  }

  ghost predicate KillsOk(s: State)
    requires CellsOk(s)
  {
    (forall i :: 0 <= i < |s.kills| ==> s.kills[i] < |s.home| && s.places[s.home[s.kills[i]]] == Killed) &&
    (forall i, j :: 0 <= i < j < |s.kills| ==> s.kills[i] != s.kills[j])
  }

  ghost predicate StartsOk(s: State) {
    (forall i :: 0 <= i < |s.starts| ==> s.starts[i] in s.callers && !s.callers[s.starts[i]].Waiting?) &&
    (forall i, j :: 0 <= i < j < |s.starts| ==> s.starts[i] != s.starts[j])
  }

  // Cells, permits and callers.
  ghost predicate BuildInv(s: State) {
    CellsOk(s) && forall c :: c in s.callers ==> CallerOk(s, c)
  }

  // Everything that has hold of a slot agrees with where the slot is ...
  ghost predicate HolderInv(s: State)
    requires CellsOk(s)
  {
    (forall id :: id in s.tasks ==> s.tasks[id] < |s.places| && s.places[s.tasks[id]] == InMap(id)) &&
    (forall r :: r in s.removers ==> HoldOk(s, r))
  }

  // ... and the other way round.
  ghost predicate PlaceInv(s: State)
    requires CellsOk(s)
  {
    forall slot :: 0 <= slot < |s.places| ==> PlaceOk(s, slot, s.places[slot])
  }

  // The map leads to slots made for their conversation.
  ghost predicate OwnersOk(s: State) {
    |s.owners| == |s.cells| &&
    forall id :: id in s.tasks ==> s.tasks[id] < |s.owners| && s.owners[s.tasks[id]] == id
  }

  ghost predicate Inv(s: State) {
    BuildInv(s) && HolderInv(s) && PlaceInv(s) && OwnersOk(s) && StartsOk(s) && KillsOk(s)
  }

  lemma StepKeepsOwners(s: State, step: Step)
    requires OwnersOk(s) && Enabled(s, step)
    ensures OwnersOk(Apply(s, step))
  {
  }

  lemma StepKeepsStarts(s: State, step: Step)
    requires StartsOk(s) && Enabled(s, step)
    ensures StartsOk(Apply(s, step))
  {
  }

  // A kill call is made for an agent whose slot is condemned, so it is the agent's first.
  lemma KillKeepsKills(s: State, step: Step)
    requires CellsOk(s) && HolderInv(s) && KillsOk(s) && Enabled(s, step) && step.Kill? && CellsOk(Apply(s, step))
    ensures KillsOk(Apply(s, step))
  {
    var hold := s.removers[step.remover].hold;
    assert HoldOk(s, step.remover);
    assert hold.agent !in s.kills;
  }

  // Other steps leave the slots of killed agents where they are.
  lemma OtherStepsKeepKills(s: State, step: Step)
    requires CellsOk(s) && HolderInv(s) && KillsOk(s) && Enabled(s, step) && !step.Kill? && CellsOk(Apply(s, step))
    ensures KillsOk(Apply(s, step))
  {
    var u := Apply(s, step);
    assert s.home <= u.home && u.kills == s.kills && |s.places| <= |u.places|;
    forall slot | 0 <= slot < |s.places| && s.places[slot] == Killed
      ensures u.places[slot] == Killed
    {
      if step.ReadCell? {
        assert HoldOk(s, step.remover);
      }
    }
  }

  lemma ObtainKeepsBuildInv(s: State, step: Step)
    requires BuildInv(s) && HolderInv(s) && Enabled(s, step) && step.Obtain?
    ensures BuildInv(Apply(s, step))
  {
  }

  lemma ObtainKeepsHolderInv(s: State, step: Step)
    requires CellsOk(s) && HolderInv(s) && Enabled(s, step) && step.Obtain? && CellsOk(Apply(s, step))
    ensures HolderInv(Apply(s, step))
  {
  }

  lemma ObtainKeepsPlaceInv(s: State, step: Step)
    requires CellsOk(s) && HolderInv(s) && PlaceInv(s) && Enabled(s, step) && step.Obtain? && CellsOk(Apply(s, step))
    ensures PlaceInv(Apply(s, step))
  {
  }

  lemma JoinKeepsBuildInv(s: State, step: Step)
    requires BuildInv(s) && Enabled(s, step) && step.Join?
    ensures BuildInv(Apply(s, step))
  {
  }

  lemma JoinKeepsPlaces(s: State, step: Step)
    requires CellsOk(s) && HolderInv(s) && PlaceInv(s) && Enabled(s, step) && step.Join? && CellsOk(Apply(s, step))
    ensures HolderInv(Apply(s, step)) && PlaceInv(Apply(s, step))
  {
  }

  lemma AcquireKeepsBuildInv(s: State, step: Step)
    requires BuildInv(s) && Enabled(s, step) && step.Acquire?
    ensures BuildInv(Apply(s, step))
  {
  }

  lemma AcquireKeepsPlaces(s: State, step: Step)
    requires CellsOk(s) && HolderInv(s) && PlaceInv(s) && Enabled(s, step) && step.Acquire? && CellsOk(Apply(s, step))
    ensures HolderInv(Apply(s, step)) && PlaceInv(Apply(s, step))
  {
  }

  lemma SucceedKeepsBuildInv(s: State, step: Step)
    requires BuildInv(s) && Enabled(s, step) && step.Succeed?
    ensures BuildInv(Apply(s, step))
  {
  }

  lemma SucceedKeepsPlaces(s: State, step: Step)
    requires CellsOk(s) && HolderInv(s) && PlaceInv(s) && Enabled(s, step) && step.Succeed? && CellsOk(Apply(s, step))
    ensures HolderInv(Apply(s, step)) && PlaceInv(Apply(s, step))
  {
  }

  lemma FailKeepsBuildInv(s: State, step: Step)
    requires BuildInv(s) && Enabled(s, step) && step.Fail?
    ensures BuildInv(Apply(s, step))
  {
  }

  lemma FailKeepsPlaces(s: State, step: Step)
    requires CellsOk(s) && HolderInv(s) && PlaceInv(s) && Enabled(s, step) && step.Fail? && CellsOk(Apply(s, step))
    ensures HolderInv(Apply(s, step)) && PlaceInv(Apply(s, step))
  {
  }

  lemma CancelKeepsBuildInv(s: State, step: Step)
    requires BuildInv(s) && Enabled(s, step) && step.Cancel?
    ensures BuildInv(Apply(s, step))
  {
  }

  lemma CancelKeepsPlaces(s: State, step: Step)
    requires CellsOk(s) && HolderInv(s) && PlaceInv(s) && Enabled(s, step) && step.Cancel? && CellsOk(Apply(s, step))
    ensures HolderInv(Apply(s, step)) && PlaceInv(Apply(s, step))
  {
  }

  lemma OrderKeepsBuildInv(s: State, step: Step)
    requires BuildInv(s) && Enabled(s, step) && step.Order?
    ensures BuildInv(Apply(s, step))
  {
  }

  lemma OrderKeepsPlaces(s: State, step: Step)
    requires CellsOk(s) && HolderInv(s) && PlaceInv(s) && Enabled(s, step) && step.Order? && CellsOk(Apply(s, step))
    ensures HolderInv(Apply(s, step)) && PlaceInv(Apply(s, step))
  {
  }

  lemma RemoveKeepsBuildInv(s: State, step: Step)
    requires BuildInv(s) && Enabled(s, step) && step.Remove?
    ensures BuildInv(Apply(s, step))
  {
  }

  lemma RemoveKeepsHolderInv(s: State, step: Step)
    requires CellsOk(s) && HolderInv(s) && Enabled(s, step) && step.Remove? && CellsOk(Apply(s, step))
    ensures HolderInv(Apply(s, step))
  {
    // A held slot is not in the map.
    var u := Apply(s, step);
    forall r | r in u.removers && r != step.remover
      ensures HoldOk(u, r)
    {
      assert HoldOk(s, r);
    }
  }

  lemma RemoveKeepsPlaceInv(s: State, step: Step)
    requires CellsOk(s) && HolderInv(s) && PlaceInv(s) && Enabled(s, step) && step.Remove? && CellsOk(Apply(s, step))
    ensures PlaceInv(Apply(s, step))
  {
  }

  lemma ReadFilledKeepsBuildInv(s: State, step: Step)
    requires BuildInv(s) && Enabled(s, step) && step.ReadCell? && s.cells[s.removers[step.remover].hold.slot].Some?
    ensures BuildInv(Apply(s, step))
  {
  }

  lemma ReadFilledKeepsHolderInv(s: State, step: Step)
    requires CellsOk(s) && HolderInv(s) && Enabled(s, step) && step.ReadCell? &&
             s.cells[s.removers[step.remover].hold.slot].Some? &&
             CellsOk(Apply(s, step))
    ensures HolderInv(Apply(s, step))
  {
  }

  lemma ReadFilledKeepsPlaceInv(s: State, step: Step)
    requires CellsOk(s) && HolderInv(s) && PlaceInv(s) && Enabled(s, step) && step.ReadCell? &&
             s.cells[s.removers[step.remover].hold.slot].Some? &&
             CellsOk(Apply(s, step))
    ensures PlaceInv(Apply(s, step))
  {
  }

  lemma ReadEmptyKeepsBuildInv(s: State, step: Step)
    requires BuildInv(s) && Enabled(s, step) && step.ReadCell? && s.cells[s.removers[step.remover].hold.slot].None?
    ensures BuildInv(Apply(s, step))
  {
  }

  lemma ReadEmptyKeepsHolderInv(s: State, step: Step)
    requires CellsOk(s) && HolderInv(s) && Enabled(s, step) && step.ReadCell? &&
             s.cells[s.removers[step.remover].hold.slot].None? &&
             CellsOk(Apply(s, step))
    ensures HolderInv(Apply(s, step))
  {
  }

  lemma ReadEmptyKeepsPlaceInv(s: State, step: Step)
    requires CellsOk(s) && HolderInv(s) && PlaceInv(s) && Enabled(s, step) && step.ReadCell? &&
             s.cells[s.removers[step.remover].hold.slot].None? &&
             CellsOk(Apply(s, step))
    ensures PlaceInv(Apply(s, step))
  {
  }

  lemma KillKeepsBuildInv(s: State, step: Step)
    requires BuildInv(s) && Enabled(s, step) && step.Kill?
    ensures BuildInv(Apply(s, step))
  {
  }

  lemma KillKeepsHolderInv(s: State, step: Step)
    requires CellsOk(s) && HolderInv(s) && Enabled(s, step) && step.Kill? && CellsOk(Apply(s, step))
    ensures HolderInv(Apply(s, step))
  {
  }

  lemma KillKeepsPlaceInv(s: State, step: Step)
    requires CellsOk(s) && HolderInv(s) && PlaceInv(s) && Enabled(s, step) && step.Kill? && CellsOk(Apply(s, step))
    ensures PlaceInv(Apply(s, step))
  {
  }

  lemma StepKeepsBuildInv(s: State, step: Step)
    requires BuildInv(s) && HolderInv(s) && Enabled(s, step)
    ensures BuildInv(Apply(s, step))
  {
    match step
    case Obtain(_, _) => ObtainKeepsBuildInv(s, step);
    case Join(_) => JoinKeepsBuildInv(s, step);
    case Acquire(_) => AcquireKeepsBuildInv(s, step);
    case Succeed(_) => SucceedKeepsBuildInv(s, step);
    case Fail(_) => FailKeepsBuildInv(s, step);
    case Cancel(_) => CancelKeepsBuildInv(s, step);
    case Order(_, _) => OrderKeepsBuildInv(s, step);
    case Remove(_) => RemoveKeepsBuildInv(s, step);
    case ReadCell(r) =>
      if s.cells[s.removers[r].hold.slot].Some? {
        ReadFilledKeepsBuildInv(s, step);
      } else {
        ReadEmptyKeepsBuildInv(s, step);
      }
    case Kill(_) => KillKeepsBuildInv(s, step);
  }

  lemma CallerStepsKeepPlaces(s: State, step: Step)
    requires CellsOk(s) && HolderInv(s) && PlaceInv(s) && Enabled(s, step) && CellsOk(Apply(s, step))
    requires step.Obtain? || step.Join? || step.Acquire? || step.Succeed? || step.Fail? || step.Cancel?
    ensures HolderInv(Apply(s, step)) && PlaceInv(Apply(s, step))
  {
    match step
    case Obtain(_, _) =>
      ObtainKeepsHolderInv(s, step);
      ObtainKeepsPlaceInv(s, step);
    case Join(_) => JoinKeepsPlaces(s, step);
    case Acquire(_) => AcquireKeepsPlaces(s, step);
    case Succeed(_) => SucceedKeepsPlaces(s, step);
    case Fail(_) => FailKeepsPlaces(s, step);
    case Cancel(_) => CancelKeepsPlaces(s, step);
  }

  lemma RemoverStepsKeepPlaces(s: State, step: Step)
    requires CellsOk(s) && HolderInv(s) && PlaceInv(s) && Enabled(s, step) && CellsOk(Apply(s, step))
    requires step.Order? || step.Remove? || step.ReadCell? || step.Kill?
    ensures HolderInv(Apply(s, step)) && PlaceInv(Apply(s, step))
  {
    match step
    case Order(_, _) => OrderKeepsPlaces(s, step);
    case Remove(_) =>
      RemoveKeepsHolderInv(s, step);
      RemoveKeepsPlaceInv(s, step);
    case ReadCell(r) =>
      if s.cells[s.removers[r].hold.slot].Some? {
        ReadFilledKeepsHolderInv(s, step);
        ReadFilledKeepsPlaceInv(s, step);
      } else {
        ReadEmptyKeepsHolderInv(s, step);
        ReadEmptyKeepsPlaceInv(s, step);
      }
    case Kill(_) =>
      KillKeepsHolderInv(s, step);
      KillKeepsPlaceInv(s, step);
  }

  /** Every step of every interleaving keeps the invariant. */
  lemma StepKeepsInv(s: State, step: Step)
    requires Inv(s) && Enabled(s, step)
    ensures Inv(Apply(s, step))
  {
    StepKeepsBuildInv(s, step);
    StepKeepsOwners(s, step);
    StepKeepsStarts(s, step);
    if step.Order? || step.Remove? || step.ReadCell? || step.Kill? {
      RemoverStepsKeepPlaces(s, step);
    } else {
      CallerStepsKeepPlaces(s, step);
    }
    if step.Kill? {
      KillKeepsKills(s, step);
    } else {
      OtherStepsKeepKills(s, step);
    }
  }

  lemma {:induction false} RunKeepsInv(s: State, steps: seq<Step>)
    requires Inv(s) && ValidRun(s, steps)
    ensures Inv(Run(s, steps))
    decreases |steps|
  {
    if steps != [] {
      StepKeepsInv(s, steps[0]);
      RunKeepsInv(Apply(s, steps[0]), steps[1..]);
    }
  }

  lemma RunCons(s: State, step: Step, rest: seq<Step>)
    requires Enabled(s, step) && ValidRun(Apply(s, step), rest)
    ensures ValidRun(s, [step] + rest)
    ensures Run(s, [step] + rest) == Run(Apply(s, step), rest)
  {
    assert ([step] + rest)[1..] == rest;
  }
}
