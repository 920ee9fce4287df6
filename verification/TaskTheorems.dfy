/** What the task manager's protocol guarantees over whole runs. */
module TaskTheorems {
  import opened Wrappers
  import opened TaskProtocol

  // ----- Conservation of agents -----

  // The four classes a built agent can be in.
  ghost predicate Reachable(s: State, a: nat) {
    exists id :: id in s.tasks && s.tasks[id] < |s.cells| && s.cells[s.tasks[id]] == Some(a)
  }

  ghost predicate TakenBy(s: State, a: nat, r: nat)
    requires a < |s.home|
  {
    r in s.removers && (s.removers[r].hold == Holds(s.home[a]) || s.removers[r].hold == Kills(s.home[a], a))
  }

  ghost predicate Taken(s: State, a: nat)
    requires a < |s.home|
  {
    exists r :: TakenBy(s, a, r)
  }

  // Its slot was removed, and the remover read the cell before the factory had filled it.
  ghost predicate Detached(s: State, a: nat)
    requires a < |s.home|
  {
    s.home[a] < |s.places| && s.places[s.home[a]] == Abandoned
  }

  // The remover of this slot reads its cell and finds it empty.
  ghost predicate EmptyRead(s: State, step: Step, slot: nat) {
    step.ReadCell? && step.remover in s.removers && s.removers[step.remover].hold == Holds(slot) &&
    slot < |s.cells| && s.cells[slot].None?
  }

  ghost predicate SomeEmptyRead(s: State, steps: seq<Step>, slot: nat)
    requires ValidRun(s, steps)
    decreases |steps|
  {
    steps != [] && (EmptyRead(s, steps[0], slot) || SomeEmptyRead(Apply(s, steps[0]), steps[1..], slot))
  }

  ghost predicate ExactlyOne(p: bool, q: bool, r: bool, t: bool) {
    (p || q || r || t) && !(p && q) && !(p && r) && !(p && t) && !(q && r) && !(q && t) && !(r && t)
  }

  lemma Classes(s: State, a: nat)
    requires Inv(s) && a < |s.home|
    ensures Reachable(s, a) <==> s.places[s.home[a]].InMap?
    ensures Taken(s, a) <==> s.places[s.home[a]].Held? || s.places[s.home[a]].Condemned?
    ensures a in s.kills <==> s.places[s.home[a]] == Killed
  {
    var slot := s.home[a];
    assert s.cells[slot] == Some(a);
    assert PlaceOk(s, slot, s.places[slot]);
    if Reachable(s, a) {
      var id :| id in s.tasks && s.tasks[id] < |s.cells| && s.cells[s.tasks[id]] == Some(a);
      assert s.home[a] == s.tasks[id];
    }
    if Taken(s, a) {
      var r :| TakenBy(s, a, r);
      assert HoldOk(s, r);
    }
    match s.places[slot]
    case InMap(id) =>
    case Held(r) => assert TakenBy(s, a, r);
    case Condemned(r) => assert HoldOk(s, r) && TakenBy(s, a, r);
    case Killed =>
    case Abandoned =>
  }

  /**
   In every reachable state each built agent is in exactly one class: reachable from the map, under one conversation;
   taken by one remover; killed, by one kill call; or detached.
   */
  lemma ConservationOfAgents(steps: seq<Step>, a: nat)
    requires ValidRun(INIT, steps) && a < |Run(INIT, steps).home|
    ensures var s := Run(INIT, steps);
            ExactlyOne(Reachable(s, a), Taken(s, a), a in s.kills, Detached(s, a))
    ensures var s := Run(INIT, steps);
            forall i, j :: 0 <= i < j < |s.kills| ==> s.kills[i] != s.kills[j]
    ensures var s := Run(INIT, steps);
            forall r, q :: TakenBy(s, a, r) && TakenBy(s, a, q) ==> r == q
    ensures var s := Run(INIT, steps);
            forall id, other :: id in s.tasks && other in s.tasks && s.tasks[id] == s.tasks[other] ==> id == other
  {
    RunKeepsInv(INIT, steps);
    var s := Run(INIT, steps);
    Classes(s, a);
    forall r, q | TakenBy(s, a, r) && TakenBy(s, a, q)
      ensures r == q
    {
      assert HoldOk(s, r) && HoldOk(s, q);
    }
  }

  // ----- Detached agents -----

  lemma AbandonedByAnEmptyRead(s: State, step: Step, slot: nat)
    requires Inv(s) && Enabled(s, step) && slot < |s.places| && s.places[slot] != Abandoned
    ensures Apply(s, step).places[slot] == Abandoned <==> EmptyRead(s, step, slot)
  {
    if step.ReadCell? {
      assert HoldOk(s, step.remover);
    }
  }

  lemma AbandonedStays(s: State, step: Step, slot: nat)
    requires CellsOk(s) && HolderInv(s) && Enabled(s, step) && slot < |s.places| && s.places[slot] == Abandoned
    ensures var u := Apply(s, step); slot < |u.places| && u.places[slot] == Abandoned
  {
    if step.Remove? || step.ReadCell? || step.Kill? {
      assert HoldOk(s, step.remover);
    }
  }

  lemma {:induction false} AbandonedForever(s: State, steps: seq<Step>, slot: nat)
    requires Inv(s) && ValidRun(s, steps) && slot < |s.places| && s.places[slot] == Abandoned
    ensures var u := Run(s, steps); slot < |u.places| && u.places[slot] == Abandoned
    decreases |steps|
  {
    if steps != [] {
      StepKeepsInv(s, steps[0]);
      AbandonedStays(s, steps[0], slot);
      AbandonedForever(Apply(s, steps[0]), steps[1..], slot);
    }
  }

  ghost predicate AbandonedAt(s: State, slot: nat) {
    slot < |s.places| && s.places[slot] == Abandoned
  }

  lemma {:induction false} AbandonedIffReadEmpty(s: State, steps: seq<Step>, slot: nat)
    requires Inv(s) && ValidRun(s, steps)
    ensures AbandonedAt(Run(s, steps), slot) <==> AbandonedAt(s, slot) || SomeEmptyRead(s, steps, slot)
    decreases |steps|
  {
    if steps != [] {
      var u := Apply(s, steps[0]);
      StepKeepsInv(s, steps[0]);
      AbandonedIffReadEmpty(u, steps[1..], slot);
      if AbandonedAt(s, slot) {
        AbandonedForever(s, steps, slot);
      } else if slot < |s.places| {
        AbandonedByAnEmptyRead(s, steps[0], slot);
      }
    }
  }

  /**
   A built agent is detached if and only if, at some step of the run, a remover read its slot's cell while it was
   empty.
   */
  lemma DetachedIffReadEmpty(steps: seq<Step>, a: nat)
    requires ValidRun(INIT, steps) && a < |Run(INIT, steps).home|
    ensures var s := Run(INIT, steps);
            Detached(s, a) <==> SomeEmptyRead(INIT, steps, s.home[a])
  {
    AbandonedIffReadEmpty(INIT, steps, Run(INIT, steps).home[a]);
  }

  lemma FilledStep(s: State, step: Step, slot: nat, a: nat)
    requires Inv(s) && Enabled(s, step) && slot < |s.cells| && s.cells[slot] == Some(a)
    ensures var u := Apply(s, step); slot < |u.cells| && u.cells[slot] == Some(a) && s.home <= u.home
  {
    if step.Succeed? {
      assert CallerOk(s, step.caller);
    }
  }

  lemma {:induction false} FilledForever(s: State, steps: seq<Step>, slot: nat, a: nat)
    requires Inv(s) && ValidRun(s, steps) && slot < |s.cells| && s.cells[slot] == Some(a)
    ensures var u := Run(s, steps);
            slot < |u.cells| && u.cells[slot] == Some(a) && s.home <= u.home
    decreases |steps|
  {
    if steps != [] {
      StepKeepsInv(s, steps[0]);
      FilledStep(s, steps[0], slot, a);
      FilledForever(Apply(s, steps[0]), steps[1..], slot, a);
    }
  }

  /** Once detached, an agent is never killed by the manager and never in its map again, whatever happens later. */
  lemma DetachedForever(steps: seq<Step>, later: seq<Step>, a: nat)
    requires ValidRun(INIT, steps) && ValidRun(Run(INIT, steps), later)
    requires a < |Run(INIT, steps).home| && Detached(Run(INIT, steps), a)
    ensures var u := Run(Run(INIT, steps), later);
            a !in u.kills && !Reachable(u, a)
  {
    RunKeepsInv(INIT, steps);
    var s := Run(INIT, steps);
    RunKeepsInv(s, later);
    AbandonedForever(s, later, s.home[a]);
    FilledForever(s, later, s.home[a], a);
    var u := Run(s, later);
    assert u.home[a] == s.home[a];
    Classes(u, a);
  }

  ghost predicate Quiescent(s: State) {
    forall r :: r in s.removers ==> s.removers[r].hold.Free?
  }

  /** With no removal under way, the agents alive outside the map are exactly the detached ones. */
  lemma StrayIffDetached(steps: seq<Step>, a: nat)
    requires ValidRun(INIT, steps) && a < |Run(INIT, steps).home| && Quiescent(Run(INIT, steps))
    ensures var s := Run(INIT, steps);
            !Reachable(s, a) && a !in s.kills <==> Detached(s, a)
  {
    ConservationOfAgents(steps, a);
    var s := Run(INIT, steps);
    assert !Taken(s, a);
  }

  // The agents built for a conversation that nobody has killed.
  ghost function LiveAgents(s: State, id: string): set<nat> {
    set a | 0 <= a < |s.home| && s.home[a] < |s.owners| && s.owners[s.home[a]] == id && a !in s.kills
  }

  ghost function DetachedAgents(s: State, id: string): set<nat> {
    set a | 0 <= a < |s.home| && s.home[a] < |s.owners| && s.owners[s.home[a]] == id && Detached(s, a)
  }

  // What the map itself leads to.
  ghost function MappedAgents(s: State, id: string): set<nat> {
    if id in s.tasks && s.tasks[id] < |s.cells| && s.cells[s.tasks[id]].Some? then {s.cells[s.tasks[id]].value} else {}
  }

  // The agent that the map leads to for a conversation was built for it.
  lemma MappedIsReachable(s: State, id: string, a: nat)
    requires Inv(s) && a < |s.home|
    ensures a in MappedAgents(s, id) <==> Reachable(s, a) && s.owners[s.home[a]] == id
  {
    if Reachable(s, a) {
      var other :| other in s.tasks && s.tasks[other] < |s.cells| && s.cells[s.tasks[other]] == Some(a);
      assert s.home[a] == s.tasks[other] && s.owners[s.home[a]] == other;
    }
  }

  lemma LiveIsMappedOrDetached(steps: seq<Step>, id: string, a: nat)
    requires ValidRun(INIT, steps) && Quiescent(Run(INIT, steps)) && a < |Run(INIT, steps).home|
    ensures var s := Run(INIT, steps);
            (a in LiveAgents(s, id) <==> a in MappedAgents(s, id) || a in DetachedAgents(s, id)) &&
            !(a in MappedAgents(s, id) && a in DetachedAgents(s, id))
  {
    RunKeepsInv(INIT, steps);
    StrayIffDetached(steps, a);
    ConservationOfAgents(steps, a);
    MappedIsReachable(Run(INIT, steps), id, a);
  }

  lemma AtMostOneOfBoth(x: set<nat>, y: set<nat>)
    requires x !! y && |x| <= 1
    ensures |x + y| == |x| + |y|
    ensures |x + y| <= 1 <==> y == {} || (|y| == 1 && x == {})
  {
  }

  lemma LiveIsTheUnion(steps: seq<Step>, id: string)
    requires ValidRun(INIT, steps) && Quiescent(Run(INIT, steps))
    ensures var s := Run(INIT, steps);
            LiveAgents(s, id) == MappedAgents(s, id) + DetachedAgents(s, id) &&
            MappedAgents(s, id) !! DetachedAgents(s, id)
  {
    RunKeepsInv(INIT, steps);
    var s := Run(INIT, steps);
    forall a: nat
      ensures a in LiveAgents(s, id) <==> a in MappedAgents(s, id) + DetachedAgents(s, id)
      ensures !(a in MappedAgents(s, id) && a in DetachedAgents(s, id))
    {
      if a < |s.home| {
        LiveIsMappedOrDetached(steps, id, a);
      }
    }
  }

  /**
   At rest, the live agents of a conversation are its detached ones and at most one more, that in the map.  So it has at
   most one active task if and only if none is detached, or one is and the map has none.
   */
  lemma LiveAgentsOfAConversation(steps: seq<Step>, id: string)
    requires ValidRun(INIT, steps) && Quiescent(Run(INIT, steps))
    ensures var s := Run(INIT, steps);
            LiveAgents(s, id) == MappedAgents(s, id) + DetachedAgents(s, id) &&
            |LiveAgents(s, id)| == |MappedAgents(s, id)| + |DetachedAgents(s, id)| && |MappedAgents(s, id)| <= 1
    ensures var s := Run(INIT, steps);
            |LiveAgents(s, id)| <= 1 <==>
            DetachedAgents(s, id) == {} || (|DetachedAgents(s, id)| == 1 && MappedAgents(s, id) == {})
  {
    LiveIsTheUnion(steps, id);
    var s := Run(INIT, steps);
    AtMostOneOfBoth(MappedAgents(s, id), DetachedAgents(s, id));
  }

  // A caller builds the agent of a conversation that has none, undisturbed.
  ghost function AfterBuild(s: State, c: nat, id: string): State {
    s.(tasks := s.tasks[id := |s.cells|], cells := s.cells + [Some(|s.home|)], permits := s.permits + [None],
       callers := s.callers[c := Returned(|s.cells|, Built(|s.home|))], owners := s.owners + [id],
       home := s.home + [|s.cells|], places := s.places + [InMap(id)], starts := s.starts + [c])
  }

  lemma BuildAlone(s: State, c: nat, id: string, rest: seq<Step>)
    requires id !in s.tasks && c !in s.callers && |s.permits| == |s.cells| == |s.places| &&
             ValidRun(AfterBuild(s, c, id), rest)
    ensures var steps := [Obtain(c, id)] + ([Acquire(c)] + ([Succeed(c)] + rest));
            ValidRun(s, steps) && Run(s, steps) == Run(AfterBuild(s, c, id), rest)
  {
    var s1 := Apply(s, Obtain(c, id));
    var s2 := Apply(s1, Acquire(c));
    assert Apply(s2, Succeed(c)) == AfterBuild(s, c, id);
    RunCons(s2, Succeed(c), rest);
    RunCons(s1, Acquire(c), [Succeed(c)] + rest);
    RunCons(s, Obtain(c, id), [Acquire(c)] + ([Succeed(c)] + rest));
  }

  // The same, but a remover takes the slot and reads its cell while the factory runs.
  ghost function AfterDetach(s: State, c: nat, r: nat, id: string): State {
    s.(cells := s.cells + [Some(|s.home|)], permits := s.permits + [None],
       callers := s.callers[c := Returned(|s.cells|, Built(|s.home|))], removers := s.removers[r := Remover([], Free)],
       owners := s.owners + [id], home := s.home + [|s.cells|], places := s.places + [Abandoned],
       starts := s.starts + [c])
  }

  ghost function AfterKill(s: State, c: nat, r: nat, id: string): State
    requires BuildingIn(s, c) && id in s.tasks
  {
    var slot := s.callers[c].slot;
    s.(tasks := s.tasks - {id}, cells := s.cells[slot := Some(|s.home|)], permits := s.permits[slot := None],
       callers := s.callers[c := Returned(slot, Built(|s.home|))], removers := s.removers[r := Remover([], Free)],
       home := s.home + [slot], places := s.places[slot := Abandoned])
  }

  // A remover takes the slot and reads its cell while the caller is building in it.
  lemma KilledMeanwhile(s: State, c: nat, r: nat, id: string, rest: seq<Step>)
    requires BuildingIn(s, c) && r !in s.removers && id in s.tasks && s.tasks[id] == s.callers[c].slot
    requires s.cells[s.tasks[id]].None?
    requires ValidRun(AfterKill(s, c, r, id), rest)
    ensures var steps := [Order(r, [id])] + ([Remove(r)] + ([ReadCell(r)] + ([Succeed(c)] + rest)));
            ValidRun(s, steps) && Run(s, steps) == Run(AfterKill(s, c, r, id), rest)
  {
    var slot := s.tasks[id];
    var s3 := Apply(s, Order(r, [id]));
    var s4 := Apply(s3, Remove(r));
    assert s4.removers[r] == Remover([], Holds(slot));
    var s5 := Apply(s4, ReadCell(r));
    assert s5.removers == s.removers[r := Remover([], Free)];
    assert s5.places == s.places[slot := Abandoned];
    assert Apply(s5, Succeed(c)) == AfterKill(s, c, r, id);
    RunCons(s5, Succeed(c), rest);
    RunCons(s4, ReadCell(r), [Succeed(c)] + rest);
    RunCons(s3, Remove(r), [ReadCell(r)] + ([Succeed(c)] + rest));
    RunCons(s, Order(r, [id]), [Remove(r)] + ([ReadCell(r)] + ([Succeed(c)] + rest)));
  }

  lemma BuildWhileKilled(s: State, c: nat, r: nat, id: string, rest: seq<Step>)
    requires id !in s.tasks && c !in s.callers && r !in s.removers && |s.permits| == |s.cells| == |s.places|
    requires ValidRun(AfterDetach(s, c, r, id), rest)
    ensures var kill := [Order(r, [id])] + ([Remove(r)] + ([ReadCell(r)] + ([Succeed(c)] + rest)));
            var steps := [Obtain(c, id)] + ([Acquire(c)] + kill);
            ValidRun(s, steps) && Run(s, steps) == Run(AfterDetach(s, c, r, id), rest)
  {
    var s1 := Apply(s, Obtain(c, id));
    var s2 := Apply(s1, Acquire(c));
    assert s2.tasks - {id} == s.tasks;
    assert AfterKill(s2, c, r, id) == AfterDetach(s, c, r, id);
    KilledMeanwhile(s2, c, r, id, rest);
    var kill := [Order(r, [id])] + ([Remove(r)] + ([ReadCell(r)] + ([Succeed(c)] + rest)));
    RunCons(s1, Acquire(c), kill);
    RunCons(s, Obtain(c, id), [Acquire(c)] + kill);
  }

  /**
   Killing a conversation while its agent is being built detaches the agent, and the next caller builds a second one:
   two agents of one conversation are alive although the manager is at rest.
   */
  lemma KillDuringBuildDetaches(id: string) returns (steps: seq<Step>, s: State)
    ensures ValidRun(INIT, steps) && s == Run(INIT, steps) && Quiescent(s)
    ensures s.callers == map[0 := Returned(0, Built(0)), 1 := Returned(1, Built(1))] && s.kills == []
    ensures !Reachable(s, 0) && Reachable(s, 1) && LiveAgents(s, id) == {0, 1}
  {
    var u := AfterDetach(INIT, 0, 0, id);
    s := AfterBuild(u, 1, id);
    assert ValidRun(s, []);
    var rest := [Obtain(1, id)] + ([Acquire(1)] + ([Succeed(1)] + []));
    BuildAlone(u, 1, id, []);
    BuildWhileKilled(INIT, 0, 0, id, rest);
    var kill := [Order(0, [id])] + ([Remove(0)] + ([ReadCell(0)] + ([Succeed(0)] + rest)));
    steps := [Obtain(0, id)] + ([Acquire(0)] + kill);
    assert s.tasks[id] == 1 && s.cells == [Some(0), Some(1)];
    assert forall other :: other in s.tasks ==> other == id;
  }

  // ----- Single flight -----

  /** In every reachable state a slot has at most one factory run in progress and has had at most one success. */
  lemma SingleFlight(steps: seq<Step>)
    requires ValidRun(INIT, steps)
    ensures var s := Run(INIT, steps);
            forall c, d ::
              c in s.callers && d in s.callers && s.callers[c].Building? && s.callers[c] == s.callers[d] ==> c == d
    ensures var s := Run(INIT, steps);
            forall a, b :: 0 <= a < b < |s.home| ==> s.home[a] != s.home[b]
  {
    RunKeepsInv(INIT, steps);
    var s := Run(INIT, steps);
    forall c, d | c in s.callers && d in s.callers && s.callers[c].Building? && s.callers[c] == s.callers[d]
      ensures c == d
    {
      assert CallerOk(s, c) && CallerOk(s, d);
    }
  }

  ghost predicate StartsElsewhere(s: State, from: nat, slot: nat) {
    forall i :: from <= i < |s.starts| ==> s.starts[i] in s.callers && s.callers[s.starts[i]].slot != slot
  }

  lemma StartsElsewhereStep(s: State, step: Step, slot: nat, a: nat, from: nat)
    requires Enabled(s, step) && slot < |s.cells| && s.cells[slot] == Some(a) && StartsElsewhere(s, from, slot)
    ensures StartsElsewhere(Apply(s, step), from, slot)
  {
  }

  /** Once a slot is filled it keeps its agent, and no factory run ever starts in it again. */
  lemma {:induction false} NoRunAfterSuccess(s: State, steps: seq<Step>, slot: nat, a: nat, from: nat)
    requires Inv(s) && ValidRun(s, steps) && slot < |s.cells| && s.cells[slot] == Some(a) &&
             StartsElsewhere(s, from, slot)
    ensures var u := Run(s, steps);
            slot < |u.cells| && u.cells[slot] == Some(a) && StartsElsewhere(u, from, slot)
    decreases |steps|
  {
    FilledForever(s, steps, slot, a);
    if steps != [] {
      StepKeepsInv(s, steps[0]);
      FilledStep(s, steps[0], slot, a);
      StartsElsewhereStep(s, steps[0], slot, a, from);
      NoRunAfterSuccess(Apply(s, steps[0]), steps[1..], slot, a, from);
    }
  }

  lemma {:induction false} SlotsAreKept(s: State, steps: seq<Step>, c: nat)
    requires ValidRun(s, steps) && c in s.callers
    ensures var u := Run(s, steps); c in u.callers && u.callers[c].slot == s.callers[c].slot
    decreases |steps|
  {
    if steps != [] {
      SlotsAreKept(Apply(s, steps[0]), steps[1..], c);
    }
  }

  ghost predicate RemovesId(s: State, step: Step, id: string) {
    step.Remove? && step.remover in s.removers && s.removers[step.remover].todo != [] &&
      s.removers[step.remover].todo[0] == id
  }

  ghost predicate NeverRemoved(s: State, steps: seq<Step>, id: string)
    requires ValidRun(s, steps)
    decreases |steps|
  {
    steps != [] ==> !RemovesId(s, steps[0], id) && NeverRemoved(Apply(s, steps[0]), steps[1..], id)
  }

  lemma {:induction false} SlotStays(s: State, steps: seq<Step>, id: string)
    requires ValidRun(s, steps) && NeverRemoved(s, steps, id) && id in s.tasks
    ensures id in Run(s, steps).tasks && Run(s, steps).tasks[id] == s.tasks[id]
    decreases |steps|
  {
    if steps != [] {
      SlotStays(Apply(s, steps[0]), steps[1..], id);
    }
  }

  ghost predicate ReachableState(s: State) {
    exists steps :: ValidRun(INIT, steps) && Run(INIT, steps) == s
  }

  lemma ReachableKeepsInv(s: State)
    requires ReachableState(s)
    ensures Inv(s)
  {
    var steps :| ValidRun(INIT, steps) && Run(INIT, steps) == s;
    RunKeepsInv(INIT, steps);
  }

  lemma SameSlotSameAgent(s: State, steps: seq<Step>, c: nat, d: nat)
    requires Inv(s) && ValidRun(s, steps) && c in s.callers && d in s.callers && s.callers[c].slot == s.callers[d].slot
    ensures var u := Run(s, steps);
            c in u.callers && d in u.callers &&
            (u.callers[c].Returned? && u.callers[d].Returned? && u.callers[c].outcome.Built? &&
              u.callers[d].outcome.Built? ==>
               u.callers[c].outcome == u.callers[d].outcome)
  {
    RunKeepsInv(s, steps);
    SlotsAreKept(s, steps, c);
    SlotsAreKept(s, steps, d);
    var u := Run(s, steps);
    assert CallerOk(u, c) && CallerOk(u, d);
  }

  lemma SameSlot(s: State, c: nat, s1: State, between: seq<Step>, d: nat, s2: State, id: string)
    requires Enabled(s, Obtain(c, id)) && s1 == Apply(s, Obtain(c, id))
    requires ValidRun(s1, between) && NeverRemoved(s1, between, id)
    requires Enabled(Run(s1, between), Obtain(d, id)) && s2 == Apply(Run(s1, between), Obtain(d, id))
    ensures c in s2.callers && d in s2.callers && s2.callers[c].slot == s2.callers[d].slot
  {
    SlotStays(s1, between, id);
    SlotsAreKept(s1, between, c);
  }

  /**
   Two callers for one conversation with no removal of it between their look-ups, who both return an agent, return the
   same one, whatever failures, cancellations and other removals happen before, between and after.
   */
  lemma CallersShareTheAgent(s: State, c: nat, s1: State, between: seq<Step>, d: nat, s2: State, after: seq<Step>,
      id: string)
    requires ReachableState(s) && Enabled(s, Obtain(c, id)) && s1 == Apply(s, Obtain(c, id))
    requires ValidRun(s1, between) && NeverRemoved(s1, between, id)
    requires Enabled(Run(s1, between), Obtain(d, id)) && s2 == Apply(Run(s1, between), Obtain(d, id))
    requires ValidRun(s2, after)
    ensures var u := Run(s2, after);
            c in u.callers && d in u.callers &&
            (u.callers[c].Returned? && u.callers[d].Returned? && u.callers[c].outcome.Built? &&
              u.callers[d].outcome.Built? ==>
               u.callers[c].outcome == u.callers[d].outcome)
  {
    ReachableKeepsInv(s);
    StepKeepsInv(s, Obtain(c, id));
    RunKeepsInv(s1, between);
    StepKeepsInv(Run(s1, between), Obtain(d, id));
    SameSlot(s, c, s1, between, d, s2, id);
    SameSlotSameAgent(s2, after, c, d);
  }

  // ----- Bounded work and termination -----

  ghost function Waiters(s: State): set<nat> {
    set c | c in s.callers && s.callers[c].Waiting?
  }

  ghost function Builders(s: State): set<nat> {
    set c | c in s.callers && s.callers[c].Building?
  }

  // What the callers have left to do, at most.
  ghost function Pending(s: State): nat {
    2 * |Waiters(s)| + |Builders(s)|
  }

  ghost predicate CallerStep(step: Step) {
    step.Join? || step.Acquire? || step.Succeed? || step.Fail? || step.Cancel?
  }

  ghost function Weight(s: State, c: nat): nat {
    if c !in s.callers || s.callers[c].Returned? then 0 else if s.callers[c].Waiting? then 2 else 1
  }

  lemma DifferAtMostAt(x: set<nat>, y: set<nat>, c: nat)
    requires x - {c} == y - {c}
    ensures |x| + (if c in y then 1 else 0) == |y| + (if c in x then 1 else 0)
  {
    assert c in x ==> x == (x - {c}) + {c};
    assert c !in x ==> x == x - {c};
    assert c in y ==> y == (y - {c}) + {c};
    assert c !in y ==> y == y - {c};
  }

  // One caller moves and every other stays as it was.
  lemma OneCallerMoves(s: State, u: State, c: nat, to: Caller)
    requires u.callers == s.callers[c := to]
    ensures Pending(u) + Weight(s, c) == Pending(s) + Weight(u, c)
  {
    var ws, wu, bs, bu := Waiters(s), Waiters(u), Builders(s), Builders(u);
    DifferAtMostAt(ws, wu, c);
    DifferAtMostAt(bs, bu, c);
    assert 2 * |wu| + |bu| + Weight(s, c) == 2 * |ws| + |bs| + Weight(u, c);
  }

  lemma CallerStepsDecrease(s: State, step: Step)
    requires Enabled(s, step)
    ensures var u := Apply(s, step);
            if CallerStep(step) then Pending(u) < Pending(s)
            else Pending(u) == Pending(s) + (if step.Obtain? then 2 else 0)
  {
    var u := Apply(s, step);
    if step.Obtain? || CallerStep(step) {
      var c := step.caller;
      assert u.callers == s.callers[c := u.callers[c]];
      OneCallerMoves(s, u, c, u.callers[c]);
    } else {
      assert u.callers == s.callers;
      assert Waiters(u) == Waiters(s) && Builders(u) == Builders(s);
    }
  }

  ghost function Count(steps: seq<Step>, p: Step -> bool): nat {
    if steps == [] then 0 else (if p(steps[0]) then 1 else 0) + Count(steps[1..], p)
  }

  /** In any run the callers together make at most two steps for each call to `get_or_build_task`. */
  lemma {:induction false} CallerStepsAreBounded(s: State, steps: seq<Step>)
    requires ValidRun(s, steps)
    ensures Count(steps, CallerStep) + Pending(Run(s, steps)) <=
            2 * Count(steps, (step: Step) => step.Obtain?) + Pending(s)
    decreases |steps|
  {
    if steps != [] {
      CallerStepsDecrease(s, steps[0]);
      CallerStepsAreBounded(Apply(s, steps[0]), steps[1..]);
    }
  }

  lemma PendingCallerMoves(s: State, c: nat)
    requires BuildInv(s) && c in s.callers && !s.callers[c].Returned?
    ensures exists d :: Enabled(s, Join(d)) || Enabled(s, Acquire(d)) || (Enabled(s, Succeed(d)) && Enabled(s, Fail(d)))
  {
    assert CallerOk(s, c);
    var slot := s.callers[c].slot;
    if s.callers[c].Building? {
      assert Enabled(s, Succeed(c)) && Enabled(s, Fail(c));
    } else if s.cells[slot].Some? {
      assert Enabled(s, Join(c));
    } else if s.permits[slot].Some? {
      var builder := s.permits[slot].value;
      assert Enabled(s, Succeed(builder)) && Enabled(s, Fail(builder));
    } else {
      assert Enabled(s, Acquire(c));
    }
  }

  /** While a call is pending, some caller can take a step; a builder's step is the end of its factory run. */
  lemma NoCallerIsStuck(steps: seq<Step>)
    requires ValidRun(INIT, steps) && Pending(Run(INIT, steps)) > 0
    ensures var s := Run(INIT, steps);
            exists c :: Enabled(s, Join(c)) || Enabled(s, Acquire(c)) || (Enabled(s, Succeed(c)) && Enabled(s, Fail(c)))
  {
    RunKeepsInv(INIT, steps);
    var s := Run(INIT, steps);
    assert Waiters(s) + Builders(s) != {};
    var c :| c in Waiters(s) + Builders(s);
    PendingCallerMoves(s, c);
  }

  /** A caller can be dropped at any time; if it was building, the permit is free for the next one. */
  lemma CallersCanLeave(steps: seq<Step>, c: nat)
    requires ValidRun(INIT, steps)
    requires var s := Run(INIT, steps); c in s.callers && !s.callers[c].Returned?
    ensures var s := Run(INIT, steps);
            Enabled(s, Cancel(c)) &&
            var u := Apply(s, Cancel(c));
            u.callers == s.callers[c := Returned(s.callers[c].slot, Cancelled)] && u.cells == s.cells &&
            s.callers[c].slot < |u.permits| && u.permits[s.callers[c].slot] != Some(c)
  {
    RunKeepsInv(INIT, steps);
    assert CallerOk(Run(INIT, steps), c);
  }

  lemma {:induction false} DistinctFitIn(xs: seq<nat>, y: set<nat>)
    requires forall i :: 0 <= i < |xs| ==> xs[i] in y
    requires forall i, j :: 0 <= i < j < |xs| ==> xs[i] != xs[j]
    ensures |xs| <= |y|
  {
    if xs != [] {
      var last := xs[|xs| - 1];
      DistinctFitIn(xs[..|xs| - 1], y - {last});
    }
  }

  /**
   Each call runs the factory at most once, so `n` calls run it at most `n` times, retries after failures included.
   */
  lemma FactoryRunsAreBounded(steps: seq<Step>)
    requires ValidRun(INIT, steps)
    ensures var s := Run(INIT, steps);
            (forall i, j :: 0 <= i < j < |s.starts| ==> s.starts[i] != s.starts[j]) && |s.starts| <= |s.callers|
  {
    RunKeepsInv(INIT, steps);
    var s := Run(INIT, steps);
    DistinctFitIn(s.starts, s.callers.Keys);
  }
}
