/**
 The task manager's methods on their objects: a map from conversation ids to once-cells.

 Each method is proved here for calls that do not overlap, against the view of the manager as a map from ids to
 what their cells hold; `TaskProtocol` has the interleavings.  `UninterruptedBuild` and `UninterruptedKill` say
 that the protocol, left alone, changes its view in the same way.
 */
module TaskManager {
  import opened Wrappers
  import P = TaskProtocol

  type View = map<string, Option<nat>>

  // An `OnceCell`: set at most once.
  class OnceCell {
    var value: Option<nat>

    constructor ()
      ensures value == None
    {
      value := None;
    }

    // `run` is what the factory would return if it were run.
    method GetOrTryInit(run: Result<nat, string>) returns (r: Result<nat, string>, ran: bool)
      modifies this
      ensures ran <==> old(value).None?
      ensures r == if ran then run else Ok(old(value).value)
      ensures value == if r.Ok? then Some(r.value) else None
    {
      if value.Some? {
        return Ok(value.value), false;
      }
      if run.Ok? {
        value := Some(run.value);
      }
      return run, true;
    }
  }

  ghost predicate Idle(view: View, id: string) {
    id !in view || view[id].None?
  }

  ghost function Built(view: View, id: string, run: Result<nat, string>): View {
    if Idle(view, id) then view[id := if run.Ok? then Some(run.value) else None] else view
  }

  ghost function Among(keys: seq<string>): set<string> {
    set id | id in keys
  }

  // One kill call for each filled conversation, in the order of `keys`.  A key that comes up again is gone by then.
  ghost function Waits(view: View, keys: seq<string>): seq<nat> {
    if keys == [] then []
    else
      var id, before := keys[|keys| - 1], keys[..|keys| - 1];
      Waits(view, before) + (if Idle(view, id) || id in before then [] else [view[id].value])
  }

  lemma WaitsNext(view: View, keys: seq<string>, n: nat)
    requires n < |keys|
    ensures Among(keys[..n + 1]) == Among(keys[..n]) + {keys[n]}
    ensures Waits(view, keys[..n + 1]) ==
            Waits(view, keys[..n]) + (if Idle(view, keys[n]) || keys[n] in keys[..n] then [] else [view[keys[n]].value])
  {
    assert keys[..n + 1] == keys[..n] + [keys[n]];
    assert keys[..n + 1][..n] == keys[..n];
  }

  class WorkerTaskManager {
    var tasks: map<string, OnceCell>

    // No two conversations share a cell.
    ghost predicate Valid()
      reads this
    {
      forall id, other :: id in tasks && other in tasks && tasks[id] == tasks[other] ==> id == other
    }

    ghost function View(): View
      reads this, tasks.Values
    {
      map id | id in tasks :: tasks[id].value
    }

    constructor ()
      ensures Valid() && View() == map[]
    {
      tasks := map[];
    }

    method GetTask(id: string) returns (agent: Option<nat>)
      ensures agent.Some? <==> !Idle(View(), id)
      ensures agent.Some? ==> agent == View()[id]
    {
      if id in tasks {
        return tasks[id].value;
      }
      return None;
    }

    method GetOrBuildTask(id: string, run: Result<nat, string>) returns (r: Result<nat, string>, ran: bool)
      requires Valid()
      modifies this, tasks.Values
      ensures Valid() && fresh(tasks.Values - old(tasks.Values))
      ensures ran <==> Idle(old(View()), id)
      ensures ran ==> r == run
      ensures !ran ==> r == Ok(old(View())[id].value)
      ensures View() == Built(old(View()), id, run)
    {
      var slot: OnceCell;
      if id in tasks {
        slot := tasks[id];
      } else {
        slot := new OnceCell();
        tasks := tasks[id := slot];
      }
      r, ran := slot.GetOrTryInit(run);
    }

    // The map's own removal.
    method Remove(id: string) returns (slot: Option<OnceCell>)
      modifies this
      ensures tasks == old(tasks) - {id}
      ensures slot == if id in old(tasks) then Some(old(tasks)[id]) else None
    {
      slot := if id in tasks then Some(tasks[id]) else None;
      tasks := tasks - {id};
    }

    // `fails` is what the agent's own kill call reports, if it is made.
    method Kill(id: string, fails: bool) returns (killed: Option<nat>, ok: bool)
      requires Valid()
      modifies this
      ensures Valid() && tasks == old(tasks) - {id} && View() == old(View()) - {id}
      ensures killed == if Idle(old(View()), id) then None else old(View())[id]
      ensures ok <==> !(killed.Some? && fails)
    {
      var slot := Remove(id);
      if slot.Some? && slot.value.value.Some? {
        return slot.value.value, !fails;
      }
      return None, true;
    }

    /** `keys` is the snapshot of the map's keys, in the map's own order; `waits` are the agents killed. */
    method Clear(keys: seq<string>) returns (waits: seq<nat>)
      requires Valid()
      requires forall id :: id in keys <==> id in tasks
      modifies this
      ensures Valid() && View() == map[]
      ensures waits == Waits(old(View()), keys)
    {
      ghost var view := View();
      waits := [];
      var n := 0;
      while n < |keys|
        invariant 0 <= n <= |keys|
        invariant tasks == old(tasks) - Among(keys[..n])
        invariant waits == Waits(view, keys[..n])
      {
        var key := keys[n];
        WaitsNext(view, keys, n);
        var slot := Remove(key);
        if slot.Some? && slot.value.value.Some? {
          waits := waits + [slot.value.value.value];
        }
        n := n + 1;
      }
      assert keys[..n] == keys;
    }
  }

  ghost function Filled(view: View, keys: seq<string>): set<string> {
    set id | id in keys && !Idle(view, id)
  }

  /** `Clear` kills the agent of every filled conversation, no other agent, and none twice. */
  lemma {:induction false} ClearKillsEachOnce(view: View, keys: seq<string>)
    ensures |Waits(view, keys)| == |Filled(view, keys)|
    ensures forall id :: id in Filled(view, keys) ==> view[id].value in Waits(view, keys)
    ensures forall agent :: agent in Waits(view, keys) ==>
              exists id :: id in Filled(view, keys) && view[id] == Some(agent)
  {
    if keys != [] {
      var id, before := keys[|keys| - 1], keys[..|keys| - 1];
      ClearKillsEachOnce(view, before);
      assert keys == before + [id];
      assert Filled(view, keys) == Filled(view, before) + (if Idle(view, id) then {} else {id});
    }
  }

  // ----- The protocol, left alone, does the same -----

  ghost function ViewOf(s: P.State): View {
    map id | id in s.tasks && s.tasks[id] < |s.cells| :: s.cells[s.tasks[id]]
  }

  ghost predicate Sized(s: P.State) {
    |s.permits| == |s.cells| == |s.places| && forall id :: id in s.tasks ==> s.tasks[id] < |s.cells|
  }

  // No two conversations share a slot.  Every reachable state is like this.
  ghost predicate Tidy(s: P.State) {
    Sized(s) && forall id, other :: id in s.tasks && other in s.tasks && s.tasks[id] == s.tasks[other] ==> id == other
  }

  lemma ReachableIsTidy(steps: seq<P.Step>)
    requires P.ValidRun(P.INIT, steps)
    ensures Tidy(P.Run(P.INIT, steps))
  {
    P.RunKeepsInv(P.INIT, steps);
  }

  lemma EmptySlotFound(s: P.State, c: nat, id: string)
    requires Tidy(s) && c !in s.callers && id in s.tasks && Idle(ViewOf(s), id) && s.permits[s.tasks[id]].None?
    ensures var u := P.Apply(s, P.Obtain(c, id));
            u == s.(callers := s.callers[c := P.Waiting(s.tasks[id])]) && u.cells[u.tasks[id]].None? &&
            ViewOf(u) == ViewOf(s) && ViewOf(s) == ViewOf(s)[id := None]
  {
    assert ViewOf(s)[id] == s.cells[s.tasks[id]];
  }

  lemma EmptySlotMade(s: P.State, c: nat, id: string)
    requires Tidy(s) && c !in s.callers && id !in s.tasks
    ensures var u := P.Apply(s, P.Obtain(c, id));
            Tidy(u) && P.Enabled(u, P.Acquire(c)) &&
            u.tasks == s.tasks[id := |s.cells|] && u.cells == s.cells + [None] &&
            u.callers[c] == P.Waiting(|s.cells|) && ViewOf(u) == ViewOf(s)[id := None]
  {
  }

  lemma EmptySlotObtained(s: P.State, c: nat, id: string)
    requires Tidy(s) && c !in s.callers && Idle(ViewOf(s), id)
    requires id in s.tasks ==> s.permits[s.tasks[id]].None?
    ensures var u := P.Apply(s, P.Obtain(c, id));
            Tidy(u) && P.Enabled(u, P.Acquire(c)) && id in u.tasks && u.callers[c] == P.Waiting(u.tasks[id]) &&
            u.cells[u.tasks[id]].None? && ViewOf(u) == ViewOf(s)[id := None] && u.home == s.home && u.starts == s.starts
  {
    if id in s.tasks {
      EmptySlotFound(s, c, id);
    } else {
      EmptySlotMade(s, c, id);
    }
  }

  lemma PermitTaken(s: P.State, c: nat, id: string)
    requires Tidy(s) && P.Enabled(s, P.Acquire(c)) && id in s.tasks && s.callers[c] == P.Waiting(s.tasks[id])
    ensures var u := P.Apply(s, P.Acquire(c));
            Tidy(u) && u.tasks == s.tasks && u.cells == s.cells && u.callers[c] == P.Building(s.tasks[id]) &&
            ViewOf(u) == ViewOf(s) && u.home == s.home && u.starts == s.starts + [c]
  {
  }

  ghost function LastStep(c: nat, run: Result<nat, string>): P.Step {
    if run.Ok? then P.Succeed(c) else P.Fail(c)
  }

  lemma FactoryEnds(s: P.State, c: nat, id: string, run: Result<nat, string>)
    requires Tidy(s) && c in s.callers && id in s.tasks && s.callers[c] == P.Building(s.tasks[id])
    requires s.cells[s.tasks[id]].None? && (run.Ok? ==> run.value == |s.home|)
    ensures var last := LastStep(c, run);
            P.Enabled(s, last) &&
            var u := P.Apply(s, last);
            ViewOf(u) == ViewOf(s)[id := if run.Ok? then Some(run.value) else None] && u.starts == s.starts &&
            u.callers == s.callers[c := P.Returned(s.tasks[id], if run.Ok? then P.Built(run.value) else P.Failed)]
  {
    if run.Ok? {
      assert ViewOf(P.Apply(s, P.Succeed(c))) == ViewOf(s)[id := Some(run.value)];
    } else {
      assert ViewOf(P.Apply(s, P.Fail(c))) == ViewOf(s)[id := None];
    }
  }

  lemma ThreeSteps(s: P.State, x: P.Step, y: P.Step, z: P.Step)
    requires P.Enabled(s, x) && P.Enabled(P.Apply(s, x), y) && P.Enabled(P.Apply(P.Apply(s, x), y), z)
    ensures P.ValidRun(s, [x, y, z]) && P.Run(s, [x, y, z]) == P.Apply(P.Apply(P.Apply(s, x), y), z)
  {
    var s1 := P.Apply(s, x);
    var s2 := P.Apply(s1, y);
    P.RunCons(s2, z, []);
    P.RunCons(s1, y, [z]);
    P.RunCons(s, x, [y, z]);
    assert [z] + [] == [z] && [y] + [z] == [y, z] && [x] + [y, z] == [x, y, z];
  }

  // The view has changed as `GetOrBuildTask` changes it, after one factory run.
  ghost predicate BuildEnded(s: P.State, u: P.State, c: nat, id: string, run: Result<nat, string>) {
    ViewOf(u) == Built(ViewOf(s), id, run) && u.starts == s.starts + [c] && c in u.callers &&
    u.callers[c].Returned? && u.callers[c].outcome == if run.Ok? then P.Built(run.value) else P.Failed
  }

  lemma SetTwice(view: View, id: string, first: Option<nat>, second: Option<nat>)
    ensures view[id := first][id := second] == view[id := second]
  {
  }

  lemma BuildStepByStep(s: P.State, c: nat, id: string, run: Result<nat, string>)
    requires Tidy(s) && c !in s.callers && Idle(ViewOf(s), id) && (run.Ok? ==> run.value == |s.home|)
    requires id in s.tasks ==> s.permits[s.tasks[id]].None?
    ensures var s1 := P.Apply(s, P.Obtain(c, id));
            P.Enabled(s1, P.Acquire(c)) &&
            var s2 := P.Apply(s1, P.Acquire(c));
            P.Enabled(s2, LastStep(c, run)) && BuildEnded(s, P.Apply(s2, LastStep(c, run)), c, id, run)
  {
    EmptySlotObtained(s, c, id);
    var s1 := P.Apply(s, P.Obtain(c, id));
    PermitTaken(s1, c, id);
    var s2 := P.Apply(s1, P.Acquire(c));
    FactoryEnds(s2, c, id, run);
    SetTwice(ViewOf(s), id, None, if run.Ok? then Some(run.value) else None);
  }

  /**
   A caller of a conversation without an agent, left alone, changes the view as `GetOrBuildTask` does, whether the slot
   is new or left empty by an earlier failure, and whether the factory succeeds or fails.
   */
  lemma UninterruptedBuild(s: P.State, c: nat, id: string, run: Result<nat, string>) returns (steps: seq<P.Step>)
    requires Tidy(s) && c !in s.callers && Idle(ViewOf(s), id) && (run.Ok? ==> run.value == |s.home|)
    requires id in s.tasks ==> s.permits[s.tasks[id]].None?
    ensures P.ValidRun(s, steps) && BuildEnded(s, P.Run(s, steps), c, id, run)
  {
    BuildStepByStep(s, c, id, run);
    ThreeSteps(s, P.Obtain(c, id), P.Acquire(c), LastStep(c, run));
    steps := [P.Obtain(c, id), P.Acquire(c), LastStep(c, run)];
  }

  /** A caller of a filled conversation, left alone, joins it and changes nothing. */
  lemma UninterruptedJoin(s: P.State, c: nat, id: string)
    requires Tidy(s) && c !in s.callers && !Idle(ViewOf(s), id)
    ensures var s1 := P.Apply(s, P.Obtain(c, id));
            P.Enabled(s1, P.Join(c)) && ViewOf(P.Apply(s1, P.Join(c))) == ViewOf(s) &&
            P.Apply(s1, P.Join(c)).callers[c].outcome == P.Built(ViewOf(s)[id].value)
  {
  }

  // The slot is out of the view; with no slot there is nothing to read and the removal is over.
  lemma RemovalStep(s: P.State, r: nat, id: string)
    requires Sized(s) && r in s.removers && s.removers[r] == P.Remover([id], P.Free)
    ensures var u := P.Apply(s, P.Remove(r));
            (P.Enabled(u, P.ReadCell(r)) <==> id in s.tasks) &&
            (id in s.tasks ==> u.removers[r].hold == P.Holds(s.tasks[id])) &&
            u.cells == s.cells && u.kills == s.kills && ViewOf(u) == ViewOf(s) - {id}
  {
    assert id !in s.tasks ==> ViewOf(s) - {id} == ViewOf(s);
  }

  /**
   A remover, left alone, takes the conversation out of the view as `Kill` does, goes on to a kill call exactly when the
   cell is filled, and has nothing to do for a conversation without a slot.
   */
  lemma UninterruptedKill(s: P.State, r: nat, id: string)
    requires Tidy(s) && r in s.removers && s.removers[r] == P.Remover([id], P.Free)
    ensures var s1 := P.Apply(s, P.Remove(r));
            ViewOf(s1) == ViewOf(s) - {id} && s1.kills == s.kills &&
            (P.Enabled(s1, P.ReadCell(r)) <==> id in s.tasks) &&
            (id !in s.tasks ==> s1.removers[r] == P.Remover([], P.Free)) &&
            (id in s.tasks ==>
               var s2 := P.Apply(s1, P.ReadCell(r));
               ViewOf(s2) == ViewOf(s) - {id} &&
               (P.Enabled(s2, P.Kill(r)) <==> !Idle(ViewOf(s), id)) &&
               (P.Enabled(s2, P.Kill(r)) ==> P.Apply(s2, P.Kill(r)).kills == s.kills + [ViewOf(s)[id].value]))
  {
    RemovalStep(s, r, id);
    var s1 := P.Apply(s, P.Remove(r));
    if id in s.tasks {
      assert ViewOf(P.Apply(s1, P.ReadCell(r))) == ViewOf(s1);
    }
  }
}
