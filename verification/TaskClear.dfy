/** `clear` under the protocol: the removal of a whole snapshot of keys, one after another. */
module TaskClear {
  import opened Wrappers
  import opened TaskManager
  import P = TaskProtocol

  // Steps of this remover and nobody else.
  ghost predicate OnlyBy(steps: seq<P.Step>, r: nat) {
    forall step :: step in steps ==> step == P.Remove(r) || step == P.ReadCell(r) || step == P.Kill(r)
  }

  ghost predicate Leads(s: P.State, r: nat, w: P.State) {
    exists steps :: P.ValidRun(s, steps) && OnlyBy(steps, r) && P.Run(s, steps) == w
  }

  lemma LeadsToItself(s: P.State, r: nat)
    ensures Leads(s, r, s)
  {
    assert P.ValidRun(s, []) && OnlyBy([], r) && P.Run(s, []) == s;
  }

  lemma LeadsAfterStep(s: P.State, step: P.Step, r: nat, w: P.State)
    requires P.Enabled(s, step) && OnlyBy([step], r) && Leads(P.Apply(s, step), r, w)
    ensures Leads(s, r, w)
  {
    var steps :| P.ValidRun(P.Apply(s, step), steps) && OnlyBy(steps, r) && P.Run(P.Apply(s, step), steps) == w;
    P.RunCons(s, step, steps);
    assert step in [step];
    assert OnlyBy([step] + steps, r);
  }

  lemma {:induction false} RunsJoin(s: P.State, steps: seq<P.Step>, r: nat, t: P.State, w: P.State)
    requires P.ValidRun(s, steps) && OnlyBy(steps, r) && P.Run(s, steps) == t && Leads(t, r, w)
    ensures Leads(s, r, w)
    decreases |steps|
  {
    if steps != [] {
      assert steps[0] in steps && forall step :: step in steps[1..] ==> step in steps;
      assert OnlyBy(steps[1..], r) && OnlyBy([steps[0]], r);
      RunsJoin(P.Apply(s, steps[0]), steps[1..], r, t, w);
      LeadsAfterStep(s, steps[0], r, w);
    }
  }

  lemma LeadsOn(s: P.State, r: nat, t: P.State, w: P.State)
    requires Leads(s, r, t) && Leads(t, r, w)
    ensures Leads(s, r, w)
  {
    var steps :| P.ValidRun(s, steps) && OnlyBy(steps, r) && P.Run(s, steps) == t;
    RunsJoin(s, steps, r, t, w);
  }

  // The agents killed for one key.
  ghost function Wait(view: View, id: string): seq<nat> {
    if Idle(view, id) then [] else [view[id].value]
  }

  // One key is done, and the remover is free for the rest.
  ghost predicate KeyDone(s: P.State, w: P.State, r: nat, id: string, rest: seq<string>) {
    Tidy(w) && ViewOf(w) == ViewOf(s) - {id} && w.kills == s.kills + Wait(ViewOf(s), id) &&
    w.removers == s.removers[r := P.Remover(rest, P.Free)]
  }

  ghost predicate AtKey(s: P.State, r: nat, id: string, rest: seq<string>) {
    Tidy(s) && r in s.removers && s.removers[r] == P.Remover([id] + rest, P.Free)
  }

  lemma AbsentKey(s: P.State, r: nat, id: string, rest: seq<string>) returns (w: P.State)
    requires AtKey(s, r, id, rest) && id !in s.tasks
    ensures Leads(s, r, w) && KeyDone(s, w, r, id, rest)
  {
    assert ([id] + rest)[1..] == rest;
    w := P.Apply(s, P.Remove(r));
    assert ViewOf(s) - {id} == ViewOf(s);
    assert w.kills + [] == w.kills;
    LeadsToItself(w, r);
    LeadsAfterStep(s, P.Remove(r), r, w);
  }

  // The slot is out of the map and in the remover's hands.
  lemma SlotTaken(s: P.State, r: nat, id: string, rest: seq<string>)
    requires AtKey(s, r, id, rest) && id in s.tasks
    ensures var u := P.Apply(s, P.Remove(r));
            Tidy(u) && ViewOf(u) == ViewOf(s) - {id} && u.kills == s.kills && u.cells == s.cells &&
            u.removers == s.removers[r := P.Remover(rest, P.Holds(s.tasks[id]))]
  {
    assert ([id] + rest)[1..] == rest;
  }

  lemma EmptyKey(s: P.State, r: nat, id: string, rest: seq<string>) returns (w: P.State)
    requires AtKey(s, r, id, rest) && id in s.tasks && s.cells[s.tasks[id]].None?
    ensures Leads(s, r, w) && KeyDone(s, w, r, id, rest)
  {
    SlotTaken(s, r, id, rest);
    var u := P.Apply(s, P.Remove(r));
    w := P.Apply(u, P.ReadCell(r));
    assert ViewOf(w) == ViewOf(u);
    assert w.kills + [] == w.kills;
    LeadsToItself(w, r);
    LeadsAfterStep(u, P.ReadCell(r), r, w);
    LeadsAfterStep(s, P.Remove(r), r, w);
  }

  lemma AgentKilled(u: P.State, r: nat, slot: nat, rest: seq<string>) returns (w: P.State)
    requires Tidy(u) && r in u.removers && u.removers[r] == P.Remover(rest, P.Holds(slot))
    requires slot < |u.cells| && u.cells[slot].Some?
    ensures Leads(u, r, w) && Tidy(w) && ViewOf(w) == ViewOf(u) && w.kills == u.kills + [u.cells[slot].value]
    ensures w.removers == u.removers[r := P.Remover(rest, P.Free)]
  {
    var v := P.Apply(u, P.ReadCell(r));
    w := P.Apply(v, P.Kill(r));
    assert ViewOf(w) == ViewOf(u);
    LeadsToItself(w, r);
    LeadsAfterStep(v, P.Kill(r), r, w);
    LeadsAfterStep(u, P.ReadCell(r), r, w);
  }

  lemma FilledKey(s: P.State, r: nat, id: string, rest: seq<string>) returns (w: P.State)
    requires AtKey(s, r, id, rest) && id in s.tasks && s.cells[s.tasks[id]].Some?
    ensures Leads(s, r, w) && KeyDone(s, w, r, id, rest)
  {
    SlotTaken(s, r, id, rest);
    w := AgentKilled(P.Apply(s, P.Remove(r)), r, s.tasks[id], rest);
    LeadsAfterStep(s, P.Remove(r), r, w);
  }

  lemma {:induction false} WaitsFromTheFront(view: View, id: string, rest: seq<string>)
    ensures Waits(view, [id] + rest) == Wait(view, id) + Waits(view - {id}, rest)
    decreases |rest|
  {
    var keys := [id] + rest;
    if rest == [] {
      assert keys == [id] && keys[..0] == [];
      assert Waits(view, keys[..0]) == [];
    } else {
      var before, last := rest[..|rest| - 1], rest[|rest| - 1];
      assert keys[..|keys| - 1] == [id] + before;
      WaitsFromTheFront(view, id, before);
      assert last in [id] + before <==> last == id || last in before;
      assert Idle(view - {id}, last) <==> last == id || Idle(view, last);
    }
  }

  ghost predicate ClearDone(s: P.State, w: P.State, r: nat, keys: seq<string>) {
    Tidy(w) && ViewOf(w) == ViewOf(s) - Among(keys) && w.kills == s.kills + Waits(ViewOf(s), keys) &&
    w.removers == s.removers[r := P.Remover([], P.Free)]
  }

  lemma RemovedTogether(view: View, id: string, rest: seq<string>)
    ensures (view - {id}) - Among(rest) == view - Among([id] + rest)
  {
    assert Among([id] + rest) == {id} + Among(rest);
  }

  lemma Regrouped(a: seq<nat>, b: seq<nat>, c: seq<nat>)
    ensures (a + b) + c == a + (b + c)
  {
  }

  lemma OneKeyThenTheRest(s: P.State, t: P.State, w: P.State, r: nat, id: string, rest: seq<string>)
    requires KeyDone(s, t, r, id, rest) && ClearDone(t, w, r, rest)
    ensures ClearDone(s, w, r, [id] + rest)
  {
    WaitsFromTheFront(ViewOf(s), id, rest);
    RemovedTogether(ViewOf(s), id, rest);
    Regrouped(s.kills, Wait(ViewOf(s), id), Waits(ViewOf(s) - {id}, rest));
  }

  lemma {:induction false} KeysCleared(s: P.State, r: nat, keys: seq<string>) returns (w: P.State)
    requires Tidy(s) && r in s.removers && s.removers[r] == P.Remover(keys, P.Free)
    ensures Leads(s, r, w) && ClearDone(s, w, r, keys)
    decreases |keys|
  {
    if keys == [] {
      w := s;
      LeadsToItself(s, r);
      assert Among([]) == {} && ViewOf(s) - {} == ViewOf(s) && s.kills + [] == s.kills;
    } else {
      var id, rest := keys[0], keys[1..];
      assert keys == [id] + rest;
      var t: P.State;
      if id !in s.tasks {
        t := AbsentKey(s, r, id, rest);
      } else if s.cells[s.tasks[id]].None? {
        t := EmptyKey(s, r, id, rest);
      } else {
        t := FilledKey(s, r, id, rest);
      }
      w := KeysCleared(t, r, rest);
      LeadsOn(s, r, t, w);
      OneKeyThenTheRest(s, t, w, r, id, rest);
    }
  }

  /**
   A remover ordered to remove any snapshot of keys, left alone,
     takes all of them out of the view and makes the kill calls
   that `Clear` makes, in the same order; it then has nothing left to do.  If the snapshot covers the map,
     the map is empty.
   */
  lemma UninterruptedClear(s: P.State, r: nat, keys: seq<string>) returns (w: P.State)
    requires Tidy(s) && r !in s.removers
    ensures P.Enabled(s, P.Order(r, keys)) && Leads(P.Apply(s, P.Order(r, keys)), r, w)
    ensures ViewOf(w) == ViewOf(s) - Among(keys) && w.kills == s.kills + Waits(ViewOf(s), keys)
    ensures r in w.removers && w.removers[r] == P.Remover([], P.Free)
    ensures (forall id :: id in s.tasks ==> id in keys) ==> ViewOf(w) == map[]
  {
    var t := P.Apply(s, P.Order(r, keys));
    assert ViewOf(t) == ViewOf(s);
    w := KeysCleared(t, r, keys);
    if forall id :: id in s.tasks ==> id in keys {
      assert forall id :: id in ViewOf(s) ==> id in Among(keys);
    }
  }
}
