/**
 The authentication limiter checks first and records later: a request that passes the check stays in flight
 until its response is known, and only a failed one is recorded.  Between the two steps other
 requests for the same key run freely.
 */
module AuthLimit {
  import opened RateLimit

  datatype State = State(table: Table, inflight: multiset<string>, clock: nat)

  datatype Step =
    | Arrive(key: string, at: nat)
    | Succeed(key: string, at: nat)
    | Fail(key: string, at: nat)
    | Sweep(at: nat)

  // At most `k` requests of one key are in flight at a time; the clock never goes back.
  ghost predicate Enabled(cfg: Config, k: nat, s: State, step: Step) {
    s.clock <= step.at &&
    match step
    case Arrive(key, at) => CheckPasses(cfg, s.table, key, at) ==> s.inflight[key] < k
    case Succeed(key, _) => key in s.inflight
    case Fail(key, _) => key in s.inflight
    case Sweep(_) => true
  }

  ghost function Apply(cfg: Config, s: State, step: Step): State {
    match step
    case Arrive(key, at) =>
      State(s.table, if CheckPasses(cfg, s.table, key, at) then s.inflight + multiset{key} else s.inflight, at)
    case Succeed(key, at) => State(s.table, s.inflight - multiset{key}, at)
    case Fail(key, at) => State(Recorded(cfg, s.table, key, at), s.inflight - multiset{key}, at)
    case Sweep(at) => State(Swept(s.table, at), s.inflight, at)
  }

  ghost predicate ValidRun(cfg: Config, k: nat, s: State, steps: seq<Step>)
    decreases |steps|
  {
    steps != [] ==> Enabled(cfg, k, s, steps[0]) && ValidRun(cfg, k, Apply(cfg, s, steps[0]), steps[1..])
  }

  ghost function Run(cfg: Config, s: State, steps: seq<Step>): State
    decreases |steps|
  {
    if steps == [] then s else Run(cfg, Apply(cfg, s, steps[0]), steps[1..])
  }

  const INIT := State(map[], multiset{}, 0)

  /** One request through the middleware, with nothing between its two steps. */
  method Middleware(limiter: RateLimiter, key: string, arrival: nat, success: bool, completion: nat)
      returns (admitted: bool)
    modifies limiter`entries
    ensures admitted <==> CheckPasses(limiter.cfg, old(limiter.entries), key, arrival)
    ensures var outcome := if success then Succeed(key, completion) else Fail(key, completion);
            var steps := if admitted then [Arrive(key, arrival), outcome] else [Arrive(key, arrival)];
            limiter.entries == Run(limiter.cfg, State(old(limiter.entries), multiset{}, arrival), steps).table
  {
    ghost var start := State(limiter.entries, multiset{}, arrival);
    admitted := limiter.Check(key, arrival);
    assert Run(limiter.cfg, start, [Arrive(key, arrival)]).table == limiter.entries;
    if !admitted {
      return;
    }
    ghost var arrived := Apply(limiter.cfg, start, Arrive(key, arrival));
    if !success {
      limiter.RecordAttempt(key, completion);
      assert [Arrive(key, arrival), Fail(key, completion)][1..] == [Fail(key, completion)];
      assert Run(limiter.cfg, arrived, [Fail(key, completion)]).table == limiter.entries;
    } else {
      assert [Arrive(key, arrival), Succeed(key, completion)][1..] == [Succeed(key, completion)];
      assert Run(limiter.cfg, arrived, [Succeed(key, completion)]).table == limiter.entries;
    }
  }

  // ----- The bound -----

  // `max + k - 1`; a limit of 0 lets the first requests of a window through and so counts as 1.
  ghost function Cap(cfg: Config, k: nat): int {
    (if cfg.max == 0 then 1 else cfg.max) + k - 1
  }

  // Once a window is full nobody new gets in, so its count and the requests still in flight are bounded together.
  ghost predicate Bounded(cfg: Config, k: nat, s: State, key: string) {
    s.inflight[key] <= k &&
    (Live(s.table, key, s.clock) && s.table[key].count >= cfg.max ==>
      s.table[key].count + s.inflight[key] <= Cap(cfg, k))
  }

  lemma StepKeepsBound(cfg: Config, k: nat, s: State, step: Step, key: string)
    requires Bounded(cfg, k, s, key) && Enabled(cfg, k, s, step)
    ensures Bounded(cfg, k, Apply(cfg, s, step), key)
  {
  }

  lemma {:induction false} RunKeepsBound(cfg: Config, k: nat, s: State, steps: seq<Step>, key: string)
    requires Bounded(cfg, k, s, key) && ValidRun(cfg, k, s, steps)
    ensures Bounded(cfg, k, Run(cfg, s, steps), key)
    decreases |steps|
  {
    if steps != [] {
      StepKeepsBound(cfg, k, s, steps[0], key);
      RunKeepsBound(cfg, k, Apply(cfg, s, steps[0]), steps[1..], key);
    }
  }

  /**
   In every reachable state, whatever overlaps and however long requests take, the count of a live window stays
   within `max + k - 1`; and if that fits 32 bits, recording the next failure does not wrap.
   */
  lemma CheckThenRecordBound(cfg: Config, k: nat, steps: seq<Step>, key: string, now: nat)
    requires ValidRun(cfg, k, INIT, steps) && Run(cfg, INIT, steps).clock <= now
    ensures var s := Run(cfg, INIT, steps);
            LiveCount(s.table, key, now) <= Cap(cfg, k)
    ensures var s := Run(cfg, INIT, steps);
            key in s.inflight && Cap(cfg, k) < 0x1_0000_0000 ==>
              Increment(LiveCount(s.table, key, now)) == LiveCount(s.table, key, now) + 1
  {
    RunKeepsBound(cfg, k, INIT, steps, key);
  }

  // ----- Refusals are justified -----

  // The failures of `key` recorded in [lo, hi).
  ghost function Fails(steps: seq<Step>, key: string, lo: nat, hi: nat): nat {
    if steps == [] then 0
    else (if steps[0].Fail? && steps[0].key == key &&
      lo <= steps[0].at < hi then 1 else 0) + Fails(steps[1..], key, lo, hi)
  }

  lemma CountsFailuresOfItsWindow(cfg: Config, k: nat, s: State, step: Step, key: string, at: nat)
    requires Begun(cfg, s.table, s.clock) && Enabled(cfg, k, s, step) && step.at <= at
    ensures var u := Apply(cfg, s, step);
            Begun(cfg, u.table, u.clock) &&
            LiveCount(u.table, key, at) <= LiveCount(s.table, key, at) + Fails([step], key, WindowBefore(cfg, at),
              at + 1)
  {
    assert Fails([step][1..], key, WindowBefore(cfg, at), at + 1) == 0;
  }

  lemma {:induction false} ClockGoesOn(cfg: Config, k: nat, s: State, steps: seq<Step>)
    requires ValidRun(cfg, k, s, steps)
    ensures s.clock <= Run(cfg, s, steps).clock
    decreases |steps|
  {
    if steps != [] {
      ClockGoesOn(cfg, k, Apply(cfg, s, steps[0]), steps[1..]);
    }
  }

  lemma {:induction false} CountedFailures(cfg: Config, k: nat, s: State, steps: seq<Step>, key: string, at: nat)
    requires Begun(cfg, s.table, s.clock) && ValidRun(cfg, k, s, steps) && Run(cfg, s, steps).clock <= at
    ensures LiveCount(Run(cfg, s, steps).table, key, at) <=
            LiveCount(s.table, key, at) + Fails(steps, key, WindowBefore(cfg, at), at + 1)
    decreases |steps|
  {
    if steps != [] {
      var u := Apply(cfg, s, steps[0]);
      ClockGoesOn(cfg, k, u, steps[1..]);
      CountsFailuresOfItsWindow(cfg, k, s, steps[0], key, at);
      assert [steps[0]][1..] == [];
      CountedFailures(cfg, k, u, steps[1..], key, at);
    }
  }

  /**
   An arrival is refused only if at least `max` failures of its key were recorded within the window length before it.
   */
  lemma RefusedArrivalsAreJustified(cfg: Config, k: nat, steps: seq<Step>, key: string, at: nat)
    requires ValidRun(cfg, k, INIT, steps) && Run(cfg, INIT, steps).clock <= at
    ensures var s := Run(cfg, INIT, steps);
            Apply(cfg, s, Arrive(key, at)).inflight == s.inflight ==>
              Fails(steps, key, WindowBefore(cfg, at), at + 1) >= cfg.max
  {
    CountedFailures(cfg, k, INIT, steps, key, at);
    var s := Run(cfg, INIT, steps);
    assert (s.inflight + multiset{key})[key] == s.inflight[key] + 1;
  }

  // ----- Requests in flight are those that came in and have not gone out -----

  ghost function CameIn(cfg: Config, s: State, steps: seq<Step>, key: string): nat
    decreases |steps|
  {
    if steps == [] then 0
    else
      (if steps[0].Arrive? && steps[0].key == key && CheckPasses(cfg, s.table, key, steps[0].at) then 1 else 0) +
      CameIn(cfg, Apply(cfg, s, steps[0]), steps[1..], key)
  }

  ghost function WentOut(steps: seq<Step>, key: string): nat {
    if steps == [] then 0
    else (if (steps[0].Succeed? || steps[0].Fail?) && steps[0].key == key then 1 else 0) + WentOut(steps[1..], key)
  }

  /** In every run the requests of a key in flight and those completed are those that passed the check. */
  lemma {:induction false} InflightIsBalanced(cfg: Config, k: nat, s: State, steps: seq<Step>, key: string)
    requires ValidRun(cfg, k, s, steps)
    ensures Run(cfg, s, steps).inflight[key] + WentOut(steps, key) == s.inflight[key] + CameIn(cfg, s, steps, key)
    decreases |steps|
  {
    if steps != [] {
      InflightIsBalanced(cfg, k, Apply(cfg, s, steps[0]), steps[1..], key);
    }
  }

  // ----- Sweeps are unobservable -----

  /** A sweep takes out exactly the entries whose window is over. */
  lemma SweepTakesOutTheExpired(cfg: Config, s: State, at: nat)
    ensures var u := Apply(cfg, s, Sweep(at));
            u.inflight == s.inflight &&
            (forall key :: key in u.table <==> key in s.table && at < s.table[key].resetTime) &&
            forall key :: key in u.table ==> u.table[key] == s.table[key]
  {
  }

  ghost function DropSweeps(steps: seq<Step>): seq<Step> {
    if steps == [] then []
    else if steps[0].Sweep? then DropSweeps(steps[1..])
    else [steps[0]] + DropSweeps(steps[1..])
  }

  // For each arrival, whether it was let in.
  ghost function Decisions(cfg: Config, s: State, steps: seq<Step>): seq<bool>
    decreases |steps|
  {
    if steps == [] then []
    else
      (if steps[0].Arrive? then [CheckPasses(cfg, s.table, steps[0].key, steps[0].at)] else []) +
      Decisions(cfg, Apply(cfg, s, steps[0]), steps[1..])
  }

  ghost predicate Alike(s: State, u: State) {
    SameLive(s.table, u.table, s.clock) && s.inflight == u.inflight && u.clock <= s.clock
  }

  lemma AlikeAfterStep(cfg: Config, k: nat, s: State, u: State, step: Step)
    requires Alike(s, u) && Enabled(cfg, k, s, step) && !step.Sweep?
    ensures Enabled(cfg, k, u, step) && Alike(Apply(cfg, s, step), Apply(cfg, u, step))
    ensures step.Arrive? ==>
              CheckPasses(cfg, s.table, step.key, step.at) == CheckPasses(cfg, u.table, step.key, step.at)
  {
    SameLiveStep(cfg, s.table, u.table, s.clock, Check(step.key, step.at));
    SameLiveStep(cfg, s.table, u.table, s.clock, Record(step.key, step.at));
  }

  lemma {:induction false} SweepSimulation(cfg: Config, k: nat, s: State, u: State, steps: seq<Step>)
    requires Alike(s, u) && ValidRun(cfg, k, s, steps)
    ensures ValidRun(cfg, k, u, DropSweeps(steps))
    ensures Decisions(cfg, s, steps) == Decisions(cfg, u, DropSweeps(steps))
    decreases |steps|
  {
    if steps == [] {
    } else if steps[0].Sweep? {
      SweptMeansTheSame(s.table, u.table, s.clock, steps[0].at);
      SweepSimulation(cfg, k, Apply(cfg, s, steps[0]), u, steps[1..]);
    } else {
      AlikeAfterStep(cfg, k, s, u, steps[0]);
      SweepSimulation(cfg, k, Apply(cfg, s, steps[0]), Apply(cfg, u, steps[0]), steps[1..]);
      assert ([steps[0]] + DropSweeps(steps[1..]))[1..] == DropSweeps(steps[1..]);
    }
  }

  /** Sweeps anywhere in a run let in and keep out the same requests as the run without them. */
  lemma SweepsAreUnobservable(cfg: Config, k: nat, steps: seq<Step>)
    requires ValidRun(cfg, k, INIT, steps)
    ensures ValidRun(cfg, k, INIT, DropSweeps(steps))
    ensures Decisions(cfg, INIT, steps) == Decisions(cfg, INIT, DropSweeps(steps))
  {
    SweepSimulation(cfg, k, INIT, INIT, steps);
  }

  // ----- The bound is reached -----

  ghost predicate Reaches(cfg: Config, k: nat, s: State, u: State) {
    exists steps :: ValidRun(cfg, k, s, steps) && Run(cfg, s, steps) == u
  }

  lemma ReachesAfterStep(cfg: Config, k: nat, s: State, step: Step, u: State)
    requires Enabled(cfg, k, s, step) && Reaches(cfg, k, Apply(cfg, s, step), u)
    ensures Reaches(cfg, k, s, u)
  {
    var steps :| ValidRun(cfg, k, Apply(cfg, s, step), steps) && Run(cfg, Apply(cfg, s, step), steps) == u;
    var all := [step] + steps;
    assert all[1..] == steps;
    assert ValidRun(cfg, k, s, all) && Run(cfg, s, all) == u;
  }

  // `n` recorded failures at time 0; with none recorded yet the key has no entry.
  ghost function Failures(cfg: Config, key: string, n: U32): Table {
    if n == 0 then map[] else map[key := Entry(n, cfg.window)]
  }

  ghost function Crowd(key: string, n: nat): multiset<string> {
    multiset{}[key := n]
  }

  // After `count` failures at time 0, with `n` requests in flight.
  ghost function Stage(cfg: Config, key: string, count: U32, n: nat): State {
    State(Failures(cfg, key, count), Crowd(key, n), 0)
  }

  lemma ReachesItself(cfg: Config, k: nat, s: State)
    ensures Reaches(cfg, k, s, s)
  {
    assert ValidRun(cfg, k, s, []) && Run(cfg, s, []) == s;
  }

  lemma OneFails(cfg: Config, k: nat, key: string, count: nat, n: nat)
    requires cfg.window > 0 && count + 1 < 0x1_0000_0000 && n > 0
    ensures Enabled(cfg, k, Stage(cfg, key, count, n), Fail(key, 0))
    ensures Apply(cfg, Stage(cfg, key, count, n), Fail(key, 0)) == Stage(cfg, key, count + 1, n - 1)
  {
    assert Crowd(key, n) - multiset{key} == Crowd(key, n - 1);
    var t := Failures(cfg, key, count);
    assert LiveCount(t, key, 0) == count && WindowEnd(cfg, t, key, 0) == cfg.window;
    assert Increment(count) == count + 1;
    assert t[key := Entry(count + 1, cfg.window)] == Failures(cfg, key, count + 1);
  }

  lemma OneArrives(cfg: Config, k: nat, key: string, count: U32, n: nat)
    requires (count < cfg.max || count == 0) && n < k
    ensures Enabled(cfg, k, Stage(cfg, key, count, n), Arrive(key, 0))
    ensures Apply(cfg, Stage(cfg, key, count, n), Arrive(key, 0)) == Stage(cfg, key, count, n + 1)
  {
    assert Crowd(key, n) + multiset{key} == Crowd(key, n + 1);
  }

  lemma {:induction false} AllFail(cfg: Config, k: nat, key: string, count: nat, n: nat)
    requires cfg.window > 0 && count + n < 0x1_0000_0000
    ensures Reaches(cfg, k, Stage(cfg, key, count, n), Stage(cfg, key, count + n, 0))
    decreases n
  {
    if n == 0 {
      ReachesItself(cfg, k, Stage(cfg, key, count, 0));
    } else {
      AllFail(cfg, k, key, count + 1, n - 1);
      OneFails(cfg, k, key, count, n);
      ReachesAfterStep(cfg, k, Stage(cfg, key, count, n), Fail(key, 0), Stage(cfg, key, count + n, 0));
    }
  }

  lemma {:induction false} AllArriveThenFail(cfg: Config, k: nat, key: string, count: nat, n: nat)
    requires cfg.window > 0 && count + k < 0x1_0000_0000 && n <= k && (count < cfg.max || count == 0)
    ensures Reaches(cfg, k, Stage(cfg, key, count, n), Stage(cfg, key, count + k, 0))
    decreases k - n
  {
    if n == k {
      AllFail(cfg, k, key, count, k);
    } else {
      AllArriveThenFail(cfg, k, key, count, n + 1);
      OneArrives(cfg, k, key, count, n);
      ReachesAfterStep(cfg, k, Stage(cfg, key, count, n), Arrive(key, 0), Stage(cfg, key, count + k, 0));
    }
  }

  // One request arrives and fails before the next.
  lemma OneAfterAnother(cfg: Config, k: nat, key: string, count: nat, u: State)
    requires cfg.window > 0 && k > 0 && count + 1 < 0x1_0000_0000 && (count < cfg.max || count == 0)
    requires Reaches(cfg, k, Stage(cfg, key, count + 1, 0), u)
    ensures Reaches(cfg, k, Stage(cfg, key, count, 0), u)
  {
    OneArrives(cfg, k, key, count, 0);
    OneFails(cfg, k, key, count, 1);
    ReachesAfterStep(cfg, k, Stage(cfg, key, count, 1), Fail(key, 0), u);
    ReachesAfterStep(cfg, k, Stage(cfg, key, count, 0), Arrive(key, 0), u);
  }

  // Failures one after another bring the count to one below the limit; then `k` requests pass the check together.
  lemma {:induction false} WorstCase(cfg: Config, k: nat, key: string, count: nat)
    requires cfg.window > 0 && k > 0 && Cap(cfg, k) < 0x1_0000_0000 && count <= Cap(cfg, k) - k
    ensures Reaches(cfg, k, Stage(cfg, key, count, 0), Stage(cfg, key, Cap(cfg, k), 0))
    decreases Cap(cfg, k) - k - count
  {
    if count == Cap(cfg, k) - k {
      AllArriveThenFail(cfg, k, key, count, 0);
    } else {
      WorstCase(cfg, k, key, count + 1);
      OneAfterAnother(cfg, k, key, count, Stage(cfg, key, Cap(cfg, k), 0));
    }
  }

  /** The bound is sharp: `max + k - 1` failures do get recorded in one window. */
  lemma CheckThenRecordBoundIsSharp(cfg: Config, k: nat, key: string)
    requires cfg.window > 0 && k > 0 && Cap(cfg, k) < 0x1_0000_0000
    ensures exists u :: Reaches(cfg, k, INIT, u) && LiveCount(u.table, key, u.clock) == Cap(cfg, k)
  {
    WorstCase(cfg, k, key, 0);
    assert Crowd(key, 0) == multiset{};
    assert Stage(cfg, key, 0, 0) == INIT;
    var u := Stage(cfg, key, Cap(cfg, k), 0);
    assert Reaches(cfg, k, INIT, u) && LiveCount(u.table, key, u.clock) == Cap(cfg, k);
  }
}
