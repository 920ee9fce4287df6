/**
 The fixed-window rate limiter.

 A call is one atomic step that reads the clock and works on one key's entry.  `Live`, `LiveCount`
 and `WindowEnd` say what an entry means at an instant: an expired entry is worth no more than an
 absent one.  The class below is proved against them, and the theorems about whole runs are
 theorems about them.
 */
module RateLimit {
  type U32 = x: int | 0 <= x < 0x1_0000_0000

  datatype Entry = Entry(count: U32, resetTime: nat)

  type Table = map<string, Entry>

  datatype Config = Config(max: U32, window: nat)

  ghost predicate Live(t: Table, key: string, now: nat) {
    key in t && now < t[key].resetTime
  }

  ghost function LiveCount(t: Table, key: string, now: nat): U32 {
    if Live(t, key, now) then t[key].count else 0
  }

  ghost function WindowEnd(cfg: Config, t: Table, key: string, now: nat): nat {
    if Live(t, key, now) then t[key].resetTime else now + cfg.window
  }

  // A check only looks at a live window; with `max == 0` it still passes when there is none.
  ghost predicate CheckPasses(cfg: Config, t: Table, key: string, now: nat) {
    Live(t, key, now) ==> t[key].count < cfg.max
  }

  ghost function Incremented(cfg: Config, t: Table, key: string, now: nat): Table {
    var count := LiveCount(t, key, now);
    t[key := Entry(if count < cfg.max then count + 1 else count, WindowEnd(cfg, t, key, now))]
  }

  // The 32-bit counter of the release build wraps around.
  ghost function Increment(count: U32): U32 {
    (count + 1) % 0x1_0000_0000
  }

  ghost function Recorded(cfg: Config, t: Table, key: string, now: nat): Table {
    t[key := Entry(Increment(LiveCount(t, key, now)), WindowEnd(cfg, t, key, now))]
  }

  ghost function Swept(t: Table, now: nat): Table {
    map key | key in t && Live(t, key, now) :: t[key]
  }

  class RateLimiter {
    const cfg: Config
    var entries: Table

    constructor (max: U32, window: nat)
      ensures cfg == Config(max, window) && entries == map[]
    {
      cfg := Config(max, window);
      entries := map[];
    }

    method Check(key: string, now: nat) returns (ok: bool)
      ensures ok <==> CheckPasses(cfg, entries, key, now)
    {
      if key in entries {
        var entry := entries[key];
        if now < entry.resetTime && entry.count >= cfg.max {
          return false;
        }
      }
      return true;
    }

    method CheckAndIncrement(key: string, now: nat) returns (ok: bool)
      modifies this`entries
      ensures ok <==> LiveCount(old(entries), key, now) < cfg.max
      ensures entries == Incremented(cfg, old(entries), key, now)
    {
      var entry := if key in entries then entries[key] else Entry(0, now + cfg.window);
      if now >= entry.resetTime {
        entry := Entry(0, now + cfg.window);
      }
      if entry.count >= cfg.max {
        entries := entries[key := entry];
        return false;
      }
      entry := entry.(count := entry.count + 1);
      entries := entries[key := entry];
      return true;
    }

    method RecordAttempt(key: string, now: nat)
      modifies this`entries
      ensures entries == Recorded(cfg, old(entries), key, now)
      ensures var live := key in old(entries) && now < old(entries)[key].resetTime;
              key in entries &&
              entries[key].resetTime == (if live then old(entries)[key].resetTime else now + cfg.window) &&
              entries[key].count == (if live then (old(entries)[key].count + 1) % 0x1_0000_0000 else 1)
    {
      var entry := if key in entries then entries[key] else Entry(0, now + cfg.window);
      if now >= entry.resetTime {
        entry := Entry(0, now + cfg.window);
      }
      var count: U32 := if entry.count == 0xFFFF_FFFF then 0 else entry.count + 1;
      entry := entry.(count := count);
      entries := entries[key := entry];
    }

    method Cleanup(now: nat)
      modifies this`entries
      ensures entries == Swept(old(entries), now)
      ensures forall key :: key in entries <==> key in old(entries) && now < old(entries)[key].resetTime
      ensures forall key :: key in entries ==> entries[key] == old(entries)[key]
    {
      entries := map key | key in entries && now < entries[key].resetTime :: entries[key];
    }
  }

  // ----- Runs of calls -----

  datatype Call =
    | Check(key: string, at: nat)
    | CheckAndIncrement(key: string, at: nat)
    | Record(key: string, at: nat)
    | Cleanup(at: nat)

  ghost function Next(cfg: Config, t: Table, c: Call): Table {
    match c
    case Check(_, _) => t
    case CheckAndIncrement(key, at) => Incremented(cfg, t, key, at)
    case Record(key, at) => Recorded(cfg, t, key, at)
    case Cleanup(at) => Swept(t, at)
  }

  // The answers a caller can see: one for each check, none for records and clean-ups.
  ghost function Answer(cfg: Config, t: Table, c: Call): seq<bool> {
    match c
    case Check(key, at) => [CheckPasses(cfg, t, key, at)]
    case CheckAndIncrement(key, at) => [LiveCount(t, key, at) < cfg.max]
    case Record(_, _) => []
    case Cleanup(_) => []
  }

  ghost function Answers(cfg: Config, t: Table, cs: seq<Call>): seq<bool>
    decreases |cs|
  {
    if cs == [] then [] else Answer(cfg, t, cs[0]) + Answers(cfg, Next(cfg, t, cs[0]), cs[1..])
  }

  // The clock never goes back, and never reads less than `start`.
  ghost predicate Monotone(cs: seq<Call>, start: nat) {
    cs != [] ==> start <= cs[0].at && Monotone(cs[1..], cs[0].at)
  }

  // ----- Clean-up is unobservable -----

  ghost function DropCleanups(cs: seq<Call>): seq<Call> {
    if cs == [] then []
    else if cs[0].Cleanup? then DropCleanups(cs[1..])
    else [cs[0]] + DropCleanups(cs[1..])
  }

  // The two tables mean the same at `now`, and so at every later instant.
  ghost predicate SameLive(t: Table, u: Table, now: nat) {
    forall key :: (Live(t, key, now) <==> Live(u, key, now)) && (Live(t, key, now) ==> t[key] == u[key])
  }

  lemma SameLiveStep(cfg: Config, t: Table, u: Table, now: nat, c: Call)
    requires SameLive(t, u, now) && now <= c.at && !c.Cleanup?
    ensures Answer(cfg, t, c) == Answer(cfg, u, c)
    ensures SameLive(Next(cfg, t, c), Next(cfg, u, c), c.at)
  {
    assert forall key :: Live(t, key, c.at) ==> Live(t, key, now) && Live(u, key, c.at);
    assert forall key :: Live(u, key, c.at) ==> Live(u, key, now) && Live(t, key, c.at);
    assert SameLive(t, u, c.at);
  }

  lemma SweptMeansTheSame(t: Table, u: Table, now: nat, at: nat)
    requires SameLive(t, u, now) && now <= at
    ensures SameLive(Swept(t, at), u, at)
  {
    forall key
      ensures Live(Swept(t, at), key, at) <==> Live(u, key, at)
      ensures Live(Swept(t, at), key, at) ==> Swept(t, at)[key] == u[key]
    {
      assert Live(t, key, at) ==> Live(t, key, now);
      assert Live(u, key, at) ==> Live(u, key, now);
    }
  }

  lemma {:induction false} CleanupSimulation(cfg: Config, t: Table, u: Table, cs: seq<Call>, now: nat)
    requires SameLive(t, u, now) && Monotone(cs, now)
    ensures Answers(cfg, t, cs) == Answers(cfg, u, DropCleanups(cs))
    decreases |cs|
  {
    if cs == [] {
    } else if cs[0].Cleanup? {
      SweptMeansTheSame(t, u, now, cs[0].at);
      CleanupSimulation(cfg, Swept(t, cs[0].at), u, cs[1..], cs[0].at);
    } else {
      SameLiveStep(cfg, t, u, now, cs[0]);
      CleanupSimulation(cfg, Next(cfg, t, cs[0]), Next(cfg, u, cs[0]), cs[1..], cs[0].at);
      assert ([cs[0]] + DropCleanups(cs[1..]))[1..] == DropCleanups(cs[1..]);
    }
  }

  /** Whatever table a run starts from, clean-ups inserted anywhere change no answer. */
  lemma CleanupUnobservable(cfg: Config, t: Table, cs: seq<Call>)
    requires Monotone(cs, 0)
    ensures Answers(cfg, t, cs) == Answers(cfg, t, DropCleanups(cs))
  {
    CleanupSimulation(cfg, t, t, cs, 0);
  }

  // ----- The sliding bound -----

  // 1 when the call admits a request for `key` inside [lo, hi).
  ghost function Admits(cfg: Config, t: Table, c: Call, key: string, lo: nat, hi: nat): nat {
    if c.CheckAndIncrement? && c.key == key && lo <= c.at < hi && LiveCount(t, key, c.at) < cfg.max then 1 else 0
  }

  ghost function Admitted(cfg: Config, t: Table, cs: seq<Call>, key: string, lo: nat, hi: nat): nat
    decreases |cs|
  {
    if cs == [] then 0
    else Admits(cfg, t, cs[0], key, lo, hi) + Admitted(cfg, Next(cfg, t, cs[0]), cs[1..], key, lo, hi)
  }

  ghost predicate NoRecords(cs: seq<Call>) {
    forall c :: c in cs ==> !c.Record?
  }

  // A live window opened by `check_and_increment` has admitted its opener and no more than `max`.
  ghost predicate Opened(cfg: Config, t: Table, key: string, now: nat) {
    Live(t, key, now) ==> t[key].count <= cfg.max && (1 <= cfg.max ==> 1 <= t[key].count)
  }

  lemma OpenedStep(cfg: Config, t: Table, c: Call, key: string, now: nat)
    requires Opened(cfg, t, key, now) && now <= c.at && !c.Record?
    ensures Opened(cfg, Next(cfg, t, c), key, c.at)
  {
  }

  // What the live window at `now` can still admit.
  ghost function Room(cfg: Config, t: Table, key: string, now: nat): int {
    if Live(t, key, now) then cfg.max - t[key].count else 0
  }

  // The first instant at which a new window can open.
  ghost function Reopens(t: Table, key: string, now: nat): nat {
    if Live(t, key, now) then t[key].resetTime else now
  }

  // One call either spends room of the current window or opens the next one.
  lemma SpendsOrOpens(cfg: Config, t: Table, c: Call, key: string, lo: nat, hi: nat, now: nat)
    requires Opened(cfg, t, key, now) && now <= c.at && !c.Record?
    ensures var u := Next(cfg, t, c);
            if c.CheckAndIncrement? && c.key == key && !Live(t, key, c.at) then
              Admits(cfg, t, c, key, lo, hi) + Room(cfg, u, key, c.at) <= cfg.max &&
              Reopens(u, key, c.at) >= Reopens(t, key, now) + cfg.window
            else
              Admits(cfg, t, c, key, lo, hi) + Room(cfg, u, key, c.at) <= Room(cfg, t, key, now) &&
              Reopens(u, key, c.at) >= Reopens(t, key, now)
  {
  }

  // Multiplication as repeated addition keeps the induction on the number of windows linear.
  ghost function Times(n: nat, x: nat): nat {
    if n == 0 then 0 else x + Times(n - 1, x)
  }

  lemma {:induction false} TimesIsProduct(n: nat, x: nat)
    ensures Times(n, x) == n * x
  {
    if n > 0 {
      TimesIsProduct(n - 1, x);
      assert n * x == (n - 1) * x + x;
    }
  }

  lemma {:induction false} NothingAfter(cfg: Config, t: Table, cs: seq<Call>, key: string, lo: nat, hi: nat)
    requires Monotone(cs, hi)
    ensures Admitted(cfg, t, cs, key, lo, hi) == 0
    decreases |cs|
  {
    if cs != [] {
      assert cs[1..] != [] ==> hi <= cs[1..][0].at;
      NothingAfter(cfg, Next(cfg, t, cs[0]), cs[1..], key, lo, hi);
    }
  }

  // From `now` on, the requests admitted before `hi` fit the current window and `m` further ones.
  lemma {:induction false} FutureBound(cfg: Config, t: Table, cs: seq<Call>, key: string, lo: nat, hi: nat, now: nat,
      m: nat)
    requires Opened(cfg, t, key, now) && Monotone(cs, now) && NoRecords(cs)
    requires hi <= Reopens(t, key, now) + Times(m, cfg.window)
    ensures Admitted(cfg, t, cs, key, lo, hi) <= Room(cfg, t, key, now) + Times(m, cfg.max)
    decreases |cs|
  {
    if cs != [] {
      var c := cs[0];
      if c.at >= hi {
        NothingAfter(cfg, t, cs, key, lo, hi);
      } else {
        OpenedStep(cfg, t, c, key, now);
        SpendsOrOpens(cfg, t, c, key, lo, hi, now);
        if c.CheckAndIncrement? && c.key == key && !Live(t, key, c.at) {
          assert m > 0;
          FutureBound(cfg, Next(cfg, t, c), cs[1..], key, lo, hi, c.at, m - 1);
        } else {
          FutureBound(cfg, Next(cfg, t, c), cs[1..], key, lo, hi, c.at, m);
        }
      }
    }
  }

  // The most that an interval of `windows` windows admits.  A window of one millisecond opens and ends at one
  // instant, so no interval begins inside one.
  ghost function SlidingCap(cfg: Config, windows: nat): int {
    if cfg.max == 0 || windows == 0 || cfg.window == 0 then 0
    else if cfg.window == 1 then windows * cfg.max
    else (windows + 1) * cfg.max - 1
  }

  lemma {:induction false} SlidingBoundFrom(cfg: Config, t: Table, cs: seq<Call>, key: string, lo: nat, windows: nat,
      now: nat)
    requires Opened(cfg, t, key, now) && Monotone(cs, now) && NoRecords(cs)
    ensures cfg.max == 0 ==> Admitted(cfg, t, cs, key, lo, lo + Times(windows, cfg.window)) == 0
    ensures cfg.max > 0 ==>
              Admitted(cfg, t, cs, key, lo, lo + Times(windows, cfg.window)) <= cfg.max - 1 + Times(windows, cfg.max)
    decreases |cs|
  {
    if cs != [] {
      var c := cs[0];
      OpenedStep(cfg, t, c, key, now);
      if c.at < lo || cfg.max == 0 {
        SlidingBoundFrom(cfg, Next(cfg, t, c), cs[1..], key, lo, windows, c.at);
      } else {
        // The window alive on entry opened with a request of its own, before `lo`.
        FutureBound(cfg, t, cs, key, lo, lo + Times(windows, cfg.window), c.at, windows);
      }
    }
  }

  lemma {:induction false} EmptyInterval(cfg: Config, t: Table, cs: seq<Call>, key: string, lo: nat)
    ensures Admitted(cfg, t, cs, key, lo, lo) == 0
    decreases |cs|
  {
    if cs != [] {
      EmptyInterval(cfg, Next(cfg, t, cs[0]), cs[1..], key, lo);
    }
  }

  // What was opened before `lo` has ended by then.
  lemma {:induction false} ShortWindows(cfg: Config, t: Table, cs: seq<Call>, key: string, lo: nat, windows: nat,
      now: nat)
    requires cfg.window == 1 && Opened(cfg, t, key, now) && !Live(t, key, lo) && Monotone(cs, now) && NoRecords(cs)
    ensures Admitted(cfg, t, cs, key, lo, lo + windows) <= Times(windows, cfg.max)
    decreases |cs|
  {
    if cs != [] {
      var c := cs[0];
      OpenedStep(cfg, t, c, key, now);
      if c.at < lo {
        ShortWindows(cfg, Next(cfg, t, c), cs[1..], key, lo, windows, c.at);
      } else {
        TimesIsProduct(windows, 1);
        FutureBound(cfg, t, cs, key, lo, lo + windows, c.at, windows);
      }
    }
  }

  /**
   In any run of `check`, `check_and_increment` and `cleanup` calls for any keys, the requests admitted for one key in
   an interval of `k` windows number at most `(k+1)*max - 1`, so `2*max - 1` in one window; `k*max` if windows last a
   millisecond.
   */
  lemma SlidingBound(cfg: Config, cs: seq<Call>, key: string, lo: nat, windows: nat)
    requires Monotone(cs, 0) && NoRecords(cs)
    ensures Admitted(cfg, map[], cs, key, lo, lo + windows * cfg.window) <= SlidingCap(cfg, windows)
    ensures cfg.max >= 1 ==> Admitted(cfg, map[], cs, key, lo, lo + cfg.window) <= 2 * cfg.max - 1
  {
    TimesIsProduct(windows, cfg.window);
    TimesIsProduct(windows, cfg.max);
    assert (windows + 1) * cfg.max == windows * cfg.max + cfg.max;
    SlidingBoundFrom(cfg, map[], cs, key, lo, windows, 0);
    SlidingBoundFrom(cfg, map[], cs, key, lo, 1, 0);
    if windows == 0 || cfg.window == 0 {
      assert windows * cfg.window == 0;
      EmptyInterval(cfg, map[], cs, key, lo);
    } else if cfg.window == 1 {
      ShortWindows(cfg, map[], cs, key, lo, windows, 0);
    }
  }

  // ----- Refusals are justified -----

  ghost function After(cfg: Config, t: Table, cs: seq<Call>): Table
    decreases |cs|
  {
    if cs == [] then t else After(cfg, Next(cfg, t, cs[0]), cs[1..])
  }

  ghost predicate EndsBy(cs: seq<Call>, at: nat) {
    forall c :: c in cs ==> c.at <= at
  }

  // No window began after `now`.
  ghost predicate Begun(cfg: Config, t: Table, now: nat) {
    forall key :: key in t ==> t[key].resetTime <= now + cfg.window
  }

  // The first instant later than `at - window`.
  ghost function WindowBefore(cfg: Config, at: nat): nat {
    if at + 1 < cfg.window then 0 else at + 1 - cfg.window
  }

  lemma CountsRequestsOfItsWindow(cfg: Config, t: Table, c: Call, key: string, now: nat, at: nat)
    requires Begun(cfg, t, now) && now <= c.at <= at && !c.Record?
    ensures Begun(cfg, Next(cfg, t, c), c.at)
    ensures LiveCount(Next(cfg, t, c), key, at) <=
            LiveCount(t, key, at) + Admits(cfg, t, c, key, WindowBefore(cfg, at), at + 1)
  {
  }

  lemma {:induction false} CountedFrom(cfg: Config, t: Table, cs: seq<Call>, key: string, now: nat, at: nat)
    requires Begun(cfg, t, now) && Monotone(cs, now) && EndsBy(cs, at) && NoRecords(cs)
    ensures LiveCount(After(cfg, t, cs), key, at) <=
            LiveCount(t, key, at) + Admitted(cfg, t, cs, key, WindowBefore(cfg, at), at + 1)
    decreases |cs|
  {
    if cs != [] {
      assert cs[0] in cs;
      CountsRequestsOfItsWindow(cfg, t, cs[0], key, now, at);
      CountedFrom(cfg, Next(cfg, t, cs[0]), cs[1..], key, cs[0].at, at);
    }
  }

  /**
   A request of `check_and_increment` is refused only if at least `max` requests of its key were admitted within the
   window length before it, and a `check` only then too.
   */
  lemma RefusalsAreJustified(cfg: Config, cs: seq<Call>, key: string, at: nat)
    requires Monotone(cs, 0) && EndsBy(cs, at) && NoRecords(cs)
    ensures var t := After(cfg, map[], cs);
            Answer(cfg, t, CheckAndIncrement(key, at)) == [false] || Answer(cfg, t, Check(key, at)) == [false] ==>
              Admitted(cfg, map[], cs, key, WindowBefore(cfg, at), at + 1) >= cfg.max
  {
    CountedFrom(cfg, map[], cs, key, 0, at);
  }

  // ----- The sliding bound is reached -----

  ghost function BurstThen(key: string, at: nat, n: nat, rest: seq<Call>): seq<Call> {
    if n == 0 then rest else [CheckAndIncrement(key, at)] + BurstThen(key, at, n - 1, rest)
  }

  // A request with room in its window is counted there, and the window stays.
  lemma OneAdmitted(cfg: Config, t: Table, key: string, at: nat)
    requires LiveCount(t, key, at) < cfg.max && cfg.window > 0
    ensures var u := Incremented(cfg, t, key, at);
            u == t[key := Entry(LiveCount(t, key, at) + 1, WindowEnd(cfg, t, key, at))] &&
            LiveCount(u, key, at) == LiveCount(t, key, at) + 1 && WindowEnd(cfg, u, key, at) ==
              WindowEnd(cfg, t, key, at)
  {
  }

  lemma SetTwice(t: Table, key: string, first: Entry, second: Entry)
    ensures t[key := first][key := second] == t[key := second]
  {
  }

  // `n` requests at one instant with room for all of them are all admitted.
  lemma {:induction false} BurstAdmits(cfg: Config, t: Table, key: string, at: nat, n: nat, rest: seq<Call>, lo: nat,
      hi: nat)
    requires LiveCount(t, key, at) + n <= cfg.max && lo <= at < hi && cfg.window > 0
    ensures n > 0 ==>
              var u := t[key := Entry(LiveCount(t, key, at) + n, WindowEnd(cfg, t, key, at))];
              Admitted(cfg, t, BurstThen(key, at, n, rest), key, lo, hi) == n + Admitted(cfg, u, rest, key, lo, hi)
    decreases n
  {
    if n > 0 {
      var cs := BurstThen(key, at, n, rest);
      assert cs[1..] == BurstThen(key, at, n - 1, rest);
      var next := Incremented(cfg, t, key, at);
      OneAdmitted(cfg, t, key, at);
      BurstAdmits(cfg, next, key, at, n - 1, rest, lo, hi);
      SetTwice(t, key, Entry(LiveCount(t, key, at) + 1, WindowEnd(cfg, t, key, at)),
               Entry(LiveCount(t, key, at) + n, WindowEnd(cfg, t, key, at)));
    }
  }

  lemma {:induction false} BurstIsMonotone(key: string, at: nat, n: nat, rest: seq<Call>, start: nat)
    requires start <= at && Monotone(rest, at)
    ensures Monotone(BurstThen(key, at, n, rest), start)
    ensures NoRecords(rest) ==> NoRecords(BurstThen(key, at, n, rest))
  {
    if n > 0 {
      BurstIsMonotone(key, at, n - 1, rest, at);
      assert BurstThen(key, at, n, rest)[1..] == BurstThen(key, at, n - 1, rest);
    }
  }

  // `max` requests at the opening of each of `n` windows, the first of which opens at `at`.
  ghost function Train(cfg: Config, key: string, at: nat, n: nat): seq<Call>
    decreases n
  {
    if n == 0 then [] else BurstThen(key, at, cfg.max, Train(cfg, key, at + cfg.window, n - 1))
  }

  lemma {:induction false} TrainAdmits(cfg: Config, t: Table, key: string, at: nat, n: nat, lo: nat, hi: nat)
    requires cfg.max >= 1 && cfg.window > 0 && !Live(t, key, at) && lo <= at
    requires n > 0 ==> at + Times(n - 1, cfg.window) < hi
    ensures Admitted(cfg, t, Train(cfg, key, at, n), key, lo, hi) == Times(n, cfg.max)
    decreases n
  {
    if n > 0 {
      BurstAdmits(cfg, t, key, at, cfg.max, Train(cfg, key, at + cfg.window, n - 1), lo, hi);
      TrainAdmits(cfg, t[key := Entry(cfg.max, at + cfg.window)], key, at + cfg.window, n - 1, lo, hi);
    }
  }

  lemma {:induction false} TrainIsMonotone(cfg: Config, key: string, at: nat, n: nat, start: nat)
    requires start <= at
    ensures Monotone(Train(cfg, key, at, n), start) && NoRecords(Train(cfg, key, at, n))
    decreases n
  {
    if n > 0 {
      TrainIsMonotone(cfg, key, at + cfg.window, n - 1, at);
      BurstIsMonotone(key, at, cfg.max, Train(cfg, key, at + cfg.window, n - 1), start);
    }
  }

  // The rest of the room of a window used at its last instant, then every later window filled as it opens.
  ghost function WorstRest(cfg: Config, key: string, windows: nat): seq<Call>
    requires cfg.max >= 1 && cfg.window >= 2
  {
    BurstThen(key, cfg.window - 1, cfg.max - 1, Train(cfg, key, cfg.window, windows))
  }

  // One request opens the window, and that run follows.
  ghost function WorstRun(cfg: Config, key: string, windows: nat): seq<Call>
    requires cfg.max >= 1 && cfg.window >= 2
  {
    BurstThen(key, 0, 1, WorstRest(cfg, key, windows))
  }

  lemma WorstRunIsMonotone(cfg: Config, key: string, windows: nat)
    requires cfg.max >= 1 && cfg.window >= 2
    ensures Monotone(WorstRun(cfg, key, windows), 0) && NoRecords(WorstRun(cfg, key, windows))
  {
    TrainIsMonotone(cfg, key, cfg.window, windows, cfg.window - 1);
    BurstIsMonotone(key, cfg.window - 1, cfg.max - 1, Train(cfg, key, cfg.window, windows), 0);
    BurstIsMonotone(key, 0, 1, WorstRest(cfg, key, windows), 0);
  }

  // Once the window is open: the rest of its room, and all of the later windows.
  lemma WorstRestAdmits(cfg: Config, key: string, windows: nat)
    requires cfg.max >= 1 && cfg.window >= 2 && windows >= 1
    ensures var lo := cfg.window - 1;
            Admitted(cfg, map[key := Entry(1, cfg.window)], WorstRest(cfg, key, windows), key,
                     lo, lo + Times(windows, cfg.window)) == cfg.max - 1 + Times(windows, cfg.max)
  {
    var lo := cfg.window - 1;
    var hi := lo + Times(windows, cfg.window);
    var first: Table := map[key := Entry(1, cfg.window)];
    var filled: Table := map[key := Entry(cfg.max, cfg.window)];
    assert first[key := Entry(cfg.max, cfg.window)] == filled;
    BurstAdmits(cfg, first, key, lo, cfg.max - 1, Train(cfg, key, cfg.window, windows), lo, hi);
    TrainAdmits(cfg, filled, key, cfg.window, windows, lo, hi);
  }

  lemma WorstRunAdmits(cfg: Config, key: string, windows: nat)
    requires cfg.max >= 1 && cfg.window >= 2 && windows >= 1
    ensures var lo := cfg.window - 1;
            Admitted(cfg, map[], WorstRun(cfg, key, windows), key, lo, lo + Times(windows, cfg.window)) ==
            cfg.max - 1 + Times(windows, cfg.max)
  {
    var rest := WorstRest(cfg, key, windows);
    assert BurstThen(key, 0, 0, rest) == rest;
    assert WorstRun(cfg, key, windows) == [CheckAndIncrement(key, 0)] + rest;
    assert WorstRun(cfg, key, windows)[1..] == rest;
    assert Incremented(cfg, map[], key, 0) == map[key := Entry(1, cfg.window)];
    WorstRestAdmits(cfg, key, windows);
  }

  /** The bound is sharp for every configuration: some run admits exactly that many requests within `k` windows. */
  lemma SlidingBoundIsSharp(cfg: Config, key: string, windows: nat) returns (cs: seq<Call>, lo: nat)
    ensures Monotone(cs, 0) && NoRecords(cs)
    ensures Admitted(cfg, map[], cs, key, lo, lo + windows * cfg.window) == SlidingCap(cfg, windows)
  {
    TimesIsProduct(windows, cfg.window);
    TimesIsProduct(windows, cfg.max);
    if cfg.max == 0 || windows == 0 || cfg.window == 0 {
      cs, lo := [], 0;
    } else if cfg.window == 1 {
      // With windows of a millisecond every one is filled when it opens.
      TimesIsProduct(windows - 1, 1);
      TrainIsMonotone(cfg, key, 0, windows, 0);
      TrainAdmits(cfg, map[], key, 0, windows, 0, windows);
      cs, lo := Train(cfg, key, 0, windows), 0;
    } else {
      assert (windows + 1) * cfg.max == windows * cfg.max + cfg.max;
      WorstRunIsMonotone(cfg, key, windows);
      WorstRunAdmits(cfg, key, windows);
      cs, lo := WorstRun(cfg, key, windows), cfg.window - 1;
    }
  }
}
