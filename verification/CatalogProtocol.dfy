/**
 The catalog under interleaving: senders, the bounded queue, the single consumer, and re-hydration.

 The consumer takes a message, reads the cached options it merges with, writes the row, and then refreshes the cache
 from the row it wrote.  A hydrate reads all rows and replaces the cache later; consumer steps may fall between the two.
 */
module CatalogProtocol {
  import opened Wrappers
  import opened ConfigOptions
  import opened Registry

  const CAPACITY := 256

  datatype Consumer =
    | Idle
    | Received(m: Message)
    | Fetched(m: Message, existing: Option<Value>)
    | Stored(id: string, row: Row)

  // A hydrate that has read the rows; `dirty` are the ids written since.
  datatype Snapshot = Snapshot(rows: map<string, Row>, dirty: set<string>)

  datatype State = State(
    db: map<string, Row>,
    cache: map<string, Handshake>,
    queue: seq<Message>,
    consumer: Consumer,
    hydrates: map<nat, Snapshot>,
    // what has happened so far
    sent: seq<Message>,
    accepted: seq<Message>,
    received: seq<Message>,
    applied: seq<Message>,
    lag: set<string>,      // the cache may be behind the row
    stale: set<string>,    // an update was merged with a cache that may have been behind
    lost: set<string>)     // an update failed before it was written

  datatype Step =
    | Send(m: Message)
    | Receive
    | Fetch
    | Store(outcome: Outcome)
    | Refresh
    | ReadRows(hydrate: nat)
    | ReplaceCache(hydrate: nat)

  ghost predicate Enabled(s: State, step: Step) {
    match step
    case Send(_) => true
    case Receive => s.consumer.Idle? && s.queue != []
    case Fetch => s.consumer.Received?
    case Store(_) => s.consumer.Fetched?
    case Refresh => s.consumer.Stored?
    case ReadRows(h) => h !in s.hydrates
    case ReplaceCache(h) => h in s.hydrates
  }

  ghost function Touched(hydrates: map<nat, Snapshot>, id: string): map<nat, Snapshot> {
    map h | h in hydrates :: Snapshot(hydrates[h].rows, hydrates[h].dirty + {id})
  }

  ghost function Apply(rules: Rules, s: State, step: Step): State
    requires Enabled(s, step)
  {
    match step
    case Send(m) =>
      if |s.queue| < CAPACITY then s.(sent := s.sent + [m], accepted := s.accepted + [m], queue := s.queue + [m])
      else s.(sent := s.sent + [m])
    case Receive => s.(consumer := Received(s.queue[0]), received := s.received + [s.queue[0]], queue := s.queue[1..])
    case Fetch =>
      var m := s.consumer.m;
      s.(consumer := Fetched(m, CachedOptions(s.cache, m.id)),
         stale := if m.handshake.configOptions.Some? && m.id in s.lag then s.stale + {m.id} else s.stale)
    case Store(outcome) =>
      var m := s.consumer.m;
      if outcome == FailsBefore then s.(consumer := Idle, lost := s.lost + {m.id})
      else if m.id !in s.db then s.(consumer := Idle)
      else
        var row := Updated(rules, s.db[m.id], s.consumer.existing, m.handshake);
        var written := s.(db := s.db[m.id := row], applied := s.applied + [m], hydrates := Touched(s.hydrates, m.id));
        if outcome == FailsAfter then written.(consumer := Idle, lag := s.lag + {m.id})
        else written.(consumer := Stored(m.id, row))
    case Refresh =>
      var id, row := s.consumer.id, s.consumer.row;
      s.(consumer := Idle, cache := if row.decodable then s.cache[id := DecodeColumns(row.columns)] else s.cache,
         lag := s.lag - {id})
    case ReadRows(h) => s.(hydrates := s.hydrates[h := Snapshot(s.db, {})])
    case ReplaceCache(h) =>
      s.(cache := DecodeAll(s.hydrates[h].rows), lag := s.hydrates[h].dirty, hydrates := s.hydrates - {h})
  }

  // A new registry: the table is there, the cache is empty, and so lags everywhere until the first hydrate.
  ghost function Init(db: map<string, Row>): State {
    State(db, map[], [], Idle, map[], [], [], [], [], db.Keys, {}, {})
  }

  ghost predicate ValidRun(rules: Rules, s: State, steps: seq<Step>)
    decreases |steps|
  {
    steps != [] ==> Enabled(s, steps[0]) && ValidRun(rules, Apply(rules, s, steps[0]), steps[1..])
  }

  ghost function Run(rules: Rules, s: State, steps: seq<Step>): State
    requires ValidRun(rules, s, steps)
    decreases |steps|
  {
    if steps == [] then s else Run(rules, Apply(rules, s, steps[0]), steps[1..])
  }

  // ----- The invariants -----

  ghost predicate Subsequence(a: seq<Message>, b: seq<Message>) {
    if b == [] then a == []
    else
      Subsequence(a, b[..|b| - 1]) ||
      (a != [] && a[|a| - 1] == b[|b| - 1] && Subsequence(a[..|a| - 1], b[..|b| - 1]))
  }

  // The queue is bounded and first in, first out.
  ghost predicate QueueInv(s: State) {
    |s.queue| <= CAPACITY && s.accepted == s.received + s.queue && Subsequence(s.accepted, s.sent)
  }

  lemma SentOnce(a: seq<Message>, b: seq<Message>, m: Message)
    requires Subsequence(a, b)
    ensures Subsequence(a, b + [m]) && Subsequence(a + [m], b + [m])
  {
    assert (b + [m])[..|b|] == b && (a + [m])[..|a|] == a;
  }

  lemma SendKeepsQueue(rules: Rules, s: State, m: Message)
    requires QueueInv(s)
    ensures QueueInv(Apply(rules, s, Send(m)))
  {
    SentOnce(s.accepted, s.sent, m);
    assert (s.received + s.queue) + [m] == s.received + (s.queue + [m]);
  }

  lemma ReceiveKeepsQueue(rules: Rules, s: State)
    requires QueueInv(s) && Enabled(s, Receive)
    ensures QueueInv(Apply(rules, s, Receive))
  {
    assert s.queue == [s.queue[0]] + s.queue[1..];
    assert (s.received + [s.queue[0]]) + s.queue[1..] == s.received + s.queue;
  }

  lemma QueueStep(rules: Rules, s: State, step: Step)
    requires QueueInv(s) && Enabled(s, step)
    ensures QueueInv(Apply(rules, s, step))
  {
    match step
    case Send(m) => SendKeepsQueue(rules, s, m);
    case Receive => ReceiveKeepsQueue(rules, s);
    case Fetch =>
    case Store(_) =>
    case Refresh =>
    case ReadRows(_) =>
    case ReplaceCache(_) =>
  }

  ghost predicate SnapshotOk(db: map<string, Row>, snap: Snapshot) {
    snap.rows.Keys == db.Keys &&
    forall id :: id in db ==>
      snap.rows[id].decodable == db[id].decodable && (id !in snap.dirty ==> snap.rows[id] == db[id])
  }

  // Outside `lag` the cache is the database, except for the row the consumer has just written.
  ghost predicate CacheCoherent(s: State) {
    (forall id :: id !in s.lag && !(s.consumer.Stored? && s.consumer.id == id) ==> CoherentAt(s.db, s.cache, id)) &&
    (forall id :: id in s.cache ==> id in s.db && s.db[id].decodable) &&
    (s.consumer.Stored? ==> s.consumer.id in s.db && s.db[s.consumer.id] == s.consumer.row)
  }

  // An outstanding snapshot is the database outside its `dirty` ids.
  ghost predicate SnapshotsOk(s: State) {
    forall h :: h in s.hydrates ==> SnapshotOk(s.db, s.hydrates[h])
  }

  ghost predicate CacheInv(s: State) {
    CacheCoherent(s) && SnapshotsOk(s)
  }

  lemma StoreKeepsCoherent(rules: Rules, s: State, outcome: Outcome)
    requires CacheCoherent(s) && Enabled(s, Store(outcome))
    ensures CacheCoherent(Apply(rules, s, Store(outcome)))
  {
    var u := Apply(rules, s, Store(outcome));
    forall id | id !in u.lag && !(u.consumer.Stored? && u.consumer.id == id)
      ensures CoherentAt(u.db, u.cache, id)
    {
      assert CoherentAt(s.db, s.cache, id);
    }
  }

  lemma SnapshotAfterWrite(db: map<string, Row>, snap: Snapshot, id: string, row: Row)
    requires SnapshotOk(db, snap) && id in db && row.decodable == db[id].decodable
    ensures SnapshotOk(db[id := row], Snapshot(snap.rows, snap.dirty + {id}))
  {
  }

  lemma StoreKeepsSnapshots(rules: Rules, s: State, outcome: Outcome)
    requires SnapshotsOk(s) && Enabled(s, Store(outcome))
    ensures SnapshotsOk(Apply(rules, s, Store(outcome)))
  {
    var u := Apply(rules, s, Store(outcome));
    var id := s.consumer.m.id;
    if outcome != FailsBefore && id in s.db {
      var row := Updated(rules, s.db[id], s.consumer.existing, s.consumer.m.handshake);
      forall h | h in s.hydrates
        ensures SnapshotOk(s.db[id := row], Snapshot(s.hydrates[h].rows, s.hydrates[h].dirty + {id}))
      {
        SnapshotAfterWrite(s.db, s.hydrates[h], id, row);
      }
      assert u.db == s.db[id := row] && u.hydrates == Touched(s.hydrates, id);
    }
  }

  lemma RefreshKeepsCache(rules: Rules, s: State)
    requires CacheInv(s) && Enabled(s, Refresh)
    ensures CacheInv(Apply(rules, s, Refresh))
  {
    var u := Apply(rules, s, Refresh);
    forall other | other !in u.lag
      ensures CoherentAt(u.db, u.cache, other)
    {
      assert other != s.consumer.id ==> CoherentAt(s.db, s.cache, other);
    }
    forall h | h in u.hydrates
      ensures SnapshotOk(u.db, u.hydrates[h])
    {
      assert SnapshotOk(s.db, s.hydrates[h]);
    }
  }

  lemma ReplaceKeepsCache(rules: Rules, s: State, h: nat)
    requires CacheInv(s) && Enabled(s, ReplaceCache(h))
    ensures CacheInv(Apply(rules, s, ReplaceCache(h)))
  {
    var u := Apply(rules, s, ReplaceCache(h));
    assert SnapshotOk(s.db, s.hydrates[h]);
    forall k | k in u.hydrates
      ensures SnapshotOk(u.db, u.hydrates[k])
    {
      assert SnapshotOk(s.db, s.hydrates[k]);
    }
  }

  lemma OtherStepsKeepCache(rules: Rules, s: State, step: Step)
    requires CacheInv(s) && Enabled(s, step) && !step.Store? && !step.Refresh? && !step.ReplaceCache?
    ensures CacheInv(Apply(rules, s, step))
  {
    var u := Apply(rules, s, step);
    forall k | k in u.hydrates
      ensures SnapshotOk(u.db, u.hydrates[k])
    {
      if k in s.hydrates {
        assert SnapshotOk(s.db, s.hydrates[k]);
      }
    }
  }

  lemma CacheStep(rules: Rules, s: State, step: Step)
    requires CacheInv(s) && Enabled(s, step)
    ensures CacheInv(Apply(rules, s, step))
  {
    match step
    case Store(outcome) =>
      StoreKeepsCoherent(rules, s, outcome);
      StoreKeepsSnapshots(rules, s, outcome);
    case Refresh => RefreshKeepsCache(rules, s);
    case ReplaceCache(h) => ReplaceKeepsCache(rules, s, h);
    case Send(_) => OtherStepsKeepCache(rules, s, step);
    case Receive => OtherStepsKeepCache(rules, s, step);
    case Fetch => OtherStepsKeepCache(rules, s, step);
    case ReadRows(_) => OtherStepsKeepCache(rules, s, step);
  }

  // What the consumer holds but has not written.
  ghost function Pending(s: State, id: string): seq<Handshake> {
    if (s.consumer.Received? || s.consumer.Fetched?) && s.consumer.m.id == id then [s.consumer.m.handshake] else []
  }

  // This step writes an update of `id` into its row.
  ghost predicate Writes(s: State, step: Step, id: string)
    requires Enabled(s, step)
  {
    step.Store? && step.outcome != FailsBefore && s.consumer.m.id == id && id in s.db
  }

  // This step writes no row.
  ghost predicate Idles(s: State, step: Step)
    requires Enabled(s, step)
  {
    step.Store? ==> step.outcome == FailsBefore || s.consumer.m.id !in s.db
  }

  lemma IdlersKeepRows(rules: Rules, s: State, step: Step)
    requires Enabled(s, step) && Idles(s, step)
    ensures Apply(rules, s, step).db == s.db && Apply(rules, s, step).applied == s.applied
  {
  }

  lemma WritesKeepOtherRows(rules: Rules, s: State, step: Step, id: string)
    requires id in s.db && Enabled(s, step) && !Idles(s, step) && s.consumer.m.id != id
    ensures var u := Apply(rules, s, step);
            id in u.db && u.db[id] == s.db[id] && u.applied == s.applied + [s.consumer.m]
  {
  }

  lemma OthersKeepTheRow(rules: Rules, s: State, step: Step, id: string)
    requires id in s.db && Enabled(s, step) && !Writes(s, step, id)
    ensures var u := Apply(rules, s, step);
            id in u.db && u.db[id] == s.db[id] && UpdatesFor(u.applied, id) == UpdatesFor(s.applied, id)
  {
    if Idles(s, step) {
      IdlersKeepRows(rules, s, step);
    } else {
      WritesKeepOtherRows(rules, s, step, id);
      UpdatesSnoc(s.applied, s.consumer.m, id);
      assert UpdatesFor(s.applied, id) + [] == UpdatesFor(s.applied, id);
    }
  }

  lemma WriteIsUpdated(rules: Rules, s: State, step: Step, id: string)
    requires Enabled(s, step) && Writes(s, step, id)
    ensures var u := Apply(rules, s, step);
            id in u.db && u.db[id] == Updated(rules, s.db[id], s.consumer.existing, s.consumer.m.handshake) &&
            UpdatesFor(u.applied, id) == UpdatesFor(s.applied, id) + [s.consumer.m.handshake]
  {
    UpdatesSnoc(s.applied, s.consumer.m, id);
  }

  // A row stays in the table and stays decodable or not.
  ghost predicate RowKept(base: map<string, Row>, s: State, id: string) {
    (id in s.db <==> id in base) && (id in base ==> s.db[id].decodable == base[id].decodable)
  }

  // Unless it was merged with a cache that may have been behind, it is the fold of what was written to it.
  ghost predicate RowFolded(rules: Rules, base: map<string, Row>, s: State, id: string) {
    id in base && id in s.db && id !in s.stale ==> s.db[id] == FoldRow(rules, base[id], UpdatesFor(s.applied, id))
  }

  // Unless one was lost, every update received is written or in the consumer's hands.
  ghost predicate Accounted(base: map<string, Row>, s: State, id: string) {
    id in base && id !in s.lost ==> UpdatesFor(s.applied, id) + Pending(s, id) == UpdatesFor(s.received, id)
  }

  ghost predicate ReadsOwn(s: State, id: string) {
    s.consumer.Fetched? && s.consumer.m.id == id && id in s.db && id !in s.stale &&
    s.consumer.m.handshake.configOptions.Some? ==>
      s.consumer.existing == OwnOptions(s.db[id])
  }

  ghost predicate RowInv(rules: Rules, base: map<string, Row>, s: State, id: string) {
    RowKept(base, s, id) && RowFolded(rules, base, s, id) && Accounted(base, s, id) && ReadsOwn(s, id)
  }

  lemma TableKeepsItsIds(rules: Rules, s: State, step: Step)
    requires Enabled(s, step)
    ensures Apply(rules, s, step).db.Keys == s.db.Keys
  {
    if !Idles(s, step) {
      assert s.db.Keys + {s.consumer.m.id} == s.db.Keys;
    } else {
      IdlersKeepRows(rules, s, step);
    }
  }

  lemma StepKeepsRowKept(rules: Rules, base: map<string, Row>, s: State, step: Step, id: string)
    requires RowKept(base, s, id) && Enabled(s, step)
    ensures RowKept(base, Apply(rules, s, step), id)
  {
    TableKeepsItsIds(rules, s, step);
    assert id in Apply(rules, s, step).db.Keys <==> id in s.db.Keys;
    if id in s.db {
      if Writes(s, step, id) {
        WriteIsUpdated(rules, s, step, id);
      } else {
        OthersKeepTheRow(rules, s, step, id);
      }
    }
  }

  lemma StaleGrows(rules: Rules, s: State, step: Step)
    requires Enabled(s, step)
    ensures s.stale <= Apply(rules, s, step).stale
  {
  }

  // An update merged with the row's own options, or without options, is written as the fold has it.
  lemma OwnReadAgrees(rules: Rules, row: Row, existing: Option<Value>, snapshot: Handshake)
    requires snapshot.configOptions.Some? ==> existing == OwnOptions(row)
    ensures Updated(rules, row, existing, snapshot) == FoldStep(rules, row, snapshot)
  {
  }

  lemma StepKeepsRowFolded(rules: Rules, base: map<string, Row>, s: State, step: Step, id: string)
    requires RowKept(base, s, id) && RowFolded(rules, base, s, id) && ReadsOwn(s, id) && Enabled(s, step)
    ensures RowFolded(rules, base, Apply(rules, s, step), id)
  {
    StaleGrows(rules, s, step);
    if id in base && id !in s.stale {
      if Writes(s, step, id) {
        WriteIsUpdated(rules, s, step, id);
        OwnReadAgrees(rules, s.db[id], s.consumer.existing, s.consumer.m.handshake);
        FoldSnoc(rules, base[id], UpdatesFor(s.applied, id), s.consumer.m.handshake);
      } else {
        OthersKeepTheRow(rules, s, step, id);
      }
    }
  }

  lemma ReceiveKeepsAccounted(rules: Rules, base: map<string, Row>, s: State, id: string)
    requires Accounted(base, s, id) && Enabled(s, Receive)
    ensures Accounted(base, Apply(rules, s, Receive), id)
  {
    UpdatesSnoc(s.received, s.queue[0], id);
    assert UpdatesFor(s.applied, id) + [] == UpdatesFor(s.applied, id);
  }

  // A store lets go of the update, which is written, lost, or for an id that has no row.
  lemma StoreLetsGo(rules: Rules, s: State, outcome: Outcome, id: string)
    requires Enabled(s, Store(outcome)) && id in s.db
    ensures var u := Apply(rules, s, Store(outcome));
            u.received == s.received && s.lost <= u.lost && Pending(u, id) == [] &&
            (id !in u.lost ==>
               Pending(s, id) == if Writes(s, Store(outcome), id) then [s.consumer.m.handshake] else [])
  {
  }

  lemma NothingAdded(updates: seq<Handshake>)
    ensures updates + [] == updates
  {
  }

  lemma StoreMovesTheUpdate(rules: Rules, s: State, outcome: Outcome, id: string)
    requires Enabled(s, Store(outcome)) && id in s.db && id !in Apply(rules, s, Store(outcome)).lost
    ensures UpdatesFor(Apply(rules, s, Store(outcome)).applied, id) == UpdatesFor(s.applied, id) + Pending(s, id)
  {
    StoreLetsGo(rules, s, outcome, id);
    if Writes(s, Store(outcome), id) {
      WriteIsUpdated(rules, s, Store(outcome), id);
    } else {
      OthersKeepTheRow(rules, s, Store(outcome), id);
      NothingAdded(UpdatesFor(s.applied, id));
    }
  }

  lemma StoreKeepsAccounted(rules: Rules, base: map<string, Row>, s: State, outcome: Outcome, id: string)
    requires RowKept(base, s, id) && Accounted(base, s, id) && Enabled(s, Store(outcome))
    ensures Accounted(base, Apply(rules, s, Store(outcome)), id)
  {
    if id in base && id !in Apply(rules, s, Store(outcome)).lost {
      StoreLetsGo(rules, s, outcome, id);
      StoreMovesTheUpdate(rules, s, outcome, id);
      NothingAdded(UpdatesFor(Apply(rules, s, Store(outcome)).applied, id));
    }
  }

  // Only receiving and storing move an update.
  lemma OtherStepsMoveNoUpdate(rules: Rules, s: State, step: Step, id: string)
    requires Enabled(s, step) && !step.Receive? && !step.Store?
    ensures var u := Apply(rules, s, step);
            u.applied == s.applied && u.received == s.received && u.lost == s.lost && Pending(u, id) == Pending(s, id)
  {
  }

  lemma StepKeepsAccounted(rules: Rules, base: map<string, Row>, s: State, step: Step, id: string)
    requires RowKept(base, s, id) && Accounted(base, s, id) && Enabled(s, step)
    ensures Accounted(base, Apply(rules, s, step), id)
  {
    if step.Receive? {
      ReceiveKeepsAccounted(rules, base, s, id);
    } else if step.Store? {
      StoreKeepsAccounted(rules, base, s, step.outcome, id);
    } else {
      OtherStepsMoveNoUpdate(rules, s, step, id);
    }
  }

  lemma FetchReadsOwn(rules: Rules, s: State, id: string)
    requires CacheInv(s) && Enabled(s, Fetch)
    ensures ReadsOwn(Apply(rules, s, Fetch), id)
  {
    if id !in s.lag {
      assert CoherentAt(s.db, s.cache, id);
    }
  }

  // The consumer alone writes rows and changes what it has read.
  lemma OthersLeaveTheConsumer(rules: Rules, s: State, step: Step)
    requires Enabled(s, step) && (step.Send? || step.ReadRows? || step.ReplaceCache?)
    ensures var u := Apply(rules, s, step);
            u.consumer == s.consumer && u.db == s.db && u.stale == s.stale
  {
  }

  lemma StepKeepsReadsOwn(rules: Rules, s: State, step: Step, id: string)
    requires ReadsOwn(s, id) && CacheInv(s) && Enabled(s, step)
    ensures ReadsOwn(Apply(rules, s, step), id)
  {
    if step.Fetch? {
      FetchReadsOwn(rules, s, id);
    } else if step.Send? || step.ReadRows? || step.ReplaceCache? {
      OthersLeaveTheConsumer(rules, s, step);
    } else {
      assert !Apply(rules, s, step).consumer.Fetched?;
    }
  }

  lemma RowStep(rules: Rules, base: map<string, Row>, s: State, step: Step, id: string)
    requires RowInv(rules, base, s, id) && CacheInv(s) && Enabled(s, step)
    ensures RowInv(rules, base, Apply(rules, s, step), id)
  {
    StepKeepsRowKept(rules, base, s, step, id);
    StepKeepsRowFolded(rules, base, s, step, id);
    StepKeepsAccounted(rules, base, s, step, id);
    StepKeepsReadsOwn(rules, s, step, id);
  }

  lemma {:induction false} RunKeepsInvariants(rules: Rules, base: map<string, Row>, s: State, steps: seq<Step>,
      id: string)
    requires QueueInv(s) && CacheInv(s) && RowInv(rules, base, s, id) && ValidRun(rules, s, steps)
    ensures var u := Run(rules, s, steps); QueueInv(u) && CacheInv(u) && RowInv(rules, base, u, id)
    decreases |steps|
  {
    if steps != [] {
      QueueStep(rules, s, steps[0]);
      CacheStep(rules, s, steps[0]);
      RowStep(rules, base, s, steps[0], id);
      RunKeepsInvariants(rules, base, Apply(rules, s, steps[0]), steps[1..], id);
    }
  }

  lemma InitIsFine(rules: Rules, db: map<string, Row>, id: string)
    ensures QueueInv(Init(db)) && CacheInv(Init(db)) && RowInv(rules, db, Init(db), id)
  {
  }

  lemma RunCons(rules: Rules, s: State, step: Step, rest: seq<Step>)
    requires Enabled(s, step) && ValidRun(rules, Apply(rules, s, step), rest)
    ensures ValidRun(rules, s, [step] + rest)
    ensures Run(rules, s, [step] + rest) == Run(rules, Apply(rules, s, step), rest)
  {
    assert ([step] + rest)[1..] == rest;
  }

  // ----- Theorems about whole runs -----

  /** What was accepted is a subsequence of what was sent, in order, of which at most 256 messages are waiting. */
  lemma AcceptedInOrder(rules: Rules, db: map<string, Row>, steps: seq<Step>)
    requires ValidRun(rules, Init(db), steps)
    ensures var s := Run(rules, Init(db), steps);
            Subsequence(s.accepted, s.sent) && s.accepted == s.received + s.queue && |s.queue| <= 256
  {
    InitIsFine(rules, db, "");
    RunKeepsInvariants(rules, db, Init(db), steps, "");
  }

  /**
   When everything accepted has been consumed, the cached handshake of a decodable row is the fold of the accepted
   messages for it over the row it started as, merged against the database alone.  The exceptions are named: ids whose
   cache lags, ids that were merged while it lagged, and ids with an update lost to a failing write.
   */
  lemma DrainedCacheIsTheFold(rules: Rules, db: map<string, Row>, steps: seq<Step>, id: string)
    requires ValidRun(rules, Init(db), steps)
    requires var s := Run(rules, Init(db), steps); s.queue == [] && s.consumer.Idle?
    requires var s := Run(rules, Init(db), steps); id !in s.lag && id !in s.stale && id !in s.lost
    ensures var s := Run(rules, Init(db), steps);
            (id in s.cache <==> id in db && db[id].decodable) &&
            (id in s.cache ==> s.cache[id] == DecodeColumns(FoldRow(rules, db[id], UpdatesFor(s.accepted, id)).columns))
  {
    InitIsFine(rules, db, id);
    RunKeepsInvariants(rules, db, Init(db), steps, id);
    var s := Run(rules, Init(db), steps);
    assert CoherentAt(s.db, s.cache, id);
    assert s.received + [] == s.received;
    assert UpdatesFor(s.applied, id) + [] == UpdatesFor(s.applied, id);
  }

  // The cache has been filled, and from here on no write fails and no update is written between the two halves of a
  // hydrate.
  ghost predicate Smooth(rules: Rules, s: State, steps: seq<Step>)
    requires ValidRun(rules, s, steps)
    decreases |steps|
  {
    steps != [] ==>
      (steps[0].Store? ==> steps[0].outcome == Fine) &&
      (steps[0].ReplaceCache? ==> s.hydrates[steps[0].hydrate].dirty == {}) &&
      Smooth(rules, Apply(rules, s, steps[0]), steps[1..])
  }

  /** Then the exceptions never arise: only such hydrates and failures make the cache lag. */
  lemma {:induction false} SmoothRunsNeverLag(rules: Rules, s: State, steps: seq<Step>)
    requires ValidRun(rules, s, steps) && Smooth(rules, s, steps) && s.lag == {}
    ensures var u := Run(rules, s, steps); u.lag == {} && u.stale == s.stale && u.lost == s.lost
    decreases |steps|
  {
    if steps != [] {
      SmoothRunsNeverLag(rules, Apply(rules, s, steps[0]), steps[1..]);
    }
  }

  // The registry once the application has started: the first hydrate is over before any message can be sent.
  ghost function Started(rules: Rules, db: map<string, Row>): State {
    Apply(rules, Apply(rules, Init(db), ReadRows(0)), ReplaceCache(0))
  }

  lemma StartedRun(rules: Rules, db: map<string, Row>, rest: seq<Step>)
    requires ValidRun(rules, Started(rules, db), rest)
    ensures var steps := [ReadRows(0)] + ([ReplaceCache(0)] + rest);
            ValidRun(rules, Init(db), steps) && Run(rules, Init(db), steps) == Run(rules, Started(rules, db), rest)
  {
    RunCons(rules, Apply(rules, Init(db), ReadRows(0)), ReplaceCache(0), rest);
    RunCons(rules, Init(db), ReadRows(0), [ReplaceCache(0)] + rest);
  }

  /**
   So in a started registry, while no write fails and none falls inside a later hydrate, a drained run leaves every
   cached handshake the fold of the accepted messages over the row the table began with.
   */
  lemma StartedCacheIsTheFold(rules: Rules, db: map<string, Row>, rest: seq<Step>, id: string)
    requires ValidRun(rules, Started(rules, db), rest) && Smooth(rules, Started(rules, db), rest)
    requires var s := Run(rules, Started(rules, db), rest); s.queue == [] && s.consumer.Idle?
    ensures var s := Run(rules, Started(rules, db), rest);
            (id in s.cache <==> id in db && db[id].decodable) &&
            (id in s.cache ==> s.cache[id] == DecodeColumns(FoldRow(rules, db[id], UpdatesFor(s.accepted, id)).columns))
  {
    StartedRun(rules, db, rest);
    SmoothRunsNeverLag(rules, Started(rules, db), rest);
    DrainedCacheIsTheFold(rules, db, [ReadRows(0)] + ([ReplaceCache(0)] + rest), id);
  }

  // ----- When exactly the row is the fold -----

  // Every such write gives the row it would give if it were merged with the row itself.
  ghost predicate WritesAgree(rules: Rules, s: State, steps: seq<Step>, id: string)
    requires ValidRun(rules, s, steps)
    decreases |steps|
  {
    steps != [] ==>
      (Writes(s, steps[0], id) ==>
         Updated(rules, s.db[id], s.consumer.existing, s.consumer.m.handshake) ==
         FoldStep(rules, s.db[id], s.consumer.m.handshake)) &&
      WritesAgree(rules, Apply(rules, s, steps[0]), steps[1..], id)
  }

  ghost predicate RowIsTheFold(rules: Rules, row: Row, s: State, id: string) {
    id in s.db && s.db[id] == FoldRow(rules, row, UpdatesFor(s.applied, id))
  }

  ghost predicate AlwaysTheFold(rules: Rules, row: Row, s: State, steps: seq<Step>, id: string)
    requires ValidRun(rules, s, steps)
    decreases |steps|
  {
    RowIsTheFold(rules, row, s, id) &&
    (steps != [] ==> AlwaysTheFold(rules, row, Apply(rules, s, steps[0]), steps[1..], id))
  }

  lemma FoldStays(rules: Rules, row: Row, s: State, step: Step, id: string)
    requires RowIsTheFold(rules, row, s, id) && Enabled(s, step)
    ensures RowIsTheFold(rules, row, Apply(rules, s, step), id) <==>
            (Writes(s, step, id) ==>
               Updated(rules, s.db[id], s.consumer.existing, s.consumer.m.handshake) ==
               FoldStep(rules, s.db[id], s.consumer.m.handshake))
  {
    if Writes(s, step, id) {
      WriteIsUpdated(rules, s, step, id);
      FoldSnoc(rules, row, UpdatesFor(s.applied, id), s.consumer.m.handshake);
    } else {
      OthersKeepTheRow(rules, s, step, id);
    }
  }

  lemma {:induction false} FoldIffWritesAgree(rules: Rules, row: Row, s: State, steps: seq<Step>, id: string)
    requires ValidRun(rules, s, steps) && RowIsTheFold(rules, row, s, id)
    ensures AlwaysTheFold(rules, row, s, steps, id) <==> WritesAgree(rules, s, steps, id)
    decreases |steps|
  {
    if steps != [] {
      FoldStays(rules, row, s, steps[0], id);
      if RowIsTheFold(rules, row, Apply(rules, s, steps[0]), id) {
        FoldIffWritesAgree(rules, row, Apply(rules, s, steps[0]), steps[1..], id);
      }
    }
  }

  /**
   For any rules and any run: a row is at every moment the fold of the updates written to it if and only if every write
   gives what merging with the row itself would give.
   */
  lemma RowIsTheFoldIff(rules: Rules, db: map<string, Row>, steps: seq<Step>, id: string)
    requires ValidRun(rules, Init(db), steps) && id in db
    ensures AlwaysTheFold(rules, db[id], Init(db), steps, id) <==> WritesAgree(rules, Init(db), steps, id)
  {
    FoldIffWritesAgree(rules, db[id], Init(db), steps, id);
  }

  // Every update with options is merged with the options that its row holds when it is written.
  ghost predicate ReadsCurrent(rules: Rules, s: State, steps: seq<Step>, id: string)
    requires ValidRun(rules, s, steps)
    decreases |steps|
  {
    steps != [] ==>
      (Writes(s, steps[0], id) && s.consumer.m.handshake.configOptions.Some? ==>
         s.consumer.existing == OwnOptions(s.db[id])) &&
      ReadsCurrent(rules, Apply(rules, s, steps[0]), steps[1..], id)
  }

  /** Under any rules, it is enough that no write uses options other than those its row then holds. */
  lemma {:induction false} CurrentReadsAgree(rules: Rules, s: State, steps: seq<Step>, id: string)
    requires ValidRun(rules, s, steps) && ReadsCurrent(rules, s, steps, id)
    ensures WritesAgree(rules, s, steps, id)
    decreases |steps|
  {
    if steps != [] {
      CurrentReadsAgree(rules, Apply(rules, s, steps[0]), steps[1..], id);
      if Writes(s, steps[0], id) {
        OwnReadAgrees(rules, s.db[id], s.consumer.existing, s.consumer.m.handshake);
      }
    }
  }

  // Every incoming list of options makes the same list of what was read as of what the row holds when it is written.
  ghost predicate MergesAgree(rules: Rules, s: State, steps: seq<Step>, id: string)
    requires ValidRun(rules, s, steps)
    decreases |steps|
  {
    steps != [] ==>
      (Writes(s, steps[0], id) ==> MergeAgrees(s.db[id], s.consumer.existing, s.consumer.m.handshake)) &&
      MergesAgree(rules, Apply(rules, s, steps[0]), steps[1..], id)
  }

  lemma {:induction false} WritesAgreeIffMergesDo(enrich: Handshake -> Handshake, s: State, steps: seq<Step>,
      id: string)
    requires KeepsOptions(RealRules(enrich)) && ValidRun(RealRules(enrich), s, steps)
    ensures WritesAgree(RealRules(enrich), s, steps, id) <==> MergesAgree(RealRules(enrich), s, steps, id)
    decreases |steps|
  {
    if steps != [] {
      WritesAgreeIffMergesDo(enrich, Apply(RealRules(enrich), s, steps[0]), steps[1..], id);
      if Writes(s, steps[0], id) {
        RealWriteAgreesIff(enrich, s.db[id], s.consumer.existing, s.consumer.m.handshake);
      }
    }
  }

  /**
   With the merge by id: in any run a row is at every moment the fold of the updates written to it if and only if, at
   each write of an update with a list of options, merging that list into the options the consumer read makes the same
   list as merging it into those the row then holds.
   */
  lemma RealRowIsTheFoldIff(enrich: Handshake -> Handshake, db: map<string, Row>, steps: seq<Step>, id: string)
    requires KeepsOptions(RealRules(enrich)) && ValidRun(RealRules(enrich), Init(db), steps) && id in db
    ensures AlwaysTheFold(RealRules(enrich), db[id], Init(db), steps, id) <==>
            MergesAgree(RealRules(enrich), Init(db), steps, id)
  {
    RowIsTheFoldIff(RealRules(enrich), db, steps, id);
    WritesAgreeIffMergesDo(enrich, Init(db), steps, id);
  }

  // ----- Field by field -----

  // The column of a plain field: the last value written for it, or what it was at the start.
  ghost predicate PlainColumnOk(row: Row, s: State, id: string, f: Field) {
    id in s.db &&
    var carried := LastCarried(UpdatesFor(s.applied, id), f);
    TextOf(s.db[id].columns, f) == if carried.Some? then Some(Encoded(carried.value)) else TextOf(row.columns, f)
  }

  lemma PlainColumnStep(rules: Rules, row: Row, s: State, step: Step, id: string, f: Field)
    requires OnlyDerives(rules) && Plainly(f) && PlainColumnOk(row, s, id, f) && Enabled(s, step)
    ensures PlainColumnOk(row, Apply(rules, s, step), id, f)
  {
    if Writes(s, step, id) {
      var m := s.consumer.m;
      WriteIsUpdated(rules, s, step, id);
      WritesArePartial(rules, s.db[id], s.consumer.existing, m.handshake, f);
      PlainFieldsAreTheSnapshots(rules, s.consumer.existing, m.handshake, f);
      CarriedSnoc(UpdatesFor(s.applied, id), m.handshake, f);
    } else {
      OthersKeepTheRow(rules, s, step, id);
    }
  }

  lemma {:induction false} PlainColumnRun(rules: Rules, row: Row, s: State, steps: seq<Step>, id: string, f: Field)
    requires OnlyDerives(rules) && Plainly(f) && PlainColumnOk(row, s, id, f) && ValidRun(rules, s, steps)
    ensures PlainColumnOk(row, Run(rules, s, steps), id, f)
    decreases |steps|
  {
    if steps != [] {
      PlainColumnStep(rules, row, s, steps[0], id, f);
      PlainColumnRun(rules, row, Apply(rules, s, steps[0]), steps[1..], id, f);
    }
  }

  /**
   In every reachable state, whatever the cache has missed: agent capabilities,
     authentication methods and commands of a row
   are those of the last update written that carried them, and if none did those the row began with.
   */
  lemma PlainFieldsAreLastWritten(rules: Rules, db: map<string, Row>, steps: seq<Step>, id: string, f: Field)
    requires OnlyDerives(rules) && Plainly(f) && ValidRun(rules, Init(db), steps) && id in db
    ensures var s := Run(rules, Init(db), steps);
            var carried := LastCarried(UpdatesFor(s.applied, id), f);
            id in s.db &&
            TextOf(s.db[id].columns, f) ==
            (if carried.Some? then Some(Encoded(carried.value)) else TextOf(db[id].columns, f)) &&
            ValueOf(DecodeColumns(s.db[id].columns), f) ==
            (if carried.Some? then carried else ValueOf(DecodeColumns(db[id].columns), f))
  {
    PlainColumnRun(rules, db[id], Init(db), steps, id, f);
  }

  // What each update comes to, merged with the row it is written to.
  ghost function AllPrepared(rules: Rules, row: Row, updates: seq<Handshake>): seq<Handshake> {
    if updates == [] then []
    else
      var before, last := updates[..|updates| - 1], updates[|updates| - 1];
      AllPrepared(rules, row, before) + [Prepared(rules, OwnOptions(FoldRow(rules, row, before)), last)]
  }

  /** Every field of a fold, merged and derived ones included, is the last of its values in the prepared updates. */
  lemma {:induction false} FoldFieldByField(rules: Rules, row: Row, updates: seq<Handshake>, f: Field)
    ensures var carried := LastCarried(AllPrepared(rules, row, updates), f);
            TextOf(FoldRow(rules, row, updates).columns, f) ==
            if carried.Some? then Some(Encoded(carried.value)) else TextOf(row.columns, f)
    decreases |updates|
  {
    if updates != [] {
      var before, last := updates[..|updates| - 1], updates[|updates| - 1];
      var done := FoldRow(rules, row, before);
      FoldFieldByField(rules, row, before, f);
      WritesArePartial(rules, done, OwnOptions(done), last, f);
      CarriedSnoc(AllPrepared(rules, row, before), Prepared(rules, OwnOptions(done), last), f);
    }
  }

  /**
   So every field of a drained row that was merged against current options, and of its cached handshake,
     is the last value
   prepared for it, or what the row began with.
   */
  lemma DrainedFieldByField(rules: Rules, db: map<string, Row>, rest: seq<Step>, id: string, f: Field)
    requires ValidRun(rules, Started(rules, db), rest) && Smooth(rules, Started(rules, db), rest)
    requires var s := Run(rules, Started(rules, db), rest); s.queue == [] && s.consumer.Idle?
    ensures var s := Run(rules, Started(rules, db), rest);
            id in s.cache ==>
              id in db &&
              var carried := LastCarried(AllPrepared(rules, db[id], UpdatesFor(s.accepted, id)), f);
              ValueOf(s.cache[id], f) == if carried.Some? then carried else ValueOf(DecodeColumns(db[id].columns), f)
  {
    StartedCacheIsTheFold(rules, db, rest, id);
    var s := Run(rules, Started(rules, db), rest);
    if id in s.cache {
      FoldFieldByField(rules, db[id], UpdatesFor(s.accepted, id), f);
    }
  }

  // ----- The queue drops a message exactly when it is full -----

  lemma SentMessageIsAcceptedIff(rules: Rules, s: State, m: Message)
    ensures var u := Apply(rules, s, Send(m));
            u.sent == s.sent + [m] &&
            (if |s.queue| < 256 then u.queue == s.queue + [m] && u.accepted == s.accepted + [m]
             else u.queue == s.queue && u.accepted == s.accepted)
  {
  }

  // ----- A rehydrate that overlaps an update -----

  ghost predicate NoFailures(steps: seq<Step>) {
    forall step :: step in steps && step.Store? ==> step.outcome == Fine
  }

  ghost predicate Reaches(rules: Rules, s: State, u: State) {
    exists steps :: ValidRun(rules, s, steps) && NoFailures(steps) && Run(rules, s, steps) == u
  }

  lemma ReachesItself(rules: Rules, s: State)
    ensures Reaches(rules, s, s)
  {
    assert ValidRun(rules, s, []) && NoFailures([]) && Run(rules, s, []) == s;
  }

  lemma ReachesAfterStep(rules: Rules, s: State, step: Step, u: State)
    requires Enabled(s, step) && (step.Store? ==> step.outcome == Fine) && Reaches(rules, Apply(rules, s, step), u)
    ensures Reaches(rules, s, u)
  {
    var steps :| ValidRun(rules, Apply(rules, s, step), steps) && NoFailures(steps) &&
      Run(rules, Apply(rules, s, step), steps) == u;
    RunCons(rules, s, step, steps);
    assert NoFailures([step] + steps);
  }

  ghost predicate Resting(s: State) {
    s.consumer.Idle? && s.queue == [] && forall id :: id in s.db ==> s.db[id].decodable
  }

  // A message is sent, consumed, written and cached with nothing in between.
  ghost function Consumed(rules: Rules, s: State, m: Message): State
    requires m.id in s.db
  {
    var row := Updated(rules, s.db[m.id], CachedOptions(s.cache, m.id), m.handshake);
    s.(db := s.db[m.id := row], cache := s.cache[m.id := DecodeColumns(row.columns)],
       sent := s.sent + [m], accepted := s.accepted + [m], received := s.received + [m], applied := s.applied + [m],
       hydrates := Touched(s.hydrates, m.id), lag := s.lag - {m.id},
       stale := if m.handshake.configOptions.Some? && m.id in s.lag then s.stale + {m.id} else s.stale)
  }

  lemma ConsumedFromStored(rules: Rules, s: State, m: Message, u: State)
    requires m.id in s.db && Resting(s) && Reaches(rules, Consumed(rules, s, m), u)
    ensures var row := Updated(rules, s.db[m.id], CachedOptions(s.cache, m.id), m.handshake);
            Reaches(rules, Consumed(rules, s, m).(consumer := Stored(m.id, row), cache := s.cache, lag := s.lag), u)
  {
    var row := Updated(rules, s.db[m.id], CachedOptions(s.cache, m.id), m.handshake);
    var t := Consumed(rules, s, m).(consumer := Stored(m.id, row), cache := s.cache, lag := s.lag);
    assert Apply(rules, t, Refresh) == Consumed(rules, s, m);
    ReachesAfterStep(rules, t, Refresh, u);
  }

  lemma ConsumedFromReceived(rules: Rules, s: State, m: Message, u: State)
    requires m.id in s.db && Resting(s) && Reaches(rules, Consumed(rules, s, m), u)
    ensures Reaches(rules, s.(consumer := Received(m), sent := s.sent + [m], accepted := s.accepted + [m],
                              received := s.received + [m]), u)
  {
    ConsumedFromStored(rules, s, m, u);
    var t := s.(consumer := Received(m), sent := s.sent + [m], accepted := s.accepted + [m],
      received := s.received + [m]);
    var fetched := Apply(rules, t, Fetch);
    ReachesAfterStep(rules, fetched, Store(Fine), u);
    ReachesAfterStep(rules, t, Fetch, u);
  }

  lemma ConsumeAlone(rules: Rules, s: State, m: Message, u: State)
    requires m.id in s.db && Resting(s) && Reaches(rules, Consumed(rules, s, m), u)
    ensures Reaches(rules, s, u)
  {
    ConsumedFromReceived(rules, s, m, u);
    var sent := Apply(rules, s, Send(m));
    assert [] + [m] == [m] && [m][1..] == [];
    assert sent.queue == [m];
    ReachesAfterStep(rules, sent, Receive, u);
    ReachesAfterStep(rules, s, Send(m), u);
  }

  // A rehydrate reads the rows, one update is consumed, the rehydrate replaces the cache, and another update is
  // consumed.
  ghost function Overlapped(rules: Rules, s: State, y: Message, z: Message): State
    requires 1 !in s.hydrates && y.id == z.id && z.id in s.db
  {
    Consumed(rules, Apply(rules, Consumed(rules, Apply(rules, s, ReadRows(1)), y), ReplaceCache(1)), z)
  }

  lemma OverlappedIsReached(rules: Rules, s: State, y: Message, z: Message)
    requires 1 !in s.hydrates && y.id == z.id && z.id in s.db && Resting(s)
    ensures Reaches(rules, s, Overlapped(rules, s, y, z))
  {
    var u := Overlapped(rules, s, y, z);
    var s1 := Apply(rules, s, ReadRows(1));
    var s2 := Consumed(rules, s1, y);
    var s3 := Apply(rules, s2, ReplaceCache(1));
    ReachesItself(rules, u);
    ConsumeAlone(rules, s3, z, u);
    ReachesAfterStep(rules, s2, ReplaceCache(1), u);
    ConsumeAlone(rules, s1, y, u);
    ReachesAfterStep(rules, s, ReadRows(1), u);
  }

  lemma OverlappedCache(rules: Rules, s: State, y: Message)
    requires 1 !in s.hydrates && y.id in s.db && Resting(s)
    ensures var u := Apply(rules, Consumed(rules, Apply(rules, s, ReadRows(1)), y), ReplaceCache(1));
            CachedOptions(u.cache, y.id) == OwnOptions(s.db[y.id]) && Resting(u) &&
            u.lost == s.lost && u.lag == {y.id} && u.accepted == s.accepted + [y] &&
            u.db == s.db[y.id := Updated(rules, s.db[y.id], CachedOptions(s.cache, y.id), y.handshake)]
  {
    var s1 := Apply(rules, s, ReadRows(1));
    var s2 := Consumed(rules, s1, y);
    assert s2.hydrates[1].rows == s.db && s2.hydrates[1].dirty == {} + {y.id};
  }

  // The second update is merged with the options that the row had before the first.
  lemma OverlappedRow(rules: Rules, s: State, y: Message, z: Message)
    requires 1 !in s.hydrates && y.id == z.id && z.id in s.db && Resting(s)
    ensures var once := Updated(rules, s.db[z.id], CachedOptions(s.cache, z.id), y.handshake);
            Overlapped(rules, s, y, z).db == s.db[z.id := Updated(rules, once, OwnOptions(s.db[z.id]), z.handshake)]
    ensures var u := Overlapped(rules, s, y, z);
            Resting(u) && u.lost == s.lost && u.lag == {} && u.accepted == s.accepted + [y] + [z]
  {
    OverlappedCache(rules, s, y);
  }

  ghost function OptionsOnly(options: seq<ConfigOption>): Handshake {
    Handshake(None, None, Some(Options(options, Bare)), None, None, None)
  }

  ghost function RowWith(options: seq<ConfigOption>): Row {
    Row(true, Columns(None, None, Some(Encoded(Options(options, Bare))), None, None, None))
  }

  // What an update with options alone makes of the options of a row.
  lemma OptionsAfterUpdate(enrich: Handshake -> Handshake, row: Row, existing: seq<ConfigOption>,
      incoming: seq<ConfigOption>)
    requires KeepsOptions(RealRules(enrich)) && row.decodable
    ensures var after := Updated(RealRules(enrich), row, Some(Options(existing, Bare)), OptionsOnly(incoming));
            after.decodable && OwnOptions(after) == Some(Options(PutAll(existing, incoming), Bare))
  {
    OptionsWritten(RealRules(enrich), row, Some(Options(existing, Bare)), OptionsOnly(incoming));
  }

  const X := ConfigOption("x", "1")
  const Y := ConfigOption("y", "1")
  const Z := ConfigOption("z", "1")

  lemma PutNew(options: seq<ConfigOption>, option: ConfigOption)
    requires forall i :: 0 <= i < |options| ==> options[i].id != option.id
    ensures PutAll(options, [option]) == options + [option]
  {
    assert [option][..0] == [];
    assert PutAll(options, []) == options;
  }

  // What the two updates make of the row, merged as they are and merged as the fold has it.
  lemma OptionsOfBoth(enrich: Handshake -> Handshake)
    requires KeepsOptions(RealRules(enrich))
    ensures var row := RowWith([X]);
            var once := Updated(RealRules(enrich), row, OwnOptions(row), OptionsOnly([Y]));
            OwnOptions(once) == Some(Options([X, Y], Bare)) &&
            OwnOptions(Updated(RealRules(enrich), once, OwnOptions(row), OptionsOnly([Z]))) ==
              Some(Options([X, Z], Bare)) &&
            OwnOptions(FoldStep(RealRules(enrich), once, OptionsOnly([Z]))) == Some(Options([X, Y, Z], Bare))
  {
    var row := RowWith([X]);
    var once := Updated(RealRules(enrich), row, OwnOptions(row), OptionsOnly([Y]));
    assert OwnOptions(row) == Some(Options([X], Bare));
    PutNew([X], Y);
    PutNew([X], Z);
    PutNew([X, Y], Z);
    assert [X] + [Y] == [X, Y] && [X] + [Z] == [X, Z] && [X, Y] + [Z] == [X, Y, Z];
    OptionsAfterUpdate(enrich, row, [X], [Y]);
    OptionsAfterUpdate(enrich, once, [X], [Z]);
    OptionsAfterUpdate(enrich, once, [X, Y], [Z]);
  }

  lemma FoldOfTwo(rules: Rules, row: Row, y: Message, z: Message)
    requires y.id == z.id
    ensures UpdatesFor([] + [y] + [z], y.id) == [y.handshake, z.handshake]
    ensures FoldRow(rules, row, [y.handshake, z.handshake]) ==
            FoldStep(rules, FoldStep(rules, row, y.handshake), z.handshake)
  {
    UpdatesSnoc([] + [y], z, y.id);
    UpdatesSnoc([], y, y.id);
    FoldSnoc(rules, row, [y.handshake], z.handshake);
    FoldSnoc(rules, row, [], y.handshake);
    assert [] + [y.handshake] == [y.handshake] && [y.handshake] + [z.handshake] == [y.handshake, z.handshake];
  }

  /**
   Under any rules, an update that falls inside a rehydrate: the row after the next update is the fold of the two if and
   only if merging the second with the options from before the first gives what merging it with those after it gives.
   */
  lemma OverlapIsTheFoldIff(rules: Rules, s: State, y: Message, z: Message)
    requires KeepsOptions(rules) && 1 !in s.hydrates && y.id == z.id && z.id in s.db && Resting(s)
    requires CachedOptions(s.cache, z.id) == OwnOptions(s.db[z.id])
    ensures Reaches(rules, s, Overlapped(rules, s, y, z))
    ensures var row := s.db[z.id];
            z.id in Overlapped(rules, s, y, z).db &&
            (Overlapped(rules, s, y, z).db[z.id] == FoldRow(rules, row, [y.handshake, z.handshake]) <==>
             (z.handshake.configOptions.Some? ==>
                Effective(rules, OwnOptions(row), z.handshake.configOptions.value) ==
                Effective(rules, OwnOptions(FoldStep(rules, row, y.handshake)), z.handshake.configOptions.value)))
  {
    OverlappedIsReached(rules, s, y, z);
    OverlappedRow(rules, s, y, z);
    FoldOfTwo(rules, s.db[z.id], y, z);
    WriteAgreesIff(rules, FoldStep(rules, s.db[z.id], y.handshake), OwnOptions(s.db[z.id]), z.handshake);
  }

  // A started registry whose only row has these options.
  lemma StartedWith(rules: Rules, options: seq<ConfigOption>)
    ensures var s := Started(rules, map["a" := RowWith(options)]);
            Resting(s) && s.hydrates == map[] && s.db == map["a" := RowWith(options)] &&
            s.lost == {} && s.accepted == [] &&
            CachedOptions(s.cache, "a") == OwnOptions(RowWith(options))
  {
  }

  /**
   The exceptions are real.  With the merge by id, whatever catalogs are derived: a rehydrate reads the rows, an update
   is written and cached, and the rehydrate puts the older rows back into the cache; the next update is merged with
   those, and the options of the first are lost from the database itself.
   */
  lemma OverlappingRehydrateLosesOptions(enrich: Handshake -> Handshake) returns (db: map<string, Row>, u: State)
    requires KeepsOptions(RealRules(enrich))
    ensures db == map["a" := RowWith([X])] && Reaches(RealRules(enrich), Started(RealRules(enrich), db), u)
    ensures Resting(u) && u.lost == {} && u.lag == {} && "a" in u.db
    ensures UpdatesFor(u.accepted, "a") == [OptionsOnly([Y]), OptionsOnly([Z])]
    ensures OwnOptions(u.db["a"]) == Some(Options([X, Z], Bare))
    ensures OwnOptions(FoldRow(RealRules(enrich), db["a"], UpdatesFor(u.accepted, "a"))) ==
            Some(Options([X, Y, Z], Bare))
  {
    var rules := RealRules(enrich);
    db := map["a" := RowWith([X])];
    var s := Started(rules, db);
    var y, z := Message("a", OptionsOnly([Y])), Message("a", OptionsOnly([Z]));
    StartedWith(rules, [X]);
    OverlappedIsReached(rules, s, y, z);
    OverlappedRow(rules, s, y, z);
    OptionsOfBoth(enrich);
    FoldOfTwo(rules, db["a"], y, z);
    u := Overlapped(rules, s, y, z);
  }
}
