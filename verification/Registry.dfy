/**
 The agent catalog: database rows, the in-memory cache and the handshake updates written through both.

 A handshake has six optional JSON fields, a row stores each as text that may be missing or corrupt.  How incoming
 configuration options are merged with existing ones, and how catalogs are derived from them, are parameters;
 `RealRules` has the merge of `ConfigOptions` and any derivation that leaves the options themselves alone.
 */
module Registry {
  import opened Wrappers
  import opened ConfigOptions

  datatype Handshake = Handshake(
    agentCapabilities: Option<Value>,
    authMethods: Option<Value>,
    configOptions: Option<Value>,
    availableModes: Option<Value>,
    availableModels: Option<Value>,
    availableCommands: Option<Value>)

  // The text of a column: the encoding of a value, or something that does not parse.
  datatype Raw = Encoded(value: Value) | Corrupt(bytes: string)

  datatype Columns = Columns(
    agentCapabilities: Option<Raw>,
    authMethods: Option<Raw>,
    configOptions: Option<Raw>,
    availableModes: Option<Raw>,
    availableModels: Option<Raw>,
    availableCommands: Option<Raw>)

  // `decodable`: the row's agent type and source are known.
  datatype Row = Row(decodable: bool, columns: Columns)

  datatype Rules = Rules(merge: (Option<Value>, Value) -> Option<Value>, enrich: Handshake -> Handshake)

  // Deriving catalogs does not change the configuration options.
  ghost predicate KeepsOptions(rules: Rules) {
    forall h :: rules.enrich(h).configOptions == h.configOptions
  }

  ghost function RealRules(enrich: Handshake -> Handshake): Rules {
    Rules(MergeConfigOptionValues, enrich)
  }

  function ParseJson(raw: Option<Raw>): Option<Value> {
    if raw.Some? && raw.value.Encoded? then Some(raw.value.value) else None
  }

  function DecodeColumns(c: Columns): Handshake {
    Handshake(ParseJson(c.agentCapabilities), ParseJson(c.authMethods), ParseJson(c.configOptions),
              ParseJson(c.availableModes), ParseJson(c.availableModels), ParseJson(c.availableCommands))
  }

  // A field that is absent from the update leaves its column alone.
  function Column(was: Option<Raw>, update: Option<Value>): Option<Raw> {
    if update.Some? then Some(Encoded(update.value)) else was
  }

  function Overwritten(c: Columns, h: Handshake): Columns {
    Columns(Column(c.agentCapabilities, h.agentCapabilities), Column(c.authMethods, h.authMethods),
            Column(c.configOptions, h.configOptions), Column(c.availableModes, h.availableModes),
            Column(c.availableModels, h.availableModels), Column(c.availableCommands, h.availableCommands))
  }

  // What is written for a snapshot, given the configuration options it is merged with.
  function Prepared(rules: Rules, existing: Option<Value>, snapshot: Handshake): Handshake {
    var merged := if snapshot.configOptions.Some? then rules.merge(existing, snapshot.configOptions.value) else None;
    rules.enrich(if merged.Some? then snapshot.(configOptions := merged) else snapshot)
  }

  function Updated(rules: Rules, row: Row, existing: Option<Value>, snapshot: Handshake): Row {
    row.(columns := Overwritten(row.columns, Prepared(rules, existing, snapshot)))
  }

  function CachedOptions(cache: map<string, Handshake>, id: string): Option<Value> {
    if id in cache then cache[id].configOptions else None
  }

  // ----- The reference: the database alone -----

  ghost function OwnOptions(row: Row): Option<Value> {
    if row.decodable then DecodeColumns(row.columns).configOptions else None
  }

  // An update merged against the row it is written to.
  ghost function FoldStep(rules: Rules, row: Row, snapshot: Handshake): Row {
    Updated(rules, row, OwnOptions(row), snapshot)
  }

  ghost function FoldRow(rules: Rules, row: Row, updates: seq<Handshake>): Row {
    if updates == [] then row
    else FoldStep(rules, FoldRow(rules, row, updates[..|updates| - 1]), updates[|updates| - 1])
  }

  // ----- When merging with something else than the row is the same -----

  // What is written for the options: a merge that makes nothing leaves the incoming value.
  ghost function Effective(rules: Rules, existing: Option<Value>, incoming: Value): Value {
    var merged := rules.merge(existing, incoming);
    if merged.Some? then merged.value else incoming
  }

  lemma OptionsWritten(rules: Rules, row: Row, existing: Option<Value>, snapshot: Handshake)
    requires KeepsOptions(rules) && snapshot.configOptions.Some?
    ensures Updated(rules, row, existing, snapshot).columns.configOptions ==
            Some(Encoded(Effective(rules, existing, snapshot.configOptions.value)))
    ensures Prepared(rules, existing, snapshot) ==
            rules.enrich(snapshot.(configOptions := Some(Effective(rules, existing, snapshot.configOptions.value))))
  {
    var effective := Effective(rules, existing, snapshot.configOptions.value);
    assert snapshot.(configOptions := snapshot.configOptions) == snapshot;
    assert rules.enrich(snapshot.(configOptions := Some(effective))).configOptions.Some?;
  }

  /**
   An update writes the row the fold has if and only if merging with what was read gives the options of merging with
   the row.
   */
  lemma WriteAgreesIff(rules: Rules, row: Row, existing: Option<Value>, snapshot: Handshake)
    requires KeepsOptions(rules)
    ensures Updated(rules, row, existing, snapshot) == FoldStep(rules, row, snapshot) <==>
            (snapshot.configOptions.Some? ==>
               Effective(rules, existing, snapshot.configOptions.value) ==
               Effective(rules, OwnOptions(row), snapshot.configOptions.value))
  {
    if snapshot.configOptions.Some? {
      OptionsWritten(rules, row, existing, snapshot);
      OptionsWritten(rules, row, OwnOptions(row), snapshot);
    }
  }

  // An incoming list of options makes the same list of what was read as of what the row holds.
  ghost predicate MergeAgrees(row: Row, existing: Option<Value>, snapshot: Handshake) {
    snapshot.configOptions.Some? && snapshot.configOptions.value.Options? ==>
      Merged(OptionsOf(existing), snapshot.configOptions.value.options) ==
      Merged(OptionsOf(OwnOptions(row)), snapshot.configOptions.value.options)
  }

  /** With the merge by id, what was read may differ from the row's options as long as the merged lists are the same. */
  lemma RealWriteAgreesIff(enrich: Handshake -> Handshake, row: Row, existing: Option<Value>, snapshot: Handshake)
    requires KeepsOptions(RealRules(enrich))
    ensures Updated(RealRules(enrich), row, existing, snapshot) == FoldStep(RealRules(enrich), row, snapshot) <==>
            MergeAgrees(row, existing, snapshot)
  {
    WriteAgreesIff(RealRules(enrich), row, existing, snapshot);
  }

  /** In terms of the options themselves, for lists without repeated ids. */
  lemma StaleReadAgreesIff(enrich: Handshake -> Handshake, row: Row, read: Value, own: Value, incoming: Value,
      snapshot: Handshake)
    requires KeepsOptions(RealRules(enrich)) && snapshot.configOptions == Some(incoming) && OwnOptions(row) == Some(own)
    requires read.Options? && own.Options? && incoming.Options? && DistinctIds(read.options) && DistinctIds(own.options)
    ensures Updated(RealRules(enrich), row, Some(read), snapshot) == FoldStep(RealRules(enrich), row, snapshot) <==>
            AddIds(Ids(read.options), Ids(incoming.options)) == AddIds(Ids(own.options), Ids(incoming.options)) &&
            forall id :: Latest(incoming.options, id).None? ==> At(read.options, id) == At(own.options, id)
  {
    RealWriteAgreesIff(enrich, row, Some(read), snapshot);
    MergedListsAreEqualIff(read.options, own.options, incoming.options);
  }

  // ----- Field by field -----

  datatype Field =
    | AgentCapabilities
    | AuthMethods
    | ConfigOptions
    | AvailableModes
    | AvailableModels
    | AvailableCommands

  ghost function ValueOf(h: Handshake, f: Field): Option<Value> {
    match f
    case AgentCapabilities => h.agentCapabilities
    case AuthMethods => h.authMethods
    case ConfigOptions => h.configOptions
    case AvailableModes => h.availableModes
    case AvailableModels => h.availableModels
    case AvailableCommands => h.availableCommands
  }

  ghost function TextOf(c: Columns, f: Field): Option<Raw> {
    match f
    case AgentCapabilities => c.agentCapabilities
    case AuthMethods => c.authMethods
    case ConfigOptions => c.configOptions
    case AvailableModes => c.availableModes
    case AvailableModels => c.availableModels
    case AvailableCommands => c.availableCommands
  }

  /**
   A row decodes field by field: each has the value its own column encodes, and none if that is missing or corrupt.
   */
  lemma DecodesFieldByField(c: Columns, f: Field)
    ensures forall v :: ValueOf(DecodeColumns(c), f) == Some(v) <==> TextOf(c, f) == Some(Encoded(v))
  {
  }

  /**
   A write is partial: a field that the prepared handshake carries is written to its own column,
     and so decodes to what was
   written; a field it does not carry keeps its column, and so what that decodes to.
   */
  lemma WritesArePartial(rules: Rules, row: Row, existing: Option<Value>, snapshot: Handshake, f: Field)
    ensures var carried, after := ValueOf(Prepared(rules, existing, snapshot), f),
            Updated(rules, row, existing, snapshot);
            after.decodable == row.decodable &&
            TextOf(after.columns, f) == (if carried.Some? then Some(Encoded(carried.value)) else TextOf(row.columns,
              f)) &&
            ValueOf(DecodeColumns(after.columns), f) ==
            (if carried.Some? then carried else ValueOf(DecodeColumns(row.columns), f))
  {
  }

  ghost predicate Derived(rules: Rules, h: Handshake, f: Field) {
    (f == AvailableModes || f == AvailableModels) && ValueOf(rules.enrich(h), f).Some?
  }

  // Deriving catalogs touches the modes and the models only, and never takes them away.
  ghost predicate OnlyDerives(rules: Rules) {
    forall h, f :: ValueOf(rules.enrich(h), f) == ValueOf(h, f) || Derived(rules, h, f)
  }

  // The fields that are written as they come: neither merged nor derived.
  ghost predicate Plainly(f: Field) {
    f == AgentCapabilities || f == AuthMethods || f == AvailableCommands
  }

  lemma PlainFieldsAreTheSnapshots(rules: Rules, existing: Option<Value>, snapshot: Handshake, f: Field)
    requires OnlyDerives(rules) && Plainly(f)
    ensures ValueOf(Prepared(rules, existing, snapshot), f) == ValueOf(snapshot, f)
  {
    var merged := if snapshot.configOptions.Some? then rules.merge(existing, snapshot.configOptions.value) else None;
    var h := if merged.Some? then snapshot.(configOptions := merged) else snapshot;
    assert ValueOf(h, f) == ValueOf(snapshot, f);
    assert !Derived(rules, h, f);
  }

  // The value of the last of these that carries the field.
  ghost function LastCarried(updates: seq<Handshake>, f: Field): Option<Value> {
    if updates == [] then None
    else
      var last := ValueOf(updates[|updates| - 1], f);
      if last.Some? then last else LastCarried(updates[..|updates| - 1], f)
  }

  lemma CarriedSnoc(updates: seq<Handshake>, h: Handshake, f: Field)
    ensures LastCarried(updates + [h], f) == if ValueOf(h, f).Some? then ValueOf(h, f) else LastCarried(updates, f)
  {
    assert (updates + [h])[..|updates|] == updates;
  }

  datatype Message = Message(id: string, handshake: Handshake)

  ghost function UpdatesFor(messages: seq<Message>, id: string): seq<Handshake> {
    if messages == [] then []
    else
      var last := messages[|messages| - 1];
      UpdatesFor(messages[..|messages| - 1], id) + (if last.id == id then [last.handshake] else [])
  }

  lemma UpdatesSnoc(messages: seq<Message>, m: Message, id: string)
    ensures UpdatesFor(messages + [m], id) == UpdatesFor(messages, id) + (if m.id == id then [m.handshake] else [])
  {
    assert (messages + [m])[..|messages|] == messages;
  }

  lemma FoldSnoc(rules: Rules, row: Row, updates: seq<Handshake>, h: Handshake)
    ensures FoldRow(rules, row, updates + [h]) == FoldStep(rules, FoldRow(rules, row, updates), h)
  {
    assert (updates + [h])[..|updates|] == updates;
  }

  lemma FoldOneMore(rules: Rules, row: Row, queue: seq<Message>, n: nat, id: string)
    requires n < |queue|
    ensures var done := FoldRow(rules, row, UpdatesFor(queue[..n], id));
            FoldRow(rules, row, UpdatesFor(queue[..n + 1], id)) ==
            if queue[n].id == id then FoldStep(rules, done, queue[n].handshake) else done
  {
    var updates := UpdatesFor(queue[..n], id);
    assert queue[..n + 1] == queue[..n] + [queue[n]];
    UpdatesSnoc(queue[..n], queue[n], id);
    FoldSnoc(rules, row, updates, queue[n].handshake);
    assert updates + [] == updates;
  }

  lemma {:induction false} FoldKeepsDecodable(rules: Rules, row: Row, updates: seq<Handshake>)
    ensures FoldRow(rules, row, updates).decodable == row.decodable
  {
    if updates != [] {
      FoldKeepsDecodable(rules, row, updates[..|updates| - 1]);
    }
  }

  // The cache holds exactly the decodable rows, as they decode.
  ghost predicate CoherentAt(db: map<string, Row>, cache: map<string, Handshake>, id: string) {
    (id in cache <==> id in db && db[id].decodable) &&
    (id in cache ==> cache[id] == DecodeColumns(db[id].columns))
  }

  ghost predicate Coherent(db: map<string, Row>, cache: map<string, Handshake>) {
    forall id :: CoherentAt(db, cache, id)
  }

  function DecodeAll(rows: map<string, Row>): map<string, Handshake> {
    map id | id in rows && rows[id].decodable :: DecodeColumns(rows[id].columns)
  }

  /**
   Against a coherent cache, merging with the cache is merging with the row, and writing through keeps the cache
   coherent.
   */
  lemma WriteThroughStep(rules: Rules, db: map<string, Row>, cache: map<string, Handshake>, id: string,
      snapshot: Handshake)
    requires Coherent(db, cache) && id in db
    ensures var row := Updated(rules, db[id], CachedOptions(cache, id), snapshot);
            row == FoldStep(rules, db[id], snapshot) &&
            Coherent(db[id := row], if row.decodable then cache[id := DecodeColumns(row.columns)] else cache)
  {
    var row := Updated(rules, db[id], CachedOptions(cache, id), snapshot);
    var newDb := db[id := row];
    var newCache := if row.decodable then cache[id := DecodeColumns(row.columns)] else cache;
    assert CoherentAt(db, cache, id);
    forall other
      ensures CoherentAt(newDb, newCache, other)
    {
      assert CoherentAt(db, cache, other);
    }
  }

  // Every row is the fold of the messages for it over the row it started as.
  ghost predicate Folded(rules: Rules, base: map<string, Row>, db: map<string, Row>, messages: seq<Message>) {
    db.Keys == base.Keys && forall id :: id in db ==> db[id] == FoldRow(rules, base[id], UpdatesFor(messages, id))
  }

  lemma FoldedStep(rules: Rules, base: map<string, Row>, db: map<string, Row>, queue: seq<Message>, n: nat,
      newDb: map<string, Row>)
    requires n < |queue| && Folded(rules, base, db, queue[..n])
    requires var m := queue[n];
             newDb == if m.id in db then db[m.id := FoldStep(rules, db[m.id], m.handshake)] else db
    ensures Folded(rules, base, newDb, queue[..n + 1])
  {
    forall id | id in newDb
      ensures newDb[id] == FoldRow(rules, base[id], UpdatesFor(queue[..n + 1], id))
    {
      FoldOneMore(rules, base[id], queue, n, id);
    }
  }

  ghost predicate Lists(db: map<string, Row>, rows: seq<(string, Row)>) {
    (forall i :: 0 <= i < |rows| ==> rows[i].0 in db && db[rows[i].0] == rows[i].1) &&
    forall id :: id in db ==> (id, db[id]) in rows
  }

  // How the repository's answer to an update can turn out.
  datatype Outcome = Fine | FailsBefore | FailsAfter

  class AgentRegistry {
    const rules: Rules
    var db: map<string, Row>
    var byId: map<string, Handshake>

    constructor (rules: Rules, db: map<string, Row>)
      ensures this.rules == rules && this.db == db && byId == map[]
    {
      this.rules := rules;
      this.db := db;
      byId := map[];
    }

    /** `listed` is the table in insertion order, or nothing when it could not be read. */
    method Hydrate(listed: Option<seq<(string, Row)>>) returns (ok: bool)
      requires listed.Some? ==> Lists(db, listed.value)
      modifies this`byId
      ensures ok <==> listed.Some?
      ensures if ok then Coherent(db, byId) else byId == old(byId)
    {
      if listed.None? {
        return false;
      }
      var rows := listed.value;
      var loaded: map<string, Handshake> := map[];
      var i := 0;
      while i < |rows|
        invariant 0 <= i <= |rows|
        invariant forall id :: id in loaded ==>
                    id in db && db[id].decodable && loaded[id] == DecodeColumns(db[id].columns)
        invariant forall k :: 0 <= k < i && rows[k].1.decodable ==> rows[k].0 in loaded
      {
        var (id, row) := rows[i];
        if row.decodable {
          loaded := loaded[id := DecodeColumns(row.columns)];
        }
        i := i + 1;
      }
      byId := loaded;
      forall id
        ensures CoherentAt(db, byId, id)
      {
        if id in db {
          assert (id, db[id]) in rows;
        }
      }
      return true;
    }

    method ApplyHandshakeInner(id: string, snapshot: Handshake, outcome: Outcome) returns (ok: bool)
      modifies this
      ensures ok <==> outcome == Fine
      ensures db == if outcome == FailsBefore || id !in old(db) then old(db)
                    else old(db)[id := Updated(rules, old(db)[id], CachedOptions(old(byId), id), snapshot)]
      ensures byId == if ok && id in db && db[id].decodable then old(byId)[id := DecodeColumns(db[id].columns)]
                      else old(byId)
    {
      var update := snapshot;
      if snapshot.configOptions.Some? {
        var existing := if id in byId then byId[id].configOptions else None;
        var merged := rules.merge(existing, snapshot.configOptions.value);
        if merged.Some? {
          update := snapshot.(configOptions := merged);
        }
      }
      update := rules.enrich(update);
      if outcome == FailsBefore {
        return false;
      }
      if id !in db {
        return outcome == Fine;
      }
      var row := db[id].(columns := Overwritten(db[id].columns, update));
      db := db[id := row];
      if outcome == FailsAfter {
        return false;
      }
      if row.decodable {
        byId := byId[id := DecodeColumns(row.columns)];
      }
      return true;
    }

    /** The consumer: it applies the queued messages one after another. */
    method DrainQueue(queue: seq<Message>)
      requires Coherent(db, byId)
      modifies this
      ensures Coherent(db, byId) && Folded(rules, old(db), db, queue)
    {
      var n := 0;
      while n < |queue|
        invariant 0 <= n <= |queue|
        invariant Coherent(db, byId) && Folded(rules, old(db), db, queue[..n])
      {
        var m := queue[n];
        ghost var before := db;
        if m.id in db {
          WriteThroughStep(rules, db, byId, m.id, m.handshake);
        }
        var ok := ApplyHandshakeInner(m.id, m.handshake, Fine);
        FoldedStep(rules, old(db), before, queue, n, db);
        n := n + 1;
      }
      assert queue[..n] == queue;
    }
  }
}
