/**
 The token service under interleaving.

 `verify` looks the blacklist up without the secret lock and reads the secret later under the read lock.
 `blacklist_token` reads the secret under the read lock, may read the clock, and inserts into the blacklist without it.
 `rotate_secret` holds the write lock while it replaces the secret and then clears the blacklist entry by entry.
 `cleanup_blacklist` drops entries, one at a time, whose expiry is not after the clock.
 */
module JwtProtocol {
  import opened Wrappers
  import opened Jwt

  datatype Thread =
    | Stamped(claims: Claims)                     // sign: has read the clock
    | Looked(token: Token, revokedBefore: bool)   // verify: passed the blacklist lookup
    | Extracted(token: Token, decoded: Option<nat>) // blacklist_token: has tried to decode
    | Timed(token: Token, expiry: nat)            // blacklist_token: knows the expiry to store

  // An accepted verification: under which secret, when, whether the token had already been revoked when the
  // lookup ran, and when its blacklist entry was last pruned.
  datatype Acceptance = Acceptance(token: Token, secret: nat, at: nat, revokedBefore: bool, pruned: Option<nat>)

  datatype State = State(
    secret: nat,
    rotating: Option<set<Hash>>,   // the write lock is held; these entries are still to be cleared
    blacklist: map<Hash, nat>,
    threads: map<nat, Thread>,
    clock: nat,
    // what has happened so far
    issued: set<Token>,
    revoked: set<Token>,           // `blacklist_token` has returned
    lastPrune: map<Hash, nat>,
    accepted: seq<Acceptance>)

  datatype Step =
    | Tick(now: nat)
    | Stamp(id: nat, userId: string, username: string)
    | Issue(id: nat)
    | Lookup(id: nat, token: Token)
    | Read(id: nat)
    | Extract(id: nat, token: Token)
    | FallBack(id: nat)
    | Insert(id: nat)
    | Swap
    | ClearOne(hash: Hash)
    | Release
    | Prune(hash: Hash)

  // Nobody holds a token signed with a secret that is not yet in use.
  ghost predicate Known(s: State, token: Token) {
    token.Signed? ==> token.secret <= s.secret
  }

  ghost predicate Enabled(s: State, step: Step) {
    match step
    case Tick(now) => s.clock <= now
    case Stamp(id, _, _) => id !in s.threads
    case Issue(id) => id in s.threads && s.threads[id].Stamped? && s.rotating.None?
    case Lookup(id, token) => id !in s.threads
    case Read(id) => id in s.threads && s.threads[id].Looked? && s.rotating.None?
    case Extract(id, token) => id !in s.threads && Known(s, token) && s.rotating.None?
    case FallBack(id) => id in s.threads && s.threads[id].Extracted? && s.threads[id].decoded.None?
    case Insert(id) =>
      id in s.threads && (s.threads[id].Timed? || (s.threads[id].Extracted? && s.threads[id].decoded.Some?))
    case Swap => s.rotating.None?
    case ClearOne(hash) => s.rotating.Some? && hash in s.blacklist
    case Release => s.rotating == Some({})
    case Prune(hash) => hash in s.blacklist && s.blacklist[hash] <= s.clock
  }

  ghost function Apply(s: State, step: Step, leeway: nat): State
    requires Enabled(s, step)
  {
    match step
    case Tick(now) => s.(clock := now)
    case Stamp(id, userId, username) => s.(threads := s.threads[id := Stamped(NewClaims(userId, username, s.clock))])
    case Issue(id) =>
      s.(issued := s.issued + {Signed(s.secret, s.threads[id].claims)}, threads := s.threads - {id})
    case Lookup(id, token) =>
      if TokenHash(token) in s.blacklist then s
      else s.(threads := s.threads[id := Looked(token, token in s.revoked)])
    case Read(id) =>
      var t := s.threads[id];
      var done := s.(threads := s.threads - {id});
      if Decode(t.token, s.secret, s.clock, leeway).Ok? then
        var hash := TokenHash(t.token);
        var pruned := if hash in s.lastPrune then Some(s.lastPrune[hash]) else None;
        done.(accepted := s.accepted + [Acceptance(t.token, s.secret, s.clock, t.revokedBefore, pruned)])
      else done
    case Extract(id, token) => s.(threads := s.threads[id := Extracted(token, ExtractExpiry(token, s.secret))])
    case FallBack(id) => s.(threads := s.threads[id := Timed(s.threads[id].token, RecordedExpiry(None, s.clock))])
    case Insert(id) =>
      var t := s.threads[id];
      var expiry := if t.Timed? then t.expiry else t.decoded.value;
      s.(blacklist := s.blacklist[TokenHash(t.token) := expiry],
         revoked := s.revoked + {t.token}, threads := s.threads - {id})
    case Swap => s.(secret := s.secret + 1, rotating := Some(s.blacklist.Keys))
    case ClearOne(hash) => s.(blacklist := s.blacklist - {hash}, rotating := Some(s.rotating.value - {hash}))
    case Release => s.(rotating := None)
    case Prune(hash) =>
      s.(blacklist := s.blacklist - {hash}, lastPrune := s.lastPrune[hash := s.clock],
         rotating := if s.rotating.Some? then Some(s.rotating.value - {hash}) else None)
  }

  // A service starts with its clock running and, when its secret was loaded rather than generated, with
  // tokens of an earlier process that are no older than the clock allows.
  ghost predicate Init(s: State) {
    s.rotating.None? && s.blacklist == map[] && s.threads == map[] && s.revoked == {} &&
    s.lastPrune == map[] && s.accepted == [] &&
    forall t :: t in s.issued ==> Genuine(t, s.secret) && t.claims.exp <= s.clock + TOKEN_EXPIRY
  }

  ghost predicate ValidRun(s: State, steps: seq<Step>, leeway: nat)
    decreases |steps|
  {
    steps != [] ==> Enabled(s, steps[0]) && ValidRun(Apply(s, steps[0], leeway), steps[1..], leeway)
  }

  ghost function Run(s: State, steps: seq<Step>, leeway: nat): State
    requires ValidRun(s, steps, leeway)
    decreases |steps|
  {
    if steps == [] then s else Run(Apply(s, steps[0], leeway), steps[1..], leeway)
  }

  lemma RunCons(s: State, step: Step, rest: seq<Step>, leeway: nat)
    requires Enabled(s, step) && ValidRun(Apply(s, step, leeway), rest, leeway)
    ensures ValidRun(s, [step] + rest, leeway)
    ensures Run(s, [step] + rest, leeway) == Run(Apply(s, step, leeway), rest, leeway)
  {
    assert ([step] + rest)[1..] == rest;
  }

  // ----- The invariant -----

  // A revoked token cannot have been signed with the secret a rotation has just put in place.
  ghost predicate Settled(s: State, token: Token) {
    token.Signed? ==> token.secret <= s.secret && (s.rotating.Some? ==> token.secret < s.secret)
  }

  // The token's entry is gone from the blacklist because it was pruned at or after its expiry.
  ghost predicate PrunedLate(s: State, token: Token)
    requires token.Signed?
  {
    var hash := TokenHash(token);
    hash in s.lastPrune && token.claims.exp <= s.lastPrune[hash] <= s.clock
  }

  // What a revoked token can rely on.
  ghost predicate RevokedOk(s: State, token: Token) {
    var hash := TokenHash(token);
    Settled(s, token) &&
    (Genuine(token, s.secret) ==>
       (hash in s.blacklist && s.blacklist[hash] == token.claims.exp) || (hash !in s.blacklist && PrunedLate(s, token)))
  }

  // The stored expiry is never before that of a token the service issued.
  ghost predicate CoversIssued(s: State, token: Token, expiry: nat) {
    token in s.issued ==> token.Signed? && token.claims.exp <= expiry
  }

  ghost predicate ThreadOk(s: State, t: Thread) {
    match t
    case Stamped(claims) => Addressed(claims) && claims.exp <= s.clock + TOKEN_EXPIRY
    case Looked(token, revokedBefore) =>
      revokedBefore ==> Settled(s, token) && (Genuine(token, s.secret) ==> PrunedLate(s, token))
    case Extracted(token, decoded) =>
      Settled(s, token) &&
      (if decoded.Some? then token.Signed? && Addressed(token.claims) && decoded.value == token.claims.exp
       else !Genuine(token, s.secret))
    case Timed(token, expiry) => Settled(s, token) && !Genuine(token, s.secret) && CoversIssued(s, token, expiry)
  }

  ghost predicate AcceptanceOk(a: Acceptance, leeway: nat) {
    Genuine(a.token, a.secret) && a.at <= a.token.claims.exp + leeway &&
    (a.revokedBefore ==> a.pruned.Some? && a.token.claims.exp <= a.pruned.value <= a.at)
  }

  ghost predicate IssuedOk(s: State, token: Token) {
    token.Signed? && Addressed(token.claims) && token.claims.exp <= s.clock + TOKEN_EXPIRY && Settled(s, token)
  }

  ghost predicate Inv(s: State, leeway: nat) {
    (forall t :: t in s.revoked ==> RevokedOk(s, t)) &&
    (forall h :: h in s.blacklist ==> h.token in s.revoked && CoversIssued(s, h.token, s.blacklist[h])) &&
    (forall id :: id in s.threads ==> ThreadOk(s, s.threads[id])) &&
    (forall t :: t in s.issued ==> IssuedOk(s, t)) &&
    (forall i :: 0 <= i < |s.accepted| ==> AcceptanceOk(s.accepted[i], leeway))
  }

  lemma TickKeepsInv(s: State, step: Step, leeway: nat)
    requires Inv(s, leeway) && Enabled(s, step) && step.Tick?
    ensures Inv(Apply(s, step, leeway), leeway)
  {
  }

  lemma StampKeepsInv(s: State, step: Step, leeway: nat)
    requires Inv(s, leeway) && Enabled(s, step) && step.Stamp?
    ensures Inv(Apply(s, step, leeway), leeway)
  {
  }

  lemma IssueKeepsInv(s: State, step: Step, leeway: nat)
    requires Inv(s, leeway) && Enabled(s, step) && step.Issue?
    ensures Inv(Apply(s, step, leeway), leeway)
  {
  }

  lemma LookupKeepsInv(s: State, step: Step, leeway: nat)
    requires Inv(s, leeway) && Enabled(s, step) && step.Lookup?
    ensures Inv(Apply(s, step, leeway), leeway)
  {
  }

  lemma ReadKeepsAccepted(s: State, step: Step, leeway: nat)
    requires Inv(s, leeway) && Enabled(s, step) && step.Read?
    ensures var u := Apply(s, step, leeway);
            forall i :: 0 <= i < |u.accepted| ==> AcceptanceOk(u.accepted[i], leeway)
  {
    assert ThreadOk(s, s.threads[step.id]);
  }

  lemma ReadKeepsInv(s: State, step: Step, leeway: nat)
    requires Inv(s, leeway) && Enabled(s, step) && step.Read?
    ensures Inv(Apply(s, step, leeway), leeway)
  {
    ReadKeepsAccepted(s, step, leeway);
  }

  lemma ExtractKeepsInv(s: State, step: Step, leeway: nat)
    requires Inv(s, leeway) && Enabled(s, step) && step.Extract?
    ensures Inv(Apply(s, step, leeway), leeway)
  {
  }

  lemma FallBackKeepsInv(s: State, step: Step, leeway: nat)
    requires Inv(s, leeway) && Enabled(s, step) && step.FallBack?
    ensures Inv(Apply(s, step, leeway), leeway)
  {
  }

  lemma InsertKeepsRevoked(s: State, step: Step, leeway: nat)
    requires Inv(s, leeway) && Enabled(s, step) && step.Insert?
    ensures forall t :: t in Apply(s, step, leeway).revoked ==> RevokedOk(Apply(s, step, leeway), t)
  {
    assert ThreadOk(s, s.threads[step.id]);
  }

  lemma InsertKeepsBlacklist(s: State, step: Step, leeway: nat)
    requires Inv(s, leeway) && Enabled(s, step) && step.Insert?
    ensures var u := Apply(s, step, leeway);
            forall h :: h in u.blacklist ==> h.token in u.revoked && CoversIssued(u, h.token, u.blacklist[h])
  {
    assert ThreadOk(s, s.threads[step.id]);
  }

  lemma InsertKeepsInv(s: State, step: Step, leeway: nat)
    requires Inv(s, leeway) && Enabled(s, step) && step.Insert?
    ensures Inv(Apply(s, step, leeway), leeway)
  {
    InsertKeepsRevoked(s, step, leeway);
    InsertKeepsBlacklist(s, step, leeway);
  }

  lemma SwapKeepsInv(s: State, step: Step, leeway: nat)
    requires Inv(s, leeway) && Enabled(s, step) && step.Swap?
    ensures Inv(Apply(s, step, leeway), leeway)
  {
  }

  lemma ClearOneKeepsInv(s: State, step: Step, leeway: nat)
    requires Inv(s, leeway) && Enabled(s, step) && step.ClearOne?
    ensures Inv(Apply(s, step, leeway), leeway)
  {
  }

  lemma ReleaseKeepsInv(s: State, step: Step, leeway: nat)
    requires Inv(s, leeway) && Enabled(s, step) && step.Release?
    ensures Inv(Apply(s, step, leeway), leeway)
  {
  }

  lemma PruneKeepsInv(s: State, step: Step, leeway: nat)
    requires Inv(s, leeway) && Enabled(s, step) && step.Prune?
    ensures Inv(Apply(s, step, leeway), leeway)
  {
  }

  /** Every step of every interleaving keeps the invariant. */
  lemma StepKeepsInv(s: State, step: Step, leeway: nat)
    requires Inv(s, leeway) && Enabled(s, step)
    ensures Inv(Apply(s, step, leeway), leeway)
  {
    match step
    case Tick(_) => TickKeepsInv(s, step, leeway);
    case Stamp(_, _, _) => StampKeepsInv(s, step, leeway);
    case Issue(_) => IssueKeepsInv(s, step, leeway);
    case Lookup(_, _) => LookupKeepsInv(s, step, leeway);
    case Read(_) => ReadKeepsInv(s, step, leeway);
    case Extract(_, _) => ExtractKeepsInv(s, step, leeway);
    case FallBack(_) => FallBackKeepsInv(s, step, leeway);
    case Insert(_) => InsertKeepsInv(s, step, leeway);
    case Swap => SwapKeepsInv(s, step, leeway);
    case ClearOne(_) => ClearOneKeepsInv(s, step, leeway);
    case Release => ReleaseKeepsInv(s, step, leeway);
    case Prune(_) => PruneKeepsInv(s, step, leeway);
  }

  lemma {:induction false} RunKeepsInv(s: State, steps: seq<Step>, leeway: nat)
    requires Inv(s, leeway) && ValidRun(s, steps, leeway)
    ensures Inv(Run(s, steps, leeway), leeway)
    decreases |steps|
  {
    if steps != [] {
      StepKeepsInv(s, steps[0], leeway);
      RunKeepsInv(Apply(s, steps[0], leeway), steps[1..], leeway);
    }
  }

  // ----- Theorems about whole runs -----

  /**
   A token revoked before a verification looked it up is accepted only within `leeway` of its expiry, and only if its
   entry was pruned at or after that expiry.  Whatever is accepted verifies under the secret of that moment.
   */
  lemma RevokedIsAcceptedOnlyAfterPruning(s: State, steps: seq<Step>, leeway: nat, a: Acceptance)
    requires Init(s) && ValidRun(s, steps, leeway) && a in Run(s, steps, leeway).accepted
    ensures Genuine(a.token, a.secret) && a.at <= a.token.claims.exp + leeway
    ensures a.revokedBefore ==> a.pruned.Some? && a.token.claims.exp <= a.pruned.value <= a.at
  {
    RunKeepsInv(s, steps, leeway);
  }

  ghost predicate NoPruning(steps: seq<Step>) {
    forall step :: step in steps ==> !step.Prune?
  }

  lemma {:induction false} WithoutPruning(s: State, steps: seq<Step>, leeway: nat)
    requires ValidRun(s, steps, leeway) && NoPruning(steps) && s.lastPrune == map[]
    requires forall a :: a in s.accepted ==> a.pruned.None?
    ensures forall a :: a in Run(s, steps, leeway).accepted ==> a.pruned.None?
    decreases |steps|
  {
    if steps != [] {
      WithoutPruning(Apply(s, steps[0], leeway), steps[1..], leeway);
    }
  }

  /** Revocation survives rotation in every interleaving: without pruning, no revoked token is ever accepted. */
  lemma RevocationSurvivesRotation(s: State, steps: seq<Step>, leeway: nat, a: Acceptance)
    requires Init(s) && ValidRun(s, steps, leeway) && NoPruning(steps) && a in Run(s, steps, leeway).accepted
    ensures !a.revokedBefore
  {
    WithoutPruning(s, steps, leeway);
    RevokedIsAcceptedOnlyAfterPruning(s, steps, leeway, a);
  }

  /**
   The blacklist holds revoked tokens only, and an issued token's entry never expires before the token, not even when
   the token no longer decoded at the time it was revoked.
   */
  lemma StoredExpiryCoversIssued(s: State, steps: seq<Step>, leeway: nat, hash: Hash)
    requires Init(s) && ValidRun(s, steps, leeway) && hash in Run(s, steps, leeway).blacklist
    ensures var u := Run(s, steps, leeway);
            hash.token in u.revoked &&
            (hash.token in u.issued ==> hash.token.Signed? && hash.token.claims.exp <= u.blacklist[hash])
  {
    RunKeepsInv(s, steps, leeway);
  }

  lemma {:induction false} LaterAcceptances(s: State, steps: seq<Step>, leeway: nat)
    requires ValidRun(s, steps, leeway)
    ensures var u := Run(s, steps, leeway);
            s.accepted <= u.accepted &&
            forall i :: |s.accepted| <= i < |u.accepted| ==>
              Genuine(u.accepted[i].token, u.accepted[i].secret) && u.accepted[i].secret >= s.secret
    decreases |steps|
  {
    if steps != [] {
      LaterAcceptances(Apply(s, steps[0], leeway), steps[1..], leeway);
    }
  }

  /** A rotation invalidates every token known before it: none is accepted from then on. */
  lemma RotationInvalidatesOldTokens(s: State, steps: seq<Step>, leeway: nat, token: Token, i: nat)
    requires Enabled(s, Swap) && ValidRun(Apply(s, Swap, leeway), steps, leeway) && Known(s, token)
    requires |s.accepted| <= i < |Run(Apply(s, Swap, leeway), steps, leeway).accepted|
    ensures Run(Apply(s, Swap, leeway), steps, leeway).accepted[i].token != token
  {
    LaterAcceptances(Apply(s, Swap, leeway), steps, leeway);
  }

  ghost predicate Leads(s: State, leeway: nat, u: State) {
    exists steps :: ValidRun(s, steps, leeway) && Run(s, steps, leeway) == u
  }

  lemma LeadsToItself(s: State, leeway: nat)
    ensures Leads(s, leeway, s)
  {
    assert ValidRun(s, [], leeway) && Run(s, [], leeway) == s;
  }

  lemma LeadsAfterStep(s: State, step: Step, leeway: nat, u: State)
    requires Enabled(s, step) && Leads(Apply(s, step, leeway), leeway, u)
    ensures Leads(s, leeway, u)
  {
    var steps :| ValidRun(Apply(s, step, leeway), steps, leeway) && Run(Apply(s, step, leeway), steps, leeway) == u;
    RunCons(s, step, steps, leeway);
  }

  // A genuine token that is revoked is in the blacklist with its own expiry; nothing else has changed.
  lemma RevocationLeads(s: State, token: Token, leeway: nat, u: State)
    requires s.rotating.None? && s.threads == map[] && Genuine(token, s.secret)
    requires Leads(s.(blacklist := s.blacklist[TokenHash(token) := token.claims.exp],
             revoked := s.revoked + {token}), leeway, u)
    ensures Leads(s, leeway, u)
  {
    var s1 := Apply(s, Extract(0, token), leeway);
    assert Apply(s1, Insert(0), leeway).threads == map[];
    LeadsAfterStep(s1, Insert(0), leeway, u);
    LeadsAfterStep(s, Extract(0, token), leeway, u);
  }

  // Once it has expired and been pruned, the decoder still accepts it.
  lemma PruningLeads(s: State, token: Token, leeway: nat) returns (u: State)
    requires s.rotating.None? && s.threads == map[] && Genuine(token, s.secret) && token in s.revoked
    requires TokenHash(token) in s.blacklist && s.blacklist[TokenHash(token)] == s.clock == token.claims.exp
    ensures Leads(s, leeway, u) && exists a :: a in u.accepted && a.revokedBefore
  {
    var s1 := Apply(s, Prune(TokenHash(token)), leeway);
    var s2 := Apply(s1, Lookup(0, token), leeway);
    u := Apply(s2, Read(0), leeway);
    assert u.accepted[|s.accepted|].revokedBefore;
    LeadsToItself(u, leeway);
    LeadsAfterStep(s2, Read(0), leeway, u);
    LeadsAfterStep(s1, Lookup(0, token), leeway, u);
    LeadsAfterStep(s, Prune(TokenHash(token)), leeway, u);
  }

  /**
   Pruning does open that gap, whatever the leeway: the pruner drops an entry in the second in which the decoder still
   accepts the token.
   */
  lemma PrunedTokenIsAcceptedAgain(leeway: nat) returns (s: State, u: State)
    ensures Init(s) && Leads(s, leeway, u)
    ensures exists a :: a in u.accepted && a.revokedBefore
  {
    var token := Signed(0, NewClaims("", "", 0));
    s := State(0, None, map[], map[], 0, {token}, {}, map[], []);
    var revoked := s.(blacklist := s.blacklist[TokenHash(token) := token.claims.exp], revoked := s.revoked + {token});
    var expired := Apply(revoked, Tick(TOKEN_EXPIRY), leeway);
    u := PruningLeads(expired, token, leeway);
    LeadsAfterStep(revoked, Tick(TOKEN_EXPIRY), leeway, u);
    RevocationLeads(s, token, leeway, u);
  }

  // ----- Calls that nothing interrupts do what the service's methods say -----

  lemma UninterruptedSigning(s: State, id: nat, userId: string, username: string, leeway: nat) returns (token: Token)
    requires s.rotating.None? && id !in s.threads
    ensures ValidRun(s, [Stamp(id, userId, username), Issue(id)], leeway)
    ensures Run(s, [Stamp(id, userId, username), Issue(id)], leeway) == s.(issued := s.issued + {token})
    ensures token.Signed? && token.secret == s.secret
    ensures token.claims.userId == userId && token.claims.username == username
    ensures token.claims.iat == s.clock && token.claims.exp == s.clock + 86400
    ensures token.claims.iss == "veryagent" && token.claims.aud == "veryagent-webui"
  {
    var s1 := Apply(s, Stamp(id, userId, username), leeway);
    token := Signed(s.secret, s1.threads[id].claims);
    RunCons(s1, Issue(id), [], leeway);
    RunCons(s, Stamp(id, userId, username), [Issue(id)] + [], leeway);
    assert [Stamp(id, userId, username)] + ([Issue(id)] + []) == [Stamp(id, userId, username), Issue(id)];
    assert (s.threads[id := s1.threads[id]]) - {id} == s.threads;
  }

  lemma UninterruptedRevocation(s: State, id: nat, token: Token, leeway: nat) returns (steps: seq<Step>)
    requires s.rotating.None? && id !in s.threads && Known(s, token)
    ensures ValidRun(s, steps, leeway)
    ensures Run(s, steps, leeway).blacklist ==
            s.blacklist[TokenHash(token) :=
              if Genuine(token, s.secret) then token.claims.exp else s.clock + TOKEN_EXPIRY]
  {
    var s1 := Apply(s, Extract(id, token), leeway);
    if Genuine(token, s.secret) {
      RunCons(s1, Insert(id), [], leeway);
      steps := [Extract(id, token)] + ([Insert(id)] + []);
      RunCons(s, Extract(id, token), [Insert(id)] + [], leeway);
    } else {
      RunCons(Apply(s1, FallBack(id), leeway), Insert(id), [], leeway);
      RunCons(s1, FallBack(id), [Insert(id)] + [], leeway);
      steps := [Extract(id, token)] + ([FallBack(id)] + ([Insert(id)] + []));
      RunCons(s, Extract(id, token), [FallBack(id)] + ([Insert(id)] + []), leeway);
    }
  }

  ghost function Verification(s: State, id: nat, token: Token): seq<Step> {
    if TokenHash(token) in s.blacklist then [Lookup(id, token)] else [Lookup(id, token), Read(id)]
  }

  lemma UninterruptedVerification(s: State, id: nat, token: Token, leeway: nat)
    requires s.rotating.None? && id !in s.threads
    ensures ValidRun(s, Verification(s, id, token), leeway)
    ensures var u := Run(s, Verification(s, id, token), leeway);
            if TokenHash(token) !in s.blacklist && Genuine(token, s.secret) && s.clock <= token.claims.exp + leeway then
              |u.accepted| == |s.accepted| + 1 && u.accepted[|s.accepted|].token == token &&
              (u.accepted[|s.accepted|].revokedBefore <==> token in s.revoked)
            else u.accepted == s.accepted
  {
    var s1 := Apply(s, Lookup(id, token), leeway);
    if TokenHash(token) in s.blacklist {
      RunCons(s, Lookup(id, token), [], leeway);
      assert [Lookup(id, token)] + [] == [Lookup(id, token)];
    } else {
      RunCons(s1, Read(id), [], leeway);
      RunCons(s, Lookup(id, token), [Read(id)], leeway);
      assert [Read(id)] + [] == [Read(id)] && [Lookup(id, token)] + [Read(id)] == Verification(s, id, token);
    }
  }

  /**
   In every reachable state with no rotation under way, a verification of a revoked token accepts it if and only if the
   token verifies under the current secret, its entry is gone, and its expiry is no more than the leeway ago; and the
   entry of such a token is gone only because it was pruned at or after the expiry.
   */
  lemma RevokedTokenIsAcceptedIff(s0: State, steps: seq<Step>, leeway: nat, token: Token, id: nat)
    requires Init(s0) && ValidRun(s0, steps, leeway)
    requires var s := Run(s0, steps, leeway); s.rotating.None? && id !in s.threads && token in s.revoked
    ensures var s := Run(s0, steps, leeway);
            ValidRun(s, Verification(s, id, token), leeway) &&
            var u := Run(s, Verification(s, id, token), leeway);
            |u.accepted| > |s.accepted| <==>
            TokenHash(token) !in s.blacklist && Genuine(token, s.secret) && s.clock <= token.claims.exp + leeway
    ensures var s := Run(s0, steps, leeway);
            TokenHash(token) !in s.blacklist && Genuine(token, s.secret) ==> PrunedLate(s, token)
  {
    RunKeepsInv(s0, steps, leeway);
    var s := Run(s0, steps, leeway);
    assert RevokedOk(s, token);
    UninterruptedVerification(s, id, token, leeway);
  }

  // Clearing entry by entry under the write lock ends with an empty blacklist.
  lemma {:induction false} ClearingEmpties(s: State, leeway: nat) returns (steps: seq<Step>)
    requires s.rotating == Some(s.blacklist.Keys)
    ensures ValidRun(s, steps, leeway)
    ensures Run(s, steps, leeway) == s.(blacklist := map[], rotating := None)
    decreases s.blacklist.Keys
  {
    if s.blacklist.Keys == {} {
      steps := [Release];
      assert steps[1..] == [];
      assert s.blacklist == map[];
    } else {
      var hash :| hash in s.blacklist;
      var next := Apply(s, ClearOne(hash), leeway);
      assert next.blacklist.Keys == s.blacklist.Keys - {hash};
      var rest := ClearingEmpties(next, leeway);
      steps := [ClearOne(hash)] + rest;
      RunCons(s, ClearOne(hash), rest, leeway);
    }
  }

  lemma UninterruptedRotation(s: State, leeway: nat) returns (steps: seq<Step>)
    requires s.rotating.None?
    ensures ValidRun(s, steps, leeway)
    ensures Run(s, steps, leeway) == s.(secret := s.secret + 1, blacklist := map[])
  {
    var rest := ClearingEmpties(Apply(s, Swap, leeway), leeway);
    steps := [Swap] + rest;
    RunCons(s, Swap, rest, leeway);
  }

  // The entries that do not outlive the clock.
  ghost function Overdue(s: State): set<Hash> {
    set hash | hash in s.blacklist && s.blacklist[hash] <= s.clock
  }

  // What `CleanupBlacklist` leaves.
  ghost function Kept(s: State): map<Hash, nat> {
    map hash | hash in s.blacklist && s.blacklist[hash] > s.clock :: s.blacklist[hash]
  }

  /** Pruning every entry that can be pruned ends with exactly the entries that `CleanupBlacklist` leaves. */
  lemma {:induction false} UninterruptedCleanup(s: State, leeway: nat) returns (u: State)
    ensures Leads(s, leeway, u) && u.blacklist == Kept(s) && u.secret == s.secret && u.threads == s.threads
    decreases Overdue(s)
  {
    if Overdue(s) == {} {
      u := s;
      LeadsToItself(s, leeway);
      assert forall hash :: hash in s.blacklist ==> hash !in Overdue(s);
      assert u.blacklist == Kept(s);
    } else {
      var hash :| hash in Overdue(s);
      var next := Apply(s, Prune(hash), leeway);
      assert Overdue(next) == Overdue(s) - {hash};
      assert Kept(next) == Kept(s);
      u := UninterruptedCleanup(next, leeway);
      LeadsAfterStep(s, Prune(hash), leeway, u);
    }
  }

  /**
   A look-up takes no lock: in the middle of a rotation, when the entry of a revoked token is already cleared,
     it passes.
   The token is refused all the same, because by the time its secret is read the new one is in place.
   */
  lemma LookupDuringRotation(s: State, id: nat, token: Token, leeway: nat) returns (cleared: State, u: State)
    requires s.rotating.None? && id !in s.threads && Genuine(token, s.secret) && token in s.revoked
    requires s.blacklist.Keys == {TokenHash(token)}
    ensures Leads(s, leeway, cleared) && cleared.rotating.Some? && TokenHash(token) !in cleared.blacklist
    ensures Enabled(cleared, Lookup(id, token)) && id in Apply(cleared, Lookup(id, token), leeway).threads
    ensures Leads(Apply(cleared, Lookup(id, token), leeway), leeway, u)
    ensures id !in u.threads && u.rotating.None? && u.accepted == s.accepted
  {
    var swapped := Apply(s, Swap, leeway);
    var hash := TokenHash(token);
    cleared := Apply(swapped, ClearOne(hash), leeway);
    LeadsToItself(cleared, leeway);
    LeadsAfterStep(swapped, ClearOne(hash), leeway, cleared);
    LeadsAfterStep(s, Swap, leeway, cleared);
    var looked := Apply(cleared, Lookup(id, token), leeway);
    assert {hash} - {hash} == {};
    var released := Apply(looked, Release, leeway);
    u := Apply(released, Read(id), leeway);
    LeadsToItself(u, leeway);
    LeadsAfterStep(released, Read(id), leeway, u);
    LeadsAfterStep(looked, Release, leeway, u);
  }

  /**
   Nor does the insertion of a revoked token: one that was decoded before a rotation is entered in the middle of it, and
   stays in the blacklist of the new secret.
   */
  lemma RevocationDuringRotation(s: State, id: nat, token: Token, expiry: nat, leeway: nat) returns (u: State)
    requires s.rotating.None? && s.blacklist == map[] && id in s.threads && s.threads[id] ==
             Extracted(token, Some(expiry))
    ensures Enabled(s, Swap) && Enabled(Apply(s, Swap, leeway), Insert(id)) && Leads(s, leeway, u)
    ensures u.rotating.None? && u.secret == s.secret + 1 && u.blacklist == map[TokenHash(token) := expiry]
  {
    var swapped := Apply(s, Swap, leeway);
    var inserted := Apply(swapped, Insert(id), leeway);
    assert s.blacklist.Keys == {};
    u := Apply(inserted, Release, leeway);
    LeadsToItself(u, leeway);
    LeadsAfterStep(inserted, Release, leeway, u);
    LeadsAfterStep(swapped, Insert(id), leeway, u);
    LeadsAfterStep(s, Swap, leeway, u);
  }
}
