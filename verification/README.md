# A verified model of the VeryAgent core services

This project models the stateful services of the VeryAgent backend, and the string and array algorithms around them,
and proves what they guarantee over every input, every run and every interleaving.

Each service appears twice. A class has the service's fields and methods and is proved method by method against
specification functions. A protocol has the same operations cut into the steps between which other threads can run: a
`State`, a `Step`, `Enabled` and `Apply`; runs are arbitrary sequences of enabled steps. Lemmas named `Uninterrupted…`
say that the steps of one call, with nothing between them, do what the class's method does.

| module | what it models |
|---|---|
| `TaskProtocol`, `TaskTheorems`, `TaskRemovals`, `TaskManager`, `TaskClear` | the single-flight agent task manager: a map from conversations to once-cells, with callers, factories and removers interleaving on it |
| `Jwt`, `JwtProtocol` | token signing, verification, revocation, blacklist pruning and secret rotation |
| `RateLimit`, `AuthLimit` | the fixed-window rate limiter; the authentication middleware that checks first and records later |
| `ConfigOptions`, `Registry`, `CatalogProtocol` | the agent catalog: merging of configuration options, rows, cache, bounded queue, single consumer, hydration |
| `Shuffle`, `Password`, `Generated`, `Validation` | the credential generator, its in-place Fisher-Yates shuffle, what it can produce, the validators its output has to satisfy |
| `Text`, `Formatter`, `Entities`, `Decoding` | whole-string replacement, tag stripping, HTML escaping and entity decoding |
| `Runtime` | an agent's absorbing `Finished` status and its terminal events |
| `QrToken` | one-time QR login tokens |
| `ProcessReport` | the one-line report of a failing process |

## Where the code and its documentation disagree

The model follows the code. Each of these is a theorem.

- The task manager's documentation promises at most one active task per conversation. Killing a conversation while its
  agent is being built leaves that agent alive outside the map, and the next caller builds a second one
  (`TaskTheorems.KillDuringBuildDetaches`). The promise is kept as long as no remover reads an empty cell while a caller
  uses it (`TaskRemovals.OneTaskWithoutBusyReads`), and any such read can lead to a second agent
  (`BusyReadStrandsAnAgent`).
- `emit_finish` and `emit_error_data` are documented as atomic. The status is written under the lock and the event is
  sent after it, so a turn's event can arrive in the next turn: if and only if `reset_for_new_turn` is called while a send
  is pending (`Runtime.EventsStayInTheirTurn`, `EventAfterTheNextTurnBegan`).
- `cleanup_blacklist` is documented to remove expired entries. It drops an entry in the very second in which the decoder
  still accepts the token, whatever the decoder's leeway (`JwtProtocol.PrunedTokenIsAcceptedAgain`).
  `RevokedTokenIsAcceptedIff` says exactly which revoked tokens are accepted.

## Properties that hold under a condition

- Rows and cache of the catalog are the fold of the accepted updates as long as no write fails and none falls between the
  two halves of a rehydrate (`CatalogProtocol.StartedCacheIsTheFold`). A rehydrate that overlaps an update makes the next
  update lose options (`OverlappingRehydrateLosesOptions`, `OverlapIsTheFoldIff`). The exact condition is
  `RealRowIsTheFoldIff` for the merge by id, and `RowIsTheFoldIff` for any merge.
- A generated password validates if and only if it was asked for with 8 to 128 characters
  (`Password.GeneratedPasswordValidates`); `generate_password` only raises short lengths to 4.
- The shuffle draws one byte per position, so it reaches every permutation if and only if there are at most 256
  characters (`Shuffle.BytesReachEveryPermutation`).
- Decoding escaped text gives the text back if and only if it spells out none of `&lt;`, `&gt;` and `&nbsp;` itself
  (`Entities.DecodeInvertsEscape`).
- Every text comes back from decimal entities, but a text encoded by hexadecimal ones comes back with the decimal
  entities it spells out decoded too, because the decimal pass runs last (`Decoding.HexEncodingDecodesTwice`).
- `k` requests of one address in flight together can bring the count of the authentication limiter to `max + k - 1`
  (`AuthLimit.CheckThenRecordBoundIsSharp`), and no further (`CheckThenRecordBound`).

## Model

| member | source | states |
|---|---|---|
| TaskProtocol.StepKeepsInv | crates/veryagent-ai-agent/src/task_manager.rs:103-183 | every step of every interleaving of callers and removers keeps the invariant that ties map, cells, permits, holders and kill calls together |
| TaskTheorems.ConservationOfAgents | crates/veryagent-ai-agent/src/task_manager.rs:103-183 | in every reachable state a built agent is in exactly one class: reachable from the map, taken by one remover, killed by one kill call, or detached; no conversations share a cell |
| TaskTheorems.DetachedIffReadEmpty | crates/veryagent-ai-agent/src/task_manager.rs:127-183 | over whole runs: a built agent is detached if and only if at some step a remover read its slot's cell while it was still empty |
| TaskTheorems.DetachedForever | crates/veryagent-ai-agent/src/task_manager.rs:127-183 | once detached, an agent is never killed by the manager and never back in its map, whatever happens later |
| TaskTheorems.StrayIffDetached | crates/veryagent-ai-agent/src/task_manager.rs:103-183 | with no removal under way, the agents alive outside the map are exactly the detached ones |
| TaskTheorems.LiveAgentsOfAConversation | crates/veryagent-ai-agent/src/task_manager.rs:25-28 | at rest, the live agents of a conversation are its detached ones plus at most the one in the map; so it has at most one active task if and only if none is detached, or one is and the map has none |
| TaskRemovals.OneTaskWithoutBusyReads | crates/veryagent-ai-agent/src/task_manager.rs:103-183 | over whole runs: if no remover reads an empty cell while a caller waits for it or builds in it, then at rest every conversation has at most one active task, the one in the map |
| TaskRemovals.BusyReadStrandsAnAgent | crates/veryagent-ai-agent/src/task_manager.rs:103-183 | after any such read, in any reachable state, steps of callers alone lead to two live agents of the conversation, one detached and one in the map |
| TaskTheorems.KillDuringBuildDetaches | crates/veryagent-ai-agent/src/task_manager.rs:103-145 | for every conversation, a run after which two agents, both built for it, are alive although the manager is at rest and only one is in its map |
| TaskTheorems.SingleFlight | crates/veryagent-ai-agent/src/task_manager.rs:118-124 | per slot at most one factory run is in progress and at most one ever succeeds |
| TaskTheorems.NoRunAfterSuccess | crates/veryagent-ai-agent/src/task_manager.rs:118-124 | a filled slot keeps its agent and no factory run ever starts in it again |
| TaskTheorems.CallersShareTheAgent | crates/veryagent-ai-agent/src/task_manager.rs:103-125 | two callers of one conversation, not removed between their look-ups, who both return an agent return the same one, whatever failures and cancellations occur |
| TaskTheorems.CallerStepsDecrease | crates/veryagent-ai-agent/src/task_manager.rs:103-125 | every caller step lowers the measure over waiters and builders, a new call raises it by two, removers leave it alone |
| TaskTheorems.CallerStepsAreBounded | crates/veryagent-ai-agent/src/task_manager.rs:103-125 | in any run the callers together make at most two steps per call |
| TaskTheorems.NoCallerIsStuck | crates/veryagent-ai-agent/src/task_manager.rs:103-125 | while a call is pending some caller can move: join, start a run, or end the one in progress |
| TaskTheorems.CallersCanLeave | crates/veryagent-ai-agent/src/task_manager.rs:118-124 | a pending caller can be dropped in any reachable state, and does not keep the permit |
| TaskTheorems.FactoryRunsAreBounded | crates/veryagent-ai-agent/src/task_manager.rs:103-125 | each call runs the factory at most once, so `n` calls run it at most `n` times, retries included |
| TaskManager.OnceCell.GetOrTryInit | crates/veryagent-ai-agent/src/task_manager.rs:118-124 | a filled cell answers without a run; a failed run leaves the cell empty for a retry |
| TaskManager.WorkerTaskManager.GetTask | crates/veryagent-ai-agent/src/task_manager.rs:92-101 | an agent is found if and only if the conversation's cell is filled, and it is that one |
| TaskManager.WorkerTaskManager.GetOrBuildTask | crates/veryagent-ai-agent/src/task_manager.rs:103-125 | the factory runs if and only if the conversation has no agent; a failure leaves an empty slot; other conversations are untouched |
| TaskManager.WorkerTaskManager.Kill | crates/veryagent-ai-agent/src/task_manager.rs:127-145 | the conversation leaves the map, its agent if any is killed, and only a failing kill call makes an error |
| TaskManager.WorkerTaskManager.Clear | crates/veryagent-ai-agent/src/task_manager.rs:171-183 | the map ends empty and the waits are the kill calls of `Waits`, in key order |
| TaskManager.ClearKillsEachOnce | crates/veryagent-ai-agent/src/task_manager.rs:171-183 | those kill calls are one for each filled conversation and no other |
| TaskManager.ReachableIsTidy | crates/veryagent-ai-agent/src/task_manager.rs:107-116 | in every reachable state each conversation has its own slot, so that `Tidy`, which the next three rows require, excludes no state of the manager |
| TaskManager.UninterruptedBuild | crates/veryagent-ai-agent/src/task_manager.rs:103-125 | the protocol's steps of a build, left alone, change the view as `GetOrBuildTask` does, for a new slot and for one left empty by a failure, whether the factory succeeds or fails |
| TaskManager.UninterruptedJoin | crates/veryagent-ai-agent/src/task_manager.rs:103-125 | a caller of a filled conversation, left alone, gets its agent and changes nothing |
| TaskManager.UninterruptedKill | crates/veryagent-ai-agent/src/task_manager.rs:127-145 | the protocol's steps of a removal, left alone, change the view as `Kill` does, make a kill call exactly when the cell is filled, and do nothing for an absent conversation |
| TaskClear.UninterruptedClear | crates/veryagent-ai-agent/src/task_manager.rs:171-183 | a remover ordered to remove any snapshot of keys, left alone, takes all of them out of the view, makes the kill calls that `Clear` makes in the same order, and is done; the map is empty if the snapshot covers it |
| Jwt.Decode | crates/veryagent-auth/src/jwt.rs:101-111 | the decoder accepts if and only if the secret is right, issuer and audience are `veryagent` and `veryagent-webui`, and the expiry is no more than the leeway ago |
| Jwt.ExtractedExpiryIsTheLastSecond | crates/veryagent-auth/src/jwt.rs:153-163 | the expiry extracted without checking is exactly the last second, give or take the leeway, at which the checking decoder accepts the token; none is extracted exactly from tokens it accepts at no time |
| Jwt.JwtService.Sign | crates/veryagent-auth/src/jwt.rs:61-85 | the token carries the current secret, the user id and user name given, the time, an expiry 86400 seconds on, and the service's issuer and audience |
| Jwt.SignedTokenReadsBack | crates/veryagent-auth/src/jwt.rs:61-111 | a token decodes under the secret that signed it, and no other, to the user id, user name and times it was signed with, until a day and the leeway have passed |
| Jwt.SignThenVerify | crates/veryagent-auth/src/jwt.rs:61-112 | a token signed by a service and not revoked verifies with it to exactly the user it was signed for, until a day and the leeway have passed |
| Jwt.JwtService.Verify | crates/veryagent-auth/src/jwt.rs:90-112 | which tokens are accepted, and which errors come when: the blacklist first, then an expired token apart from every other defect |
| Jwt.JwtService.BlacklistToken | crates/veryagent-auth/src/jwt.rs:117-123 | the stored expiry is the token's own if it is genuine under the current secret, else a full lifetime from now |
| Jwt.JwtService.RotateSecret | crates/veryagent-auth/src/jwt.rs:128-139 | a fresh secret is in place and returned, and the blacklist is empty |
| Jwt.JwtService.CleanupBlacklist | crates/veryagent-auth/src/jwt.rs:142-145 | exactly the entries whose expiry is after the clock stay, unchanged |
| JwtProtocol.StepKeepsInv | crates/veryagent-auth/src/jwt.rs:61-145 | every step of every interleaving keeps the invariant: a revoked token that still verifies is in the blacklist, or was pruned at or after its expiry |
| JwtProtocol.RevokedIsAcceptedOnlyAfterPruning | crates/veryagent-auth/src/jwt.rs:90-145 | an accepted token is genuine under the secret of that moment; one revoked before the look-up is accepted only in `[exp, exp + leeway]` and only after a prune at or after `exp` |
| JwtProtocol.RevocationSurvivesRotation | crates/veryagent-auth/src/jwt.rs:90-139 | without pruning, no token revoked before a verification looked it up is ever accepted, in any interleaving with rotations |
| JwtProtocol.RevokedTokenIsAcceptedIff | crates/veryagent-auth/src/jwt.rs:90-145 | in every reachable state with no rotation under way, verifying a revoked token accepts it if and only if it verifies under the current secret, is absent from the blacklist and has expired by no more than the leeway; and it is absent only after a prune at or after its expiry |
| JwtProtocol.StoredExpiryCoversIssued | crates/veryagent-auth/src/jwt.rs:117-123 | the blacklist holds revoked tokens only, and the entry of an issued token never expires before the token, not even on the fallback path |
| JwtProtocol.RotationInvalidatesOldTokens | crates/veryagent-auth/src/jwt.rs:125-139 | no token known before a rotation is accepted after it |
| JwtProtocol.PrunedTokenIsAcceptedAgain | crates/veryagent-auth/src/jwt.rs:142-145 | for every leeway, an initial state and a run from it in which a revoked token is pruned and then accepted |
| JwtProtocol.UninterruptedRevocation | crates/veryagent-auth/src/jwt.rs:117-123 | the protocol's steps of a revocation, left alone, store what `BlacklistToken` stores |
| JwtProtocol.UninterruptedVerification | crates/veryagent-auth/src/jwt.rs:90-112 | the protocol's steps of a verification, left alone, accept exactly what `Verify` accepts |
| JwtProtocol.ClearingEmpties | crates/veryagent-auth/src/jwt.rs:134-136 | clearing entry by entry under the write lock ends with an empty blacklist |
| JwtProtocol.UninterruptedRotation | crates/veryagent-auth/src/jwt.rs:128-139 | the protocol's steps of a rotation, left alone, end where `RotateSecret` ends |
| JwtProtocol.UninterruptedSigning | crates/veryagent-auth/src/jwt.rs:61-85 | the protocol's steps of a signing, left alone, issue the token that `Sign` returns |
| JwtProtocol.UninterruptedCleanup | crates/veryagent-auth/src/jwt.rs:142-145 | pruning every entry that can be pruned ends with exactly the entries that `CleanupBlacklist` leaves |
| JwtProtocol.LookupDuringRotation | crates/veryagent-auth/src/jwt.rs:90-99 | a look-up takes no lock: it can pass for a revoked token whose entry a rotation has just cleared, and the token is refused all the same |
| JwtProtocol.RevocationDuringRotation | crates/veryagent-auth/src/jwt.rs:117-123 | nor does an insertion: a revocation decoded before a rotation is entered in the middle of it and outlives it |
| RateLimit.RateLimiter.Check | crates/veryagent-auth/src/rate_limit.rs:61-70 | a check passes unless the key's live window is full |
| RateLimit.RateLimiter.CheckAndIncrement | crates/veryagent-auth/src/rate_limit.rs:75-95 | a request is admitted if and only if the live count is below the limit; the whole new table, also when it is refused |
| RateLimit.RateLimiter.RecordAttempt | crates/veryagent-auth/src/rate_limit.rs:100-115 | the live count goes up by one, with 32-bit wrap-around, in the window that is live or newly opened |
| RateLimit.RateLimiter.Cleanup | crates/veryagent-auth/src/rate_limit.rs:118-121 | exactly the live entries stay |
| RateLimit.CleanupUnobservable | crates/veryagent-auth/src/rate_limit.rs:61-121 | from any table, clean-ups inserted anywhere in a run change no answer of `check` and `check_and_increment` |
| RateLimit.SlidingBound | crates/veryagent-auth/src/rate_limit.rs:75-95 | in any interval of `k` windows at most `(k+1)*max - 1` requests of one key are admitted, so `2*max - 1` in one, wherever clean-ups fall; `k*max` for windows of a millisecond |
| RateLimit.SlidingBoundIsSharp | crates/veryagent-auth/src/rate_limit.rs:75-95 | for every configuration and every `k` some run reaches exactly that number |
| RateLimit.RefusalsAreJustified | crates/veryagent-auth/src/rate_limit.rs:61-95 | a request or a check is refused only if at least `max` requests of the key were admitted in `(at - window, at]` |
| AuthLimit.Middleware | crates/veryagent-auth/src/rate_limit.rs:152-167 | one request, left alone, is the protocol's arrival followed by its success or failure, or the arrival only |
| AuthLimit.StepKeepsBound | crates/veryagent-auth/src/rate_limit.rs:152-167 | every step keeps: once a window is full, its count and the requests in flight together are within `max + k - 1` |
| AuthLimit.CheckThenRecordBound | crates/veryagent-auth/src/rate_limit.rs:100-115 | with at most `k` requests of a key in flight, the count of a live window never exceeds `max + k - 1`, also for requests that straddle a window change, and does not wrap if that fits 32 bits |
| AuthLimit.CheckThenRecordBoundIsSharp | crates/veryagent-auth/src/rate_limit.rs:152-167 | that count is reached, for every limit and every `k` |
| AuthLimit.RefusedArrivalsAreJustified | crates/veryagent-auth/src/rate_limit.rs:100-115 | an arrival is refused only if at least `max` failures of the key were recorded in `(at - window, at]` |
| AuthLimit.InflightIsBalanced | crates/veryagent-auth/src/rate_limit.rs:152-167 | in every run the requests in flight and those completed are those that passed the check |
| AuthLimit.SweepTakesOutTheExpired | crates/veryagent-auth/src/rate_limit.rs:118-121 | a sweep takes out exactly the entries whose window is over |
| AuthLimit.SweepsAreUnobservable | crates/veryagent-auth/src/rate_limit.rs:118-121 | sweeps anywhere in a run let in and keep out the same requests as the run without them |
| ConfigOptions.MergeConfigOptions | crates/veryagent-ai-agent/src/manager/acp/config_option_catalog.rs:48-69 | the loop that replaces by id or appends computes `Merged`; with nothing to merge with, the incoming list is taken as it is |
| ConfigOptions.MergedById | crates/veryagent-ai-agent/src/manager/acp/config_option_catalog.rs:56-68 | after a merge every id has its latest incoming option, or else the one it had, and what was there keeps its place |
| ConfigOptions.MergesAgreeIff | crates/veryagent-ai-agent/src/manager/acp/config_option_catalog.rs:56-68 | merging with two lists gives the same options if and only if the lists agree on every id that is not incoming |
| ConfigOptions.MergedListsAreEqualIff | crates/veryagent-ai-agent/src/manager/acp/config_option_catalog.rs:56-68 | merges into two lists without repeated ids are the same list, order included, if and only if they end with the same ids in the same order and the lists agree on every id that is not incoming |
| ConfigOptions.FirstMerge | crates/veryagent-ai-agent/src/manager/acp/config_option_catalog.rs:52-54 | with nothing to merge with, every id has its first incoming option and repetitions stay; merging with an empty list instead makes no difference if and only if no id is repeated |
| ConfigOptions.MergedValueById | crates/veryagent-ai-agent/src/manager/acp/config_option_catalog.rs:71-97 | a merged value is wrapped as the incoming one was, has its latest options by id and else the existing ones; text merges into nothing |
| Registry.AgentRegistry.Hydrate | crates/veryagent-ai-agent/src/registry.rs:164-185 | if the table could be read, the cache holds exactly the decodable rows, as they decode; if not, it is as before |
| Registry.AgentRegistry.ApplyHandshakeInner | crates/veryagent-ai-agent/src/registry.rs:107-151 | new row and new cache for every outcome of the repository; the cache is touched only after a write that returned its row |
| Registry.DecodesFieldByField | crates/veryagent-ai-agent/src/registry.rs:413-420 | each of the six fields decodes to the value its own column encodes, and to none if that is missing or corrupt |
| Registry.WritesArePartial | crates/veryagent-db/src/repository/sqlite_agent_metadata.rs:440-457 | a field that the prepared handshake carries is written to its own column; a field it does not carry keeps its column, for each of the six |
| Registry.AgentRegistry.DrainQueue | crates/veryagent-ai-agent/src/registry.rs:85-98 | draining a queue keeps the cache coherent and leaves every row as the fold of its messages |
| Registry.WriteThroughStep | crates/veryagent-db/src/repository/sqlite_agent_metadata.rs:430-482 | against a coherent cache, merging with the cache is merging with the row, and writing through keeps the cache coherent |
| Registry.WriteAgreesIff | crates/veryagent-ai-agent/src/registry.rs:108-136 | for all rules that leave the options alone when deriving catalogs: an update writes the row that merging with the row itself gives if and only if both merges give the same options |
| Registry.RealWriteAgreesIff | crates/veryagent-ai-agent/src/manager/acp/config_option_catalog.rs:71-76 | under the merge by id, if and only if the two merged lists are the same |
| Registry.StaleReadAgreesIff | crates/veryagent-ai-agent/src/manager/acp/config_option_catalog.rs:48-69 | for lists without repeated ids, if and only if the merges end with the same ids in the same order and the list read agrees with the row's on every id that is not incoming |
| CatalogProtocol.QueueStep | crates/veryagent-ai-agent/src/registry.rs:828-848 | every step keeps the queue bounded and first in, first out |
| CatalogProtocol.CacheStep | crates/veryagent-ai-agent/src/registry.rs:107-185 | every step keeps: outside the named lagging ids the cache is the database, and a hydrate's snapshot is the database outside the ids written since |
| CatalogProtocol.RowStep | crates/veryagent-ai-agent/src/registry.rs:107-151 | every step keeps a row the fold of the updates applied to it, unless one was merged with a lagging cache |
| CatalogProtocol.AcceptedInOrder | crates/veryagent-ai-agent/src/registry.rs:828-848 | the accepted messages are a subsequence, in order, of those sent, with at most 256 waiting |
| CatalogProtocol.SentMessageIsAcceptedIff | crates/veryagent-ai-agent/src/registry.rs:832-848 | a message is dropped if and only if 256 are waiting, and otherwise comes last |
| CatalogProtocol.DrainedCacheIsTheFold | crates/veryagent-ai-agent/src/registry.rs:85-151 | once drained, the cached handshake of a decodable row is the fold of the accepted messages over the row alone, except for ids that lag, were merged while lagging, or lost an update to a failing write |
| CatalogProtocol.SmoothRunsNeverLag | crates/veryagent-ai-agent/src/registry.rs:107-185 | from a filled cache, with no failing write and no update written inside a hydrate, those exceptions never arise |
| CatalogProtocol.StartedCacheIsTheFold | crates/veryagent-app/src/services.rs:117-122 | after the hydrate at start-up, in a run with no failing write and no write inside a later hydrate, a drained cache is the fold of the accepted messages over the table, for every id |
| CatalogProtocol.PlainFieldsAreLastWritten | crates/veryagent-ai-agent/src/registry.rs:106-136 | in every reachable state, lagging or not: agent capabilities, authentication methods and commands of a row are those of the last update written that carried them, or what the row began with |
| CatalogProtocol.FoldFieldByField | crates/veryagent-ai-agent/src/registry.rs:121-136 | every field of a fold, merged and derived ones included, is the last of its values in the prepared updates, or what the row began with |
| CatalogProtocol.DrainedFieldByField | crates/veryagent-ai-agent/src/registry.rs:85-151 | so is every field of a cached handshake in a drained registry that has started and run smoothly |
| CatalogProtocol.RowIsTheFoldIff | crates/veryagent-ai-agent/src/registry.rs:107-151 | for any rules and any run: a row is at every moment the fold of the updates written to it if and only if every write gives what merging with the row itself would give |
| CatalogProtocol.CurrentReadsAgree | crates/veryagent-ai-agent/src/registry.rs:107-151 | for any rules: if no write uses options other than those its row then holds, every write gives what merging with the row itself would give |
| CatalogProtocol.RealRowIsTheFoldIff | crates/veryagent-ai-agent/src/manager/acp/config_option_catalog.rs:71-76 | with the merge by id, in any run: a row is at every moment the fold of the updates written to it if and only if, at each write of an update with a list of options, merging that list into what the consumer read makes the same list as merging it into what the row then holds |
| CatalogProtocol.OverlapIsTheFoldIff | crates/veryagent-ai-agent/src/registry.rs:208-212 | for any rules, any resting registry and any two updates of one id, the first inside a rehydrate: this run is reached, and leaves the fold of the two if and only if merging the second with the options from before the first gives what merging it with those after it gives |
| CatalogProtocol.OverlappingRehydrateLosesOptions | crates/veryagent-ai-agent/src/registry.rs:208-212 | with the merge by id and any derived catalogs: a run, without a failing write, in which a rehydrate overlaps an update of a started registry and the next update erases the first one's options from the row |
| Shuffle.ShuffleInPlace | crates/veryagent-auth/src/password.rs:149-155 | the swap loop on the array computes `Shuffled` of the index choices its bytes make |
| Shuffle.ShufflePermutes | crates/veryagent-auth/src/password.rs:152-155 | the shuffle keeps the multiset of elements, and settles each position once |
| Shuffle.ShuffleIsInjective | crates/veryagent-auth/src/password.rs:152-155 | different index choices make different permutations |
| Shuffle.ChoicesArePermutations | crates/veryagent-auth/src/password.rs:152-155 | every permutation comes from exactly one choice of indices |
| Shuffle.RearrangementsAreReached | crates/veryagent-auth/src/password.rs:152-155 | every rearrangement of any sequence, repetitions included, comes from some choice of indices |
| Shuffle.BytesReachEveryPermutation | crates/veryagent-auth/src/password.rs:149-155 | bytes reach every permutation if and only if there are at most 256 elements |
| Password.RandomRange | crates/veryagent-auth/src/password.rs:111-116 | the little-endian sample of the next four bytes, in range |
| Password.RandomString | crates/veryagent-auth/src/password.rs:126-132 | each character is the pick of its own byte |
| Password.FillUp | crates/veryagent-auth/src/password.rs:144-147 | the loop extends the head to the length asked for, one pick per position, and never cuts it |
| Password.GenerateStrongPassword | crates/veryagent-auth/src/password.rs:135-158 | the password is `StrongPassword` of the stream: one of each class, filled up, shuffled |
| Password.StrongPasswordIsStrong | crates/veryagent-auth/src/password.rs:134-158 | for every stream it has the length asked for, at least 4, only password characters, and all four classes after the shuffle |
| Password.GeneratedPasswordValidates | crates/veryagent-auth/src/validation.rs:16-32 | it passes validation if and only if it was asked for with 8 to 128 characters |
| Password.GeneratePassword | crates/veryagent-auth/src/password.rs:95-98 | the same for the entry point, which raises the length to 4 |
| Password.GenerateUserCredentials | crates/veryagent-auth/src/password.rs:81-89 | the credentials are `UsernameOf` and `PasswordOf` the stream: both lengths, then the user name, then the password are drawn, in this order |
| Password.CredentialsValidate | crates/veryagent-auth/src/password.rs:81-89 | for every stream these are a user name of 6 to 8 lower-case letters and digits and a password of 12 to 17 password characters of all four classes, both of which validate |
| Generated.EveryStrongPasswordIsGenerated | crates/veryagent-auth/src/password.rs:119-158 | every string of 4 to 256 password characters with all four classes is generated from some stream |
| Generated.EveryPairOfCredentialsIsGenerated | crates/veryagent-auth/src/password.rs:81-89 | every such user name is generated together with every such password |
| Validation.AcceptedPasswords | crates/veryagent-auth/src/validation.rs:16-32 | too short below 8 bytes, too long above 128, too common if one of five in any mixture of cases, and accepted otherwise |
| Validation.AcceptedUsernames | crates/veryagent-auth/src/validation.rs:40-68 | accepted if and only if 3 to 32 plain characters with no joiner at either end, whatever the width of the input's characters; and which error comes first |
| Validation.WidthIsTheLeast | crates/veryagent-auth/src/validation.rs:17-22 | a character counts for the fewest bytes in which its code fits, as in section 3 of RFC 3629 |
| Formatter.TagEnd | crates/veryagent-channel/src/formatter.rs:54 | the match of the tag pattern at the start of a text, or that there is none |
| Formatter.StripTagsLoop | crates/veryagent-channel/src/formatter.rs:82-92 | the loop ends after one pass on a clean text and two on any other, with the first pass's result, which holds no tag |
| Formatter.PassIsClean | crates/veryagent-channel/src/formatter.rs:82-92 | one pass leaves no tag, not even one put together from what stood around those removed |
| Formatter.PassIsIdempotent | crates/veryagent-channel/src/formatter.rs:82-92 | a pass changes a text if and only if it holds a tag; a second pass changes nothing |
| Formatter.PassRemovesOnlyTags | crates/veryagent-channel/src/formatter.rs:85 | what a pass takes out is whole tags; every other character stays, in order |
| Formatter.EscapeIsOneSubstitution | crates/veryagent-channel/src/formatter.rs:78-80 | the three replacements in sequence are one substitution per character |
| Formatter.EscapeIsInjective | crates/veryagent-channel/src/formatter.rs:78-80 | different texts stay different when escaped |
| Entities.StripHtml | crates/veryagent-channel/src/formatter.rs:70-74 | tags stripped, entities decoded, and no angle bracket left |
| Decoding.DroppingKeepsTheRest | crates/veryagent-channel/src/formatter.rs:73 | dropping the brackets leaves all other characters, in their order |
| Decoding.DecodesPieceByPiece | crates/veryagent-channel/src/formatter.rs:96-119 | a text put together from characters other than `&`, quote entities and numeric entities decodes piece by piece, in one go, unless a hexadecimal entity stands for `&`; a code that is no character's stays |
| Decoding.DecimalEncodingDecodes | crates/veryagent-channel/src/formatter.rs:110-117 | every text comes back from its encoding by decimal entities |
| Decoding.HexEncodingDecodesTwice | crates/veryagent-channel/src/formatter.rs:103-117 | a text encoded by hexadecimal entities comes back with the decimal entities that it spells out itself decoded as well |
| Decoding.NumberIgnoresCase | crates/veryagent-channel/src/formatter.rs:97-104 | the case of hexadecimal digits makes no difference |
| Entities.SafeDecoderKeepsCalm | crates/veryagent-channel/src/formatter.rs:94-119 | the safe decoder leaves alone every text whose ampersands all begin `&l`, `&g` or `&am`, escaped text among them |
| Entities.AmpersandsComeBack | crates/veryagent-channel/src/formatter.rs:124 | replacing `&amp;` undoes the escaping of `&` and nothing else |
| Entities.AngleComesBack | crates/veryagent-channel/src/formatter.rs:125-126 | replacing an angle's entity undoes its escaping and also replaces those the text spelled out itself |
| Entities.DecodeAfterEscape | crates/veryagent-channel/src/formatter.rs:122-128 | decoding escaped text is replacing `&lt;`, `&gt;` and `&nbsp;` in the text |
| Entities.DecodeInvertsEscape | crates/veryagent-channel/src/formatter.rs:78-128 | decoding gives the text back if and only if it contains none of these three |
| Runtime.AgentRuntime.TransitionTo | crates/veryagent-ai-agent/src/agent_runtime.rs:88-95 | `Finished` absorbs every transition |
| Runtime.AgentRuntime.EmitFinish | crates/veryagent-ai-agent/src/agent_runtime.rs:111-126 | finished afterwards, with one more event unless it was finished before |
| Runtime.AgentRuntime.EmitErrorData | crates/veryagent-ai-agent/src/agent_runtime.rs:136-149 | the same for an error event |
| Runtime.StepKeepsInv | crates/veryagent-ai-agent/src/agent_runtime.rs:88-149 | every step keeps: events sent and pending are the flips, and a new flip needs a reset |
| Runtime.TerminalEventsAreFlips | crates/veryagent-ai-agent/src/agent_runtime.rs:88-149 | in every interleaving terminal events sent plus sends pending are the flips to Finished, at most one more than the resets |
| Runtime.RacingEmittersSendOnce | crates/veryagent-ai-agent/src/agent_runtime.rs:111-149 | any number of emitters racing in one turn send exactly one event, that of the one that flipped the status |
| Runtime.TransitionsAbsorb | crates/veryagent-ai-agent/src/agent_runtime.rs:88-95 | with nobody emitting and no new turn, the status is the last one written, until `Finished` has been |
| Runtime.UninterruptedEmit | crates/veryagent-ai-agent/src/agent_runtime.rs:111-126 | flip and send, left alone, do what `EmitFinish` does |
| Runtime.EventsStayInTheirTurn | crates/veryagent-ai-agent/src/agent_runtime.rs:97-149 | over whole runs: every event is sent in the turn it ends and to an agent that is still finished, or is pending in that turn, if and only if no new turn is begun while a send is pending |
| Runtime.LoudResetMisplacesAnEvent | crates/veryagent-ai-agent/src/agent_runtime.rs:97-126 | from every reachable state with a send pending, beginning a new turn lets that event arrive in an unfinished later turn |
| QrToken.HexIsInjective | crates/veryagent-auth/src/qr_token.rs:55-58 | different random bytes make different tokens |
| QrToken.HexReadsBack | crates/veryagent-auth/src/qr_token.rs:55-58 | a token is its bytes in lower-case hexadecimal, two digits each, in order, the higher first |
| QrToken.QrTokenStore.GenerateWithExpiry | crates/veryagent-auth/src/qr_token.rs:51-70 | the token is the 64-character hex text of the bytes, stored unused, with the expiry 300000 milliseconds on |
| QrToken.QrTokenStore.ValidateAndConsume | crates/veryagent-auth/src/qr_token.rs:75-93 | which tokens are accepted and consumed, and which error comes first; a refusal changes nothing |
| QrToken.QrTokenStore.Cleanup | crates/veryagent-auth/src/qr_token.rs:96-100 | exactly the tokens that have not expired stay |
| QrToken.VerdictsAreExpected | crates/veryagent-auth/src/qr_token.rs:51-100 | over every run the store accepts exactly what a record that never forgets says it should |
| QrToken.OneTimeUse | crates/veryagent-auth/src/qr_token.rs:51-93 | each token is accepted at most once, only after it was generated, and never after the expiry it was returned with |
| QrToken.CleanupUnobservable | crates/veryagent-auth/src/qr_token.rs:75-100 | clean-ups inserted anywhere change no verdict |
| ProcessReport.SanitizeField | crates/veryagent-app/src/process_report.rs:46-51 | the result holds no space, colon, control or non-ASCII character, is the value itself if and only if the value held none, and otherwise differs only by underscores in their places |
| ProcessReport.SanitizingAgain | crates/veryagent-app/src/process_report.rs:46-51 | sanitising again changes nothing, and two values are confused only where one of them was not clean |
| ProcessReport.StderrLine | crates/veryagent-app/src/process_report.rs:32-43 | the loop prints code, fields in order and message as `Line` has them |
| ProcessReport.LineReadsBack | crates/veryagent-app/src/process_report.rs:32-51 | a reader recovers code, keys, sanitised values and message from the line, if the code holds no space or colon and no key an equals sign |
| ProcessReport.LinesAreUnambiguous | crates/veryagent-app/src/process_report.rs:32-51 | two reports with the same line agree on all of these |

## Left out

Assumptions of the model:

- One limiter call, and one call on the QR store, reads the clock and works on its key in one atomic step; the clock never goes back. Timestamps that reach the map out of order are not modelled.
- Times are natural numbers without an upper end: overflow of 64-bit time arithmetic and the truncation of `as_millis() as u64` are not modelled, nor is a clock before the epoch. Subtractions therefore never saturate.
- Lock poisoning, failing token encoding, failing JSON encoding and unavailable entropy are not modelled.
- Cryptography is symbolic: numbered secrets, signatures that verify under one secret only, an injective hash. The decoder of the JWT library is taken to look at signature, expiry and addressee in this order, with an arbitrary leeway.
- Nobody revokes a token signed with a secret that has not been generated yet.
- A request of the authentication limiter that is dropped before its response is a success to the model: it leaves flight and records nothing.
- Clearing and pruning the blacklist work entry by entry; iteration inside the concurrent maps is otherwise not modelled.
- The randomness of the generators is an arbitrary byte stream: uniformity of passwords and tokens is not stated. QR tokens are taken to be generated afresh; that follows from fresh bytes by `HexIsInjective`.
- Lower-casing folds ASCII only. That is enough for the weak passwords: of the other characters only the Kelvin sign becomes an ASCII letter, `k`, and no weak password has one.
- A JSON value is a list of configuration options, alone or under a key of an object, or opaque text; a column is the encoding of a value or does not parse. The theorems about the catalog hold for arbitrary merges and derivations; `RealRules` has the merge by id and any derivation of catalogs that leaves the options alone, as `enrich_handshake_with_config_option_catalog` does.

Weaker than the code, or narrower:

- TaskManager.WorkerTaskManager.Clear: the snapshot of the map's keys is a parameter, because the map's iteration order is unspecified; in `TaskProtocol` a remover's list of keys is arbitrary, which covers every snapshot.
- TaskManager.WorkerTaskManager.Kill: kill reasons and logging are left out; `kill_and_wait` is the same removal, and the future it returns is not modelled.
- CatalogProtocol.DrainedCacheIsTheFold: its exceptions for single ids are sets kept along the run; `StartedCacheIsTheFold` has the conclusion in terms of the run alone. In both, rows have no other writer: creating, deleting and enabling rows, and availability snapshots, are left out.
- Entities.DecodeInvertsEscape: decimal entities with digits outside ASCII never parse and so are left out of the pattern.

Not modelled:

- `active_count`, `collect_idle`, `get_task` under concurrency, process teardown, the scheduler. A caller that is dropped is modelled (`Cancel`).
- `refresh_availability`, probing of commands, visibility and management status, all metadata other than the handshake.
- The markdown and HTML rewriting of the formatter other than the tag pattern.
- Broadcast receivers and their lag, `last_activity`, events that are not terminal.
- `extract_client_ip`, HTTP routes, the other two limiter middlewares (one call of `check_and_increment` each), the presets of limits and windows.
- `blacklist_size`, `entry_count`, background clean-up tasks, password hashing, exit codes, API data types.
