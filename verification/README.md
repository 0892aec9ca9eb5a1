# Verified model of the Framework's stateful core

The Go module `Framework/` keeps sessions, delivers queue messages, guards outbound calls, takes distributed locks
and writes logs and streams. This project models the parts of it whose correctness rests on several steps working
together, in Dafny 4.11, and proves what they promise. `dafny verify dfyconfig.toml` checks everything.

How the model is built:

- An object whose methods update its fields is a `class` with those fields. Each method is proved equal to a function
  on values, and the theorems are about that function: one step, and whole runs of steps.
- A Lua script is one atomic step. It appears twice: as a function on the store, and as a method that performs the
  reads and writes of the script one by one and is proved equal to the function.
- Goroutines and mutexes become a state machine whose events interleave in any order. An event is one critical
  section, one atomic access or one effect.
- A run is a sequence of states in which each follows from the one before by some event. Theorems about runs hold for
  every length and every interleaving.
- Time is one integer clock that never goes back. A Redis key with a time to live is absent once the clock reaches its
  end. Random tokens and identifiers are new when they are drawn. SHA-256 is a free constructor, so it has no collisions.

| files | what they model |
|---|---|
| `RefreshMemory`, `RefreshRuns`, `RefreshManager` | refresh-session families in memory, runs of calls, the manager object |
| `RefreshScripts`, `RefreshStore` | the same protocol in Redis: four linked objects and two expiry indexes |
| `RefreshSimulation`, `RefreshEquivalence` | Redis simulates the manager, call by call and over whole runs |
| `RefreshLaw`, `RefreshRedisLaw` | every answer of a run, in memory and in Redis, told from the earlier calls alone |
| `BrowserMemory`, `BrowserManager` | browser sessions in memory |
| `BrowserScripts`, `BrowserStore` | browser sessions in Redis: five linked objects |
| `BrowserSimulation`, `BrowserRuns` | the five-object invariant; renames caught between read and compare-and-swap |
| `BrowserHistory` | who is verified, listed and admitted, told from the earlier calls alone, for both stores |
| `DeliveryBudget`, `DeliveryRuns` | the time budget of a reliable delivery; handler loop, lease extension and settlement |
| `DeadLetterIds`, `DeliveryBroker` | delivery over JetStream with redelivery, lost replies and crashes |
| `CircuitBreaker`, `RedisLock`, `HealthCache`, `CancellationRegistry` | small concurrent state machines |
| `CircuitBreakerLaw`, `HealthLaw` | the breaker told from its log of requests and results; every health report told from the run |
| `QueueHeaders`, `EventStream`, `EventClient`, `AuditChain`, `Fingerprint` | fast forms and codecs |
| `Common`, `Decimals` | shared notions |

Results that differ from what one might expect of the code:

- `RevokeUser` and `ActiveFamilies` in Redis answer zero and do nothing once the index of a user holds more than 10000
  entries. Creation prunes only the global index, so the user index does outgrow the bound
  (`RefreshEquivalence.RevokeUserCanFail`). `RevokeUserAgreesExactly` and `ActiveFamiliesAgreesExactly` give the exact
  condition. Replay protection does not depend on it (`RedisAcceptsAtMostOnce`, `RedisReplayEndsFamily`).
- The audit log is accepted exactly when every written record is valid UTF-8. A request ID with an invalid byte passes
  validation and is written, and the log is refused from there on (`AuditChain.BadByteBreaksLog`): the writer hashes an
  escaped replacement character, the verifier a plain one.
- If a lease renewal counted from the start of its call, the time since then could exceed the lease minus its margin by
  up to the extension timeout less one. The lease would suffice for every handler timeout if and only if the margin is at
  least that (`DeliveryRuns.CountingFromStartNeedsMargin`).
- A dead-letter identifier is unique if and only if the names of its source have no NUL
  (`DeadLetterIds.UniqueExactlyWithoutNul`).

## Model

| member | source | states |
|---|---|---|
| RefreshManager.SessionManager.CleanupLocked | Framework/auth/session.go:314-325 | every family past its absolute lifetime goes together with exactly the hashes that lead to it; nothing else changes |
| RefreshManager.SessionManager.Start | Framework/auth/session.go:102-156 | the object ends in the state and with the outcome of the specification: limit, capped expiry, one new family |
| RefreshManager.SessionManager.Rotate | Framework/auth/session.go:159-228 | every branch of rotation, with the exact new maps and error |
| RefreshManager.SessionManager.RevokeFamily | Framework/auth/session.go:231-261 | the family of the token is marked and nothing else, or the exact failure |
| RefreshManager.SessionManager.RevokeUser | Framework/auth/session.go:264-287 | exactly the usable families of the user are marked, and the count is their number |
| RefreshManager.SessionManager.ActiveFamilies | Framework/auth/session.go:290-312 | the count is the number of usable families of the user |
| RefreshMemory.StepKeepsInv | Framework/auth/session.go:102-325 | every call keeps the token map the disjoint union of current and used hashes over the families |
| RefreshMemory.StepKeepsBound | Framework/auth/session.go:128-131 | every call keeps at most MaxFamilies families of at most 1024 used hashes |
| RefreshRuns.EveryStateExact | Framework/auth/session.go:159-228 | in every run the token map is exact at every point |
| RefreshRuns.EveryStateBounded | Framework/auth/session.go:211-214 | in every run the bounds hold at every point |
| RefreshRuns.StaysBound | Framework/auth/session.go:223-226 | in every run a hash leads to its family, or to nothing once the family is gone, and a revoked family stays revoked |
| RefreshRuns.AcceptedAtMostOnce | Framework/auth/session.go:159-228 | in every run a refresh token is accepted by at most one rotation |
| RefreshRuns.ReplayEndsFamily | Framework/auth/session.go:193-210 | once an accepted token is presented again, no token of its family is ever accepted |
| RefreshRuns.DrawnRunIsValid | Framework/auth/session.go:133-156 | any calls at all that draw distinct identifiers and tokens are a run of the manager |
| RefreshLaw.HistoryIsChain | Framework/auth/session.go:159-228 | the history of a family is its accepted start followed by accepted rotations, each of the token that the one before handed out |
| RefreshLaw.EveryFamilyLinked | Framework/auth/session.go:102-325 | in every run the manager holds a family exactly while its history is within its lifetime, and every field of the record follows from that history and the calls since |
| RefreshLaw.AcceptedExactly | Framework/auth/session.go:159-228 | in every run a rotation is accepted if and only if it presents the latest token of a family that no call has ended, both lifetimes lie ahead and fewer than 1024 rotations were accepted; it answers min(now + refreshTTL, start + absoluteTTL); after 1024 it answers the limit |
| RefreshLaw.RotateFollowsHistory | Framework/auth/session.go:159-228 | in every run the answer to any token of a family within its lifetime: exchange, replay, expired, limit, or why the family ended |
| RefreshLaw.UnreachedIsRefused | Framework/auth/session.go:167-184 | in every run a token of no family within its lifetime is refused as invalid or expired |
| RefreshLaw.UnknownIsInvalid | Framework/auth/session.go:178-184 | in every run a token that no accepted call handed out is invalid |
| RefreshLaw.RevokeFollowsHistory | Framework/auth/session.go:231-261 | in every run revoking by any token of a family within its lifetime succeeds, unless the family was found expired before |
| RefreshLaw.StartedExactly | Framework/auth/session.go:102-156 | in every run a start is accepted if and only if fewer than MaxFamilies accepted starts lie less than absoluteTTL back |
| RefreshLaw.CountedExactly | Framework/auth/session.go:264-312 | in every run both user-wide calls count exactly the accepted starts of the user whose families no call has ended and whose latest tokens last |
| RefreshLaw.ThousandRotations | Framework/auth/session.go:211-228 | from one start 1024 rotations in a row are accepted, and the next one meets the limit |
| RefreshStore.RedisSessions.CreateScript | Framework/sharedstate/session_store.go:23-45 | pruning, limit, collision and expiry checks in order, then all five writes or none |
| RefreshStore.RedisSessions.Validate | Framework/sharedstate/session_store.go:76-103 | accepts exactly the consistent families: well-formed hash, used set and mappings that agree, both scores |
| RefreshStore.RedisSessions.RotateScript | Framework/sharedstate/session_store.go:51-130 | exact store and reply of rotation; reply 1 writes nothing, from any store |
| RefreshStore.RedisSessions.RevokeFamilyScript | Framework/sharedstate/session_store.go:134-187 | exact store and reply; every reply but success writes nothing, from any store |
| RefreshStore.RedisSessions.RevokeUserScript | Framework/sharedstate/session_store.go:189-237 | the first loop validates every index entry and records its state; by these states the second drops exactly the stale entries and marks exactly the usable families; reply -1 writes nothing |
| RefreshStore.RedisSessions.ActiveFamiliesScript | Framework/sharedstate/session_store.go:239-286 | the same sweep without marking, and the count of usable families |
| RefreshScripts.RotateIsContained | Framework/sharedstate/session_store.go:104-129 | from any store, even a corrupted one: rotation touches one family and the next token only, brings no revoked family back, and succeeds only for the current token of an unrevoked, unexpired family |
| RefreshSimulation.CreateRepresents | Framework/sharedstate/session_store.go:23-45 | creation keeps the store a representation of the live families and refuses when they reach the limit |
| RefreshSimulation.RotateSimulates | Framework/sharedstate/session_store.go:51-130 | one rotation on both stores succeeds on both with equal expiry or fails on both, and leaves equal live families |
| RefreshSimulation.RevokeFamilySimulates | Framework/sharedstate/session_store.go:134-187 | one family revocation leaves equal live families |
| RefreshSimulation.RevokeUserSimulates | Framework/sharedstate/session_store.go:189-237 | equal counts and equal live families when the user index fits |
| RefreshSimulation.ActiveFamiliesSimulates | Framework/sharedstate/session_store.go:239-286 | equal counts when the user index fits |
| RefreshEquivalence.StepSimulates | Framework/sharedstate/session_store.go:291-440 | any call with its Go wrapper, on any index size: equal live families and equal answers up to the error code; a user-wide call on too large an index answers zero and leaves the store as it was |
| RefreshEquivalence.RunSimulates | Framework/sharedstate/session_store.go:23-286 | over every run of Redis, at every call the manager that gets the same calls holds the same live families and answers alike, where a call refused for the size of an index counts as one that only counts |
| RefreshEquivalence.ManagerRuns | Framework/auth/session.go:102-325 | what the manager goes through in the theorem above is one of its own runs with fresh random values |
| RefreshEquivalence.FittingRunIsFollowed | Framework/sharedstate/session_store.go:189-286 | as long as every index fits, the manager gets exactly the calls of Redis |
| RefreshEquivalence.RedisAcceptsAtMostOnce | Framework/sharedstate/session_store.go:104-129 | in every run, whatever the size of the indexes, Redis accepts a refresh token at most once |
| RefreshEquivalence.RedisReplayEndsFamily | Framework/sharedstate/session_store.go:105-112 | in every run, once an accepted token is presented again, Redis accepts no token that leads to its family |
| RefreshEquivalence.DrawnIsUnwritten | Framework/sharedstate/session_store.go:23-130 | in every run of Redis what a call draws is not in the store |
| RefreshRedisLaw.RedisAcceptedExactly | Framework/sharedstate/session_store.go:51-130 | the rotation law of the manager, word for word, over every run of Redis: accepted if and only if the token is the latest of a family that no call has ended, in time and below 1024 rotations |
| RefreshRedisLaw.RedisRotateFollowsHistory | Framework/sharedstate/session_store.go:104-129 | in every run the answer of Redis to any token of a family within its lifetime; a replay comes before an expired token |
| RefreshRedisLaw.RedisUnreachedIsInvalid | Framework/sharedstate/session_store.go:62-75 | in every run a token of no family within its lifetime is invalid in Redis |
| RefreshRedisLaw.RedisRevokeFollowsHistory | Framework/sharedstate/session_store.go:134-187 | in every run revoking by a token of a family within its lifetime succeeds in Redis if and only if no call has ended the family |
| RefreshRedisLaw.RedisStartedExactly | Framework/sharedstate/session_store.go:23-45 | in every run Redis accepts a start if and only if fewer than MaxFamilies accepted starts lie less than absoluteTTL back |
| RefreshRedisLaw.RedisCountedExactly | Framework/sharedstate/session_store.go:189-286 | in every run Redis counts what the manager counts while the index of the user has at most 10000 entries, and zero otherwise |
| RefreshRedisLaw.RedisThousandRotations | Framework/sharedstate/session_store.go:116-129 | Redis attains 1024 accepted rotations and then the limit as well |
| RefreshEquivalence.RevokeUserAgreesExactly | Framework/sharedstate/session_store.go:189-237 | RevokeUser agrees with the manager if and only if the user index fits or nothing is usable |
| RefreshEquivalence.ActiveFamiliesAgreesExactly | Framework/sharedstate/session_store.go:239-286 | ActiveFamilies agrees with the manager if and only if the user index fits or nothing is usable |
| RefreshEquivalence.IndexGrows | Framework/sharedstate/session_store.go:23-45 | n creations one after the other's lifetime leave n entries in the user index |
| RefreshEquivalence.RevokeUserCanFail | Framework/sharedstate/session_store.go:402-420 | after 10001 such creations Redis revokes nothing where the manager revokes one family |
| BrowserManager.BrowserSessionManager.Start | Framework/auth/browser_session.go:151-213 | exact sessions and outcome: claim checks, capped expiry, both limits, collision |
| BrowserManager.BrowserSessionManager.ListForSubject | Framework/auth/browser_session.go:257-289 | the listing holds exactly the live sessions of the subject, each once, newest first and then by identifier |
| BrowserManager.BrowserSessionManager.RevokeForSubject | Framework/auth/browser_session.go:292-318 | exactly the session that the identifier names for the subject goes, or the call fails |
| BrowserManager.BrowserSessionManager.RevokeAllForSubject | Framework/auth/browser_session.go:321-344 | exactly the live sessions of the subject go, and the count is their number |
| BrowserManager.BrowserSessionManager.SetDeviceNameForSubject | Framework/auth/browser_session.go:349-381 | only the device name of the named session changes |
| BrowserMemory.StepKeepsIds | Framework/auth/browser_session.go:151-402 | every call keeps public identifiers distinct and inserts nothing but the session it starts |
| BrowserHistory.VerifiedExactly | Framework/auth/browser_session.go:216-254 | in every run Verify answers with claims if and only if an accepted Start was given these claims and, when one is sent, that CSRF secret, no call has ended the session since, and now is before min(start + ttl, claims expiry) |
| BrowserHistory.StartedExactly | Framework/auth/browser_session.go:151-213 | in every run Start makes a session if and only if the claims are complete, unexpired and issued at most five seconds ahead, and fewer sessions live than are allowed in all and for the subject |
| BrowserHistory.ListedExactly | Framework/auth/browser_session.go:257-289 | in every run a listing holds exactly the living sessions of the subject, with the times of their starts and the names of their last renames |
| BrowserHistory.NamedExactly | Framework/auth/browser_session.go:292-381 | in every run revoking or renaming by a public identifier succeeds if and only if a living session of the subject has it |
| BrowserHistory.EndedExactly | Framework/auth/browser_session.go:321-402 | in every run revoking all counts the living sessions of the subject, and ending a living session succeeds |
| BrowserStore.RedisBrowserSessions.UpdateDeviceNameScript | Framework/sharedstate/browser_session_store.go:183-213 | the payload is replaced, with its time to live, exactly when both links, the old payload and both scores are still there; otherwise nothing changes |
| BrowserStore.RedisBrowserSessions.DeleteForSubjectScript | Framework/sharedstate/browser_session_store.go:214-246 | validates every entry, then deletes all listed sessions and the index |
| BrowserStore.RedisBrowserSessions.ListInventoryScript | Framework/sharedstate/browser_session_store.go:247-301 | lists exactly the decoded records of the entries with the lowest scores up to the limit, or refuses when one of them is inconsistent |
| BrowserStore.ZRange | Framework/sharedstate/browser_session_store.go:272-272 | picks as many entries as the limit allows, none of which has a higher score than one left out |
| BrowserScripts.DeleteForSubjectAllOrNothing | Framework/sharedstate/browser_session_store.go:214-246 | from any store: a refusal loses expired index entries at most; success deletes exactly the unexpired listed sessions, as many distinct identifiers as sessions |
| BrowserScripts.EntryIdsDistinct | Framework/sharedstate/browser_session_store.go:226-238 | from any store, two accepted entries never share an identifier |
| BrowserSimulation.LiveIndexIsDisjointUnion | Framework/sharedstate/browser_session_store.go:69-74 | the live global index is the disjoint union of the live subject indexes |
| BrowserSimulation.IndexesAreSessions | Framework/sharedstate/browser_session_store.go:57-68 | live index sizes are the numbers of live sessions, globally and per subject |
| BrowserSimulation.IdIsRead | Framework/sharedstate/browser_session_store.go:125-145 | an identifier maps to a session if and only if exactly that session matches it for its owner |
| BrowserSimulation.CreateSimulates | Framework/sharedstate/browser_session_store.go:31-76 | creation succeeds or meets a limit exactly as the live sessions count, and inserts exactly the new session |
| BrowserSimulation.StartSimulates | Framework/auth/browser_session.go:187-211 | Start decides alike with either store |
| BrowserSimulation.VerifySimulates | Framework/sharedstate/browser_session_store.go:380-413 | Verify answers alike for every live session and fails for any other |
| BrowserSimulation.ListSimulates | Framework/sharedstate/browser_session_store.go:443-474 | both list the same sessions |
| BrowserSimulation.RevokeSimulates | Framework/sharedstate/browser_session_store.go:477-497 | revocation by identifier acts and answers alike |
| BrowserSimulation.RevokeAllSimulates | Framework/sharedstate/browser_session_store.go:561-579 | subject-wide revocation deletes the same sessions with the same count |
| BrowserSimulation.EndSimulates | Framework/sharedstate/browser_session_store.go:416-438 | a live session ends in both; otherwise Redis changes nothing |
| BrowserSimulation.BeginReads | Framework/sharedstate/browser_session_store.go:146-182 | the read of a rename succeeds exactly for a live session of the subject, and remembers its record |
| BrowserSimulation.FinishSwaps | Framework/sharedstate/browser_session_store.go:183-213 | the swap succeeds if and only if the session is live with the record that was read; then only its device name changes, otherwise nothing |
| BrowserRuns.ActKeepsBound | Framework/sharedstate/browser_session_store.go:57-68 | every step keeps both indexes within the limits, from any store within them |
| BrowserRuns.RunSimulates | Framework/sharedstate/browser_session_store.go:503-558 | over every run with renames caught half-way, the five-object invariant holds and Redis answers like a manager whose renames happen at their swap |
| BrowserRuns.RenameIsAtomic | Framework/sharedstate/browser_session_store.go:503-558 | in every run a successful rename changes at its swap the device name of one session live then, owned by the caller's subject; a failed one changes nothing |
| BrowserRuns.RevokedNeverReappears | Framework/sharedstate/browser_session_store.go:499-502 | in every run a session that was revoked, ended or expired has no payload again and verifies no more |
| BrowserRedisHistory.RedisVerifiedExactly | Framework/sharedstate/browser_session_store.go:380-413 | in every run of Redis Verify answers with claims under exactly the same condition on earlier calls |
| BrowserRedisHistory.RedisStartedExactly | Framework/sharedstate/browser_session_store.go:322-377 | in every run of Redis Start makes a session under exactly the same condition on earlier calls |
| BrowserRedisHistory.RedisNamedExactly | Framework/sharedstate/browser_session_store.go:477-558 | in every run of Redis revoking or renaming by a public identifier succeeds under exactly the same condition on earlier calls |
| DeliveryBudget.DeliveryBackoff | Framework/queueclient/worker.go:575-587 | doubling with early exit equals min(Initial * 2^(n-1), Max), without overflow of 64 bits |
| DeliveryBudget.MaximumDeliveryBackoff | Framework/queueclient/worker.go:605-612 | the longest jittered backoff, positive and without overflow |
| DeliveryBudget.AddDeliveryBudget | Framework/queueclient/worker.go:614-620 | succeeds if and only if the term is positive and the sum fits 64 bits |
| DeliveryBudget.MinimumDeliveryLease | Framework/queueclient/worker.go:116-165 | a lease is returned if and only if the configuration is valid and the exact sum fits 64 bits, and it is that sum |
| DeliveryBudget.DefaultLease | Framework/queueclient/worker.go:622-637 | with every value at its default the lease is three handler timeouts, 450 milliseconds of backoff, three seconds and the margin |
| DeliveryRuns.SettlementIsSafe | Framework/queueclient/worker.go:386-535 | in every interleaving: settlement starts only after every ExtendLease call that started has returned with success; at most one settlement starts; each is justified by the attempts; the plan loop never falls through |
| DeliveryRuns.OutcomeFollowsEndings | Framework/queueclient/worker.go:386-535 | in every run what is planned, started and returned follows from the endings of the attempts: acknowledgement if and only if the last one succeeded; dead letter, unless the delivery is cancelled, if and only if it was permanent or the last allowed one; giving up only when it is cancelled |
| DeliveryRuns.EndingDecides | Framework/queueclient/worker.go:430-451 | the plan that each ending of an attempt leads to: acknowledgement after success; while the delivery is not cancelled, dead letter after a permanent failure or the last allowed one, and otherwise a backoff within its bounds |
| DeliveryRuns.SettlementDecides | Framework/queueclient/worker.go:505-535 | unless the worker is cancelled or an extension failed, joining starts exactly the settlement that is due, and a callback in its timeout returns Acknowledged or DeadLettered on success |
| DeliveryRuns.EveryAttemptCanSettle | Framework/queueclient/worker.go:386-535 | without lease extension, for every allowed number of attempts some run acknowledges after its last one succeeds, and after the last allowed one fails some run dead-letters |
| DeliveryRuns.FirstAttemptCanSettle | Framework/queueclient/worker.go:386-451 | with lease extension, some run acknowledges after a first attempt that returns nil, and some run dead-letters after one that fails for good |
| DeliveryRuns.StepKeepsLoop | Framework/queueclient/worker.go:430-451 | every step keeps the invariant of the attempts loop and the plan |
| DeliveryRuns.StepKeepsExtension | Framework/queueclient/worker.go:453-494 | every step keeps the invariant of the extension goroutine |
| DeliveryRuns.StaticLeaseIsSound | Framework/queueclient/worker.go:143-164 | without extension, every run is over, settlement included, within the lease minus its margin |
| DeliveryRuns.StaticLeaseIsTight | Framework/queueclient/worker.go:143-164 | some run is still settling exactly then |
| DeliveryRuns.ExtendedLeaseIsSound | Framework/queueclient/worker.go:127-141 | with extension, the time since the last successful return never exceeds the lease minus its margin until a call fails, and then nothing is settled |
| DeliveryRuns.StartCountedGap | Framework/queueclient/worker.go:127-141 | in every run, until a call fails, the time since the start of the last successful call exceeds the lease minus its margin by less than the extension timeout |
| DeliveryRuns.LateRenewalOverruns | Framework/queueclient/worker.go:453-494 | some faultless run attains each of these excesses, the largest included, when an attempt may last until the second call |
| DeliveryRuns.StartCountedLeaseExactly | Framework/queueclient/worker.go:127-141 | counted from the start, the lease suffices in every run if and only if the margin is at least the extension timeout less one, or the attempts cannot last past the second call by more than the margin |
| DeliveryRuns.CountingFromStartNeedsMargin | Framework/queueclient/worker.go:127-141 | counted from the start, the lease suffices for every handler timeout if and only if the margin is at least the extension timeout less one |
| DeadLetterIds.IdIsInjective | Framework/queueclient/natsjetstream/adapter.go:663-685 | the identifier determines stream, consumer and sequence when the names have no NUL |
| DeadLetterIds.NulsCollide | Framework/queueclient/natsjetstream/adapter.go:663-685 | with NUL in a name two different sources share an identifier |
| DeadLetterIds.UniqueExactlyWithoutNul | Framework/queueclient/natsjetstream/adapter.go:663-685 | a source shares its identifier with no other if and only if its names have no NUL |
| DeliveryBroker.NoLoss | Framework/queueclient/natsjetstream/adapter.go:407-550 | in every run a message is acknowledged only if some handler returned nil in its budget or its dead letter is stored; any other message can be delivered again |
| DeliveryBroker.ConfirmedIsStored | Framework/queueclient/natsjetstream/adapter.go:537-546 | a confirmed publish means this message's record is stored, also when the broker deduplicated it |
| DeliveryBroker.OneDeadLetterEach | Framework/queueclient/natsjetstream/adapter.go:533-537 | with an unbounded deduplication window each message has at most one dead letter in every run |
| DeliveryBroker.CanBeHandled | Framework/queueclient/worker.go:386-451 | from every reachable state a message that is not acknowledged can be delivered again, handled and acknowledged |
| DeliveryBroker.CanBeRejected | Framework/queueclient/natsjetstream/adapter.go:407-550 | from every reachable state a message that is not acknowledged, or cannot be converted, can come to the publication of its dead letter |
| DeliveryBroker.CanBeQuarantined | Framework/queueclient/natsjetstream/adapter.go:520-550 | from every reachable state such a publication can store the dead letter and acknowledge the message |
| CircuitBreaker.Breaker.record | Framework/httpclient/circuit_breaker.go:127-180 | exact new state; the observation says exactly when it opened or closed |
| CircuitBreakerRuns.EveryState | Framework/httpclient/circuit_breaker.go:105-180 | for any overlapping requests: a probe is in flight if and only if one unrecorded probe of this generation exists; a current permit without a probe means closed; failures is the trailing run of failures of this generation, below the threshold |
| CircuitBreakerRuns.StaleChangesNothing | Framework/httpclient/circuit_breaker.go:132-134 | results of earlier generations change nothing |
| CircuitBreakerRuns.OpenStaysOpen | Framework/httpclient/circuit_breaker.go:113-118 | after it opens, every request before the opening plus the timeout is rejected, whatever is recorded meanwhile |
| CircuitBreakerLaw.AdmissionIsExact | Framework/httpclient/circuit_breaker.go:105-125 | in every run a request is admitted if and only if the log of requests and results says closed, or open since at least the timeout with no probe out; in the second case it is a probe |
| CircuitBreakerLaw.ProbeDecides | Framework/httpclient/circuit_breaker.go:135-161 | a good result of the probe closes the breaker, a bad one reopens it at its own time, and one that is cancelled lets the next request probe |
| RedisLock.OneHolderPerProcess | Framework/sharedstate/redis.go:557-595 | in every run one call per process holds the gate of a key at most, even after its lease lapsed and across new gates; refs is the number of users; sending the token back never blocks |
| RedisLock.OverlapNeedsLapse | Framework/sharedstate/redis.go:492-535 | two calls hold the lock together only after the time to live of one of them has lapsed |
| RedisLock.OnlyOwnerUnlocks | Framework/sharedstate/redis.go:39-44 | an unlapsed lease is removed only by the unlock of its own owner, and never replaced |
| RedisLock.StepKeepsGates | Framework/sharedstate/redis.go:557-595 | every step keeps gates current, reference counts exact and tokens unique |
| RedisLock.TokenIsFree | Framework/sharedstate/redis.go:492-535 | in every run a waiting call can take the token of its gate if and only if no other call of its process has it |
| RedisLock.FreeLockCanBeTaken | Framework/sharedstate/redis.go:492-535 | from every reachable state a free lock can be taken by a process that does not use it, with a lease for the whole time to live |
| RedisLock.HolderCanUnlock | Framework/sharedstate/redis.go:537-595 | from every reachable state a holder can unlock: the lease goes if it was still its own, the call ends and the next waiting call can take the token |
| HealthCache.NoStaleReport | Framework/health/checker.go:56-75 | after Register has returned, no later call returns a report computed without the check |
| HealthCache.NotReadyWhileDraining | Framework/health/checker.go:77-103 | while draining stays on, no call that began under it returns ready |
| HealthCache.RefreshesAreSingle | Framework/health/checker.go:201-213 | at most one refresh runs, and each channel is closed exactly once |
| HealthCache.StepKeepsCovers | Framework/health/checker.go:110-116 | a refresh that loaded a revision has every check that revision counts |
| HealthLaw.ReportIsExplained | Framework/health/checker.go:92-126 | in every run a call answers draining only if draining was on between its start and its return, cancelled only after its own cancellation, and anything else is the result of a run of the checks |
| HealthLaw.CallFollows | Framework/health/checker.go:92-126 | a call that finds draining off and an unexpired cache returns exactly that report, and one that finds it expired never does |
| HealthLaw.CacheIsCurrentRun | Framework/health/checker.go:110-213 | in every run the cached report is the result of a finished run of the checks at the current revision |
| HealthLaw.ReadyIsEarned | Framework/health/checker.go:92-126 | in every run a call returns ready if and only if it was handed the unexpired result of a finished run of the checks in which every one passed |
| HealthLaw.LoneCallIsAnswered | Framework/health/checker.go:92-213 | while nothing else goes on, a call on an undrained checker with an expired cache runs the checks and returns their result |
| CancellationRegistry.ShutdownIsComplete | Framework/httpapi/event_stream.go:246-309 | once cancelAll has returned no lifetime is active, and each has been unregistered or has had its latest cancel function called, or its register or replace is about to call it |
| CancellationRegistry.SecondShutdownWaits | Framework/httpapi/event_stream.go:290-295 | a second cancelAll returns only when the first is done, and changes nothing |
| CancellationRegistry.ActiveExactly | Framework/httpapi/event_stream.go:246-309 | in every run a lifetime is active, with the function it was given last, exactly until it is unregistered or swept; one registered after shutdown began never is |
| CancellationRegistry.CalledWhenDue | Framework/httpapi/event_stream.go:246-309 | in every run no function is called or about to be called unless its lifetime was swept with it, or it was given to a lifetime that was no longer active |
| CancellationRegistry.NothingCancelledEarly | Framework/httpapi/event_stream.go:246-288 | before shutdown a function is called only if it replaced that of an unregistered lifetime |
| CancellationRegistry.SweepEnds | Framework/httpapi/event_stream.go:290-309 | in every run a cancelAll that has begun can always go on, each step brings it nearer to its end and no other event sets it back |
| HeaderNames.FoldedHeaderNameHash | Framework/queueclient/client.go:349-364 | the hash is that of the lower-case form, so names equal ignoring case share it |
| HeaderNames.InsertFoldedHeaderName | Framework/queueclient/client.go:333-347 | reports a duplicate if and only if a name equal ignoring case was inserted, and otherwise finds a slot |
| HeaderNames.EmptySlotMeansAbsent | Framework/queueclient/client.go:335-343 | an empty slot on the probing path means that no equal name is stored |
| HeaderValidation.ValidateHeaders | Framework/queueclient/client.go:219-309 | for every map order and count: accepted if and only if count and bytes are within limits, all names and values are valid, and no two names are equal ignoring case; every refusal names a true reason |
| HeaderValidation.ValidateBoundedHeaders | Framework/queueclient/client.go:311-331 | the same for 9 to 64 headers through the fixed table |
| HeaderNames.ValidHeaderName | Framework/queueclient/client.go:378-391 | accepts exactly the non-empty visible ASCII names |
| HeaderNames.ValidHeaderValue | Framework/queueclient/client.go:366-376 | accepts exactly the values without NUL, LF and CR |
| EventFormat.DataEncodedLength | Framework/httpapi/event_stream.go:473-487 | the scanned length is the length of the encoded data fields |
| EventFormat.Utf8Exactly | Framework/httpapi/event_stream.go:405-425 | the accepted strings are exactly the encodings of sequences of code points |
| EventWriter.Writer.WriteData | Framework/httpapi/event_stream.go:489-504 | one field per line of the data, as CR, LF and CR LF break it |
| EventWriter.Writer.WriteEvent | Framework/httpapi/event_stream.go:405-471 | an event that is invalid or too long sends nothing; any other sends exactly its encoding, or the part of it that a failing connection still takes |
| EventWriter.Writer.RunStream | Framework/httpapi/event_stream.go:375-403 | the stream holds exactly the encodings up to the first event that cannot be written, or up to where the connection failed |
| EventClient.LinesAreNormalized | Framework/httpapi/event_stream.go:489-504 | the lines joined by LF are the data with CR and CR LF turned into LF |
| EventClient.RoundTrip | Framework/httpapi/event_stream.go:375-514 | reading encoded events with heartbeats between them, by section 9.2.6 of the HTML Living Standard, yields exactly those events with normalised data |
| EventClient.StreamIsRead | Framework/httpapi/event_stream.go:375-514 | the same for the whole stream and a fresh client |
| AuditRecords.RecordRoundTrip | Framework/httpapi/security_audit_chain.go:321-331 | encoding, decoding and encoding again is stable if and only if the record is valid UTF-8 |
| AuditChain.HashChainSink.WriteSecurityAudit | Framework/httpapi/security_audit_chain.go:298-344 | appends exactly one linked line or changes nothing |
| AuditChain.ChainVerifier.VerifyLine | Framework/httpapi/security_audit_chain.go:377-407 | accepts exactly the lines that continue the chain |
| AuditChain.VerifyHashChain | Framework/httpapi/security_audit_chain.go:348-368 | verdict and count of the whole log |
| AuditChain.LogIsAccepted | Framework/httpapi/security_audit_chain.go:298-416 | the log of any calls, rejected ones included, is accepted if and only if every written record is valid UTF-8, with a count equal to the successes |
| AuditChain.AcceptedIsWritten | Framework/httpapi/security_audit_chain.go:348-416 | the verifier accepts exactly the lines that a sink writes for the valid records they hold, up to the spelling of strings: a line that is changed, dropped, repeated or moved is refused |
| AuditChain.SameDigestSameRecords | Framework/httpapi/security_audit_chain.go:409-416 | two accepted logs with the same last digest hold the same records |
| AuditChain.BadByteBreaksLog | Framework/httpapi/security_audit_chain.go:418-445 | a valid record with an invalid byte is written and makes the log refused |
| FingerprintPaths.RequestFingerprint | Framework/httpapi/idempotency_fingerprint.go:83-132 | both paths hash exactly the length-prefixed encoding of the parts, within the fixed buffer |
| FingerprintPaths.AppendFingerprint | Framework/httpapi/idempotency_fingerprint.go:144-154 | writes one part at the offset and nothing beyond it |
| FingerprintPaths.InlineFingerprint | Framework/httpapi/idempotency_fingerprint.go:101-114 | the buffered path hashes the encoding and never leaves the buffer |
| FingerprintPaths.StreamedFingerprint | Framework/httpapi/idempotency_fingerprint.go:117-131 | the streaming path hashes the same encoding |
| FingerprintEncoding.EncodeIsInjective | Framework/httpapi/idempotency_fingerprint.go:187-191 | the encoding is uniquely decodable |
| FingerprintEncoding.FingerprintIsInjective | Framework/httpapi/idempotency_fingerprint.go:83-132 | equal fingerprints mean equal requests, but for the case of header names |
| FingerprintBinding.SameKeySameRequest | Framework/httpapi/idempotency_fingerprint.go:34-71 | while a binding lasts its key is granted again if and only if the request has the same parts |
| FingerprintBinding.GrantedExactly | Framework/httpapi/idempotency_fingerprint.go:34-71 | in every run a request is refused if and only if the attempt that bound its key had another fingerprint and the response lifetime and a minute are not over |

## Left out

- RefreshManager.SessionManager.Rotate: the two maps of the manager hold family records as values keyed by identifier, so that both maps point at one record in memory is not captured; a failing random source is not modelled.
- RefreshEquivalence.RunSimulates: error codes may differ, because the manager tests expiry before replay and Redis the other way round, and revoking a family twice is an error in Redis only. RefreshLaw and RefreshRedisLaw give the codes of each.
- RefreshLaw.UnreachedIsRefused: whether a family past its lifetime answers invalid or expired depends on whether a later call has removed it, which is not told from the calls.
- BrowserManager.BrowserSessionManager.ListForSubject: the order of strings is a parameter.
- BrowserStore.RedisBrowserSessions.ListInventoryScript: which of the entries with equal scores come first is left open.
- BrowserRuns.RunSimulates: a session the manager has not cleaned up yet may answer another error than Redis, and End succeeds on it in the manager only.
- CircuitBreaker.Breaker.record: the generation counter does not wrap at 64 bits; a transport that panics never records.
- HealthCache.NoStaleReport: the revision counter does not wrap at 64 bits; how a report is gathered from the checks is one step.
- RedisLock.OneHolderPerProcess: one key; keys share no state but the owner and gate maps, which are keyed by it. Waiting times are left open.
- AuditChain.LogIsAccepted: a line is its decoded envelope and its length, not its text; event, outcome, reason and target are ordinary strings.
- EventWriter.Writer.RunStream: the choice between events, heartbeats and the end of the context is part of the items; buffering is not modelled.
- DeliveryBroker.NoLoss: the content of messages and dead letters, and negative acknowledgements.
- CancellationRegistry.ShutdownIsComplete: claim and complete of a stream lifetime appear as the replace and unregister calls they make.
- FingerprintBinding.SameKeySameRequest: the external storage, which reads and then sets; media type and principal are given.
- DeliveryRuns.StartCountedLeaseExactly: for attempts that are each shorter than two intervals and the margin but longer together, only that the margin suffices is proved.
- Redis keys of a wrong type or without a time to live, the limit of 64 KiB on a payload, and the number and string rules of Lua beyond the validators of the scripts.
- Raw secrets, subjects, user names and claims beyond what the checks here need: their syntax is validated before the modelled code runs.
- The text of error messages, observers, spans and metrics.
- Start, Shutdown and Wait of a worker group: lifecycle code in which Shutdown can miss a cancel function that is not set yet.
- AES-GCM encryption of the audit log, key rotation, and the authorization-request store.
- HTTP, TLS, JSON Web Token and database code, which depends on libraries whose code is not shown.
- Fairness: that a waiting call is served in the end. What is proved of progress is that the next steps are possible, and that every loop ends.
- The user interface and the generated clients.
