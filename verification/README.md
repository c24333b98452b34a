# Verified models of gorbital's protocols and state machines

gorbital is mostly composition, but a few of its packages make promises about whole runs: what every
interleaving of requests, writers, timers and readers keeps. This project models those packages in Dafny and proves the
promises.

Each protocol is a state machine: a value for the whole state, a datatype of steps, a total `Next` (a step that is
not enabled does nothing) and a `Run` over any sequence of steps, so a theorem about `Run` covers every interleaving,
crash, delay and loss. Where the Go code updates fields in place, a class does the same statement by
statement and each method is proved to take exactly the protocol's step; other goroutines' or callers' steps run between its
statements as a schedule given to the method.

| files | package | what is proved |
|---|---|---|
| `IdempotencyTable`, `IdempotencyProtocol`, `IdempotencyStore`, `IdempotencyRecorder`, `IdempotencyMiddleware` | `modules/idempotency` | fencing, exclusion, replay safety, when a retry gets the same response, `serve` |
| `TimeoutWriter` | `httpx/timeout` | one voice per response, the timeout answer, transparency |
| `FlagState`, `FlagStore`, `FlagCache`, `VersionedCache`, `JobOverrides` | `modules/flags`, `modules/jobs` | evaluation, optimistic concurrency, pruned histories, cache agreement |
| `Shutdown`, `ShutdownRecord` | `app` | order and error accounting of a shutdown, what each error means, cleanup |
| `RateLimiter`, `RateEviction`, `RateExact` | `ratelimit` | exactly when eviction is invisible and the rate bound holds, exact waits, refusals only at the bound |
| `RingBuffer` | `modules/devconsole` | the ring, and conservation for subscribers |
| `IpFilter` | `httpx/ipfilter` | ranges as sets, canonical forms, the decision |
| `Redaction`, `KeySpelling` | `modules/auditpg` | which keys are secrets however they are spelled, what redaction leaves and keeps |
| `Catalog` | `modules/auth`, `actor` | from declared roles to a decision |
| `Migrations` | `gorbital` | the merged history, and reading it page by page |
| `Basics`, `Strings`, `Ordering`, `Http`, `Actors` | | Go's string splitting, order, sort, compact and binary search; how net/http turns calls into a response; actor kinds |

`dafny verify dfyconfig.toml` checks everything.

## Where a promise holds only on a condition

- *A retry gets the same response* (modules/idempotency/idempotency.go:1-20): not when a handler reaches past the
  recorder. The recorder can be unwrapped (modules/idempotency/middleware.go:268-269), so a flush or a hijack through
  http.ResponseController commits something the recorder does not see; net/http takes 101 Switching Protocols as final while
  the recorder does not; and net/http guesses a missing Content-Type from what is written before the first flush, which a
  retry does not repeat. `IdempotencyRecorder.RetryGetsTheSame` gives the exact condition on the handler's calls, for
  every sequence of them and every way of guessing types. `IdempotencyRecorder.SwitchedThenDone`, `FlushedThenFailed`,
  `TakenOverThenStored` and `SniffedInParts` are stored responses no client saw.
- *Responses that set cookies or say no-store are not stored* (modules/idempotency/idempotency.go:16-19): what the recorder
  looks at are the headers when the handler chooses its status. A flush, or a 101, before that can let out headers
  the handler then takes back. `IdempotencyRecorder.ForbiddenExactly` says exactly when a stored response reached its client
  with such headers; `IdempotencyRecorder.CookieFlushedThenStored` is one.
- *A claim looks at the key once* (modules/idempotency/idempotency.go:152-157): it runs a claim and a select. Together
  they decide as one statement would unless the last claim to take the key in between read a clock that lags behind by
  the retention or by its own lock TTL (`IdempotencyProtocol.RoundIsAtomicExactly`);
  `IdempotencyProtocol.ClockSetBack` is such a run.
- *Returning before the context is done is a failure* (app/run.go:26-29): it is reported only of the runner whose return
  starts the shutdown and of errors other than cancellation (`Shutdown.EarlyReturnsReported`). In `Shutdown.QuietExit` a
  runner returns nil while the hooks run and Run returns nil.
- *Idle keys are forgotten* (ratelimit/ratelimit.go:88-98): forgetting is unobservable exactly when nothing is
  tracked, nothing is allowed, or a bucket refills while its key is away: the idle time, or twice that with room for
  one key (`RateEviction.InvisibleExactly`, every configuration). The rate bound holds on the same condition and no other
  (`RateEviction.RateBoundExactly`). For `Per(n, window)` it means the window fits the idle time (`RateLimiter.PerFits`).
- *Oldest changes are deleted first* (modules/flags/delete_history.go:10-18): what is left of a flag's history is its end
  as long as its changes carry times in order, and only then (`FlagStore.PruningLeavesTheEnd`,
  `FlagStore.PruningNeedsOrder`); `FlagStore.ClockSetBack` is a run where the row's own change is deleted and an
  older one is not.
- *One file per version* (gorbital/migrate.go:80-89): two app files with one version are refused even when their contents
  are identical; only copies of built-in migrations are absorbed. The model follows the code.

## Model

| member | source | states |
|---|---|---|
| IdempotencyProtocol.NextSound | modules/idempotency/claim_key.go:25-32 | each statement keeps every row either in progress or completed, with its token owned by the request holding that key |
| IdempotencyProtocol.ReachableIsSound | modules/idempotency/claim_key.go:28-29 | in every reachable table a row is in progress xor completed, and a lock token is in at most one row |
| IdempotencyProtocol.RequestsPersist | modules/idempotency/idempotency.go:134-140 | a request's key and fingerprint never change and a granted lock object stays granted |
| IdempotencyProtocol.LostForever | modules/idempotency/idempotency.go:201-225 | once a lock lost its row, in every later state its Complete and Release change nothing |
| IdempotencyProtocol.ReleaseFrees | modules/idempotency/release_key.go:9-10 | a holder's release removes exactly its own key, and in every later state until someone wins it the key has no row and the next claim of it wins, whatever clock it reads |
| IdempotencyProtocol.CompletedRowsWereStored | modules/idempotency/complete_key.go:9-13 | every completed row was written by a Complete whose token was in that row, for that key and fingerprint |
| IdempotencyProtocol.ReplayIsFaithful | modules/idempotency/idempotency.go:158-216 | over every interleaving a replayed response was passed to Complete for the same key and fingerprint under a valid token |
| IdempotencyProtocol.HoldExcludes | modules/idempotency/claim_key.go:25-32 | until some claim or cleanup reads a clock past lock TTL (same fingerprint) or retention, the holder's row is untouched, all other claims fail, and a claim then wins exactly when it reads such a clock |
| IdempotencyProtocol.CompletionExcludes | modules/idempotency/claim_key.go:30-31 | a completed row survives, untouched by anyone, until a clock past the retention is read; until then retries get that response and other fingerprints are refused |
| IdempotencyProtocol.RowsWereWon | modules/idempotency/claim_key.go:25-29 | every row stems from a winning claim for its fingerprint, by another request unless this one holds a lock |
| IdempotencyProtocol.MeetingsHaveCause | modules/idempotency/idempotency.go:173-178 | a request whose claim failed at least once really met another request's claim of that key |
| IdempotencyProtocol.RefusalsHaveCause | modules/idempotency/idempotency.go:176-198 | a request told the key was reused, or is in progress, really met another request's claim of that key (with another fingerprint, for the first) |
| IdempotencyProtocol.StaysUntakeable | modules/idempotency/idempotency.go:165-178 | with clocks that never go back no request ever selects a row its claim could have taken |
| IdempotencyProtocol.RoundIsAtomic | modules/idempotency/idempotency.go:165-195 | a round's claim and select decide together what one atomic claim would whenever no claim of the key in between reads a clock that lags by the retention or by its lock TTL |
| IdempotencyProtocol.RowHasSource | modules/idempotency/claim_key.go:25-32 | a row is what the last claim to take the key since a given step left, perhaps completed since, or the row of that step |
| IdempotencyProtocol.RoundIsAtomicExactly | modules/idempotency/idempotency.go:165-195 | over every run with clocks in any order, a round decides as one atomic claim if and only if the last claim to take the key between its statements does not lag behind its reading by the retention or, for the same fingerprint and not completed since, by its lock TTL |
| IdempotencyProtocol.ClockSetBack | modules/idempotency/claim_key.go:30-31 | a run with a clock set back where a round reports a key in progress that it could have taken |
| IdempotencyProtocol.SweepIsComplete | modules/idempotency/delete_expired.go:10-22 | a cleanup deletes only keys created at or before now less the retention, oldest first and at most its limit; one deleting fewer than its limit leaves none that old; every other row stays as it was |
| IdempotencyProtocol.ThreeRounds | modules/idempotency/idempotency.go:165-198 | in every reachable state a request that is claiming or reading is in one of its first three rounds |
| IdempotencyProtocol.ReleasedIsClaimedAgain | modules/idempotency/idempotency.go:165-198 | over every run, a select that finds no row leads to another claim, which wins while the key is free, and after the third round to the in-progress answer |
| IdempotencyStore.KeyIdsSeparateCallers | modules/idempotency/idempotency.go:240-245 | equal key ids mean equal scope and key, or two distinct preimages with one hash |
| IdempotencyStore.FingerprintsIdentifyRequests | modules/idempotency/idempotency.go:142-150 | equal fingerprints mean equal method, target and body, or two distinct preimages with one hash |
| IdempotencyStore.Store.ClaimKey | modules/idempotency/claim_key.go:21-49 | the statement takes exactly the protocol's claim step and reports whether it won |
| IdempotencyStore.Store.SelectKey | modules/idempotency/select_key.go:9-24 | reads the row, or that there is none, and changes no row |
| IdempotencyStore.Store.CompleteLock | modules/idempotency/idempotency.go:201-216 | reports a lost lock exactly when the token is no longer in the row, and then leaves the table unchanged |
| IdempotencyStore.Store.ReleaseLock | modules/idempotency/idempotency.go:218-225 | takes the release step; afterwards the lock holds nothing |
| IdempotencyStore.Store.DeleteExpired | modules/idempotency/delete_expired.go:20-32 | refuses a limit below one; else deletes at most the limit, and everything expired when fewer |
| IdempotencyStore.Store.Perform | modules/idempotency/idempotency.go:158-225 | any caller's statement, enabled or not, is one step of the protocol |
| IdempotencyStore.Store.Interleave | modules/idempotency/idempotency.go:165-196 | other callers' statements never move this request |
| IdempotencyStore.Store.ClaimRounds | modules/idempotency/idempotency.go:165-198 | the bounded loop takes exactly the claim and select statements of the rounds it ran, with others' steps between, and its last claim won when it returns a lock |
| IdempotencyStore.Store.Claim | modules/idempotency/idempotency.go:158-199 | exactly the steps it took, whatever runs between its statements; the result agrees with the request's final phase, a lock was won by its last step, and a stored response was really stored for this key and fingerprint |
| IdempotencyMiddleware.ValidKey | modules/idempotency/middleware.go:208-219 | accepts exactly 1 to 255 visible ASCII characters, hence no NUL |
| IdempotencyRecorder.ValueNoStore | modules/idempotency/middleware.go:285-289 | true exactly when the text between two commas or ends is a no-store directive |
| IdempotencyRecorder.NoStore | modules/idempotency/middleware.go:280-292 | true exactly when some Cache-Control value holds a no-store directive (section 5.2.2.5 of RFC 9111) |
| IdempotencyRecorder.NoStoreExactly | modules/idempotency/middleware.go:286-287 | a directive forbids storing exactly when it is the word no-store, in any case, between blanks |
| IdempotencyRecorder.ReplayableExactly | modules/idempotency/middleware.go:240-251 | Content-Type, Location and ETag are replayed with their values, and nothing else |
| IdempotencyRecorder.StorableExactly | modules/idempotency/middleware.go:271-278 | stored exactly: no status from 500 on, none of 401, 403, 408 and 429, no cookie, no no-store directive, no body over the cap |
| IdempotencyRecorder.ClientSees | modules/idempotency/middleware.go:233-269 | for all call sequences, flushes and hijacks past the recorder included: the status and headers sent are those of the first call that commits anything, and unless the connection is taken over the body is everything written, if the status has one, and the first chunk what was written before the first flush |
| IdempotencyRecorder.RetryGetsTheSame | modules/idempotency/idempotency.go:1-20 | what the first client and a retry's client get, guessed types included, is equal if and only if the connection was not taken over, the first committing call is the recorded one or a flush committing the recorded status, and the headers and type are kept; the statuses alone, if and only if the second of these |
| IdempotencyRecorder.SwitchedThenDone | modules/idempotency/middleware.go:233-238 | a stored response whose client saw 101 |
| IdempotencyRecorder.FlushedThenFailed | modules/idempotency/middleware.go:268-278 | a stored 404 whose client saw 200 |
| IdempotencyRecorder.TakenOverThenStored | modules/idempotency/middleware.go:268-278 | a stored 200 whose client got no response |
| IdempotencyRecorder.SniffedInParts | modules/idempotency/middleware.go:246-250 | a stored page whose client got another type than every retry |
| IdempotencyRecorder.ForbiddenExactly | modules/idempotency/middleware.go:240-251 | a response that may be stored reached its client with a cookie or no-store exactly when a flush or a 101 let such headers out before the handler chose its status |
| IdempotencyRecorder.CookieFlushedThenStored | modules/idempotency/middleware.go:240-251 | a stored response whose client got a cookie |
| IdempotencyRecorder.MatchesNext | modules/idempotency/middleware.go:233-266 | one more call keeps the fields equal to the first final status, the headers of that moment, all bytes written and overflow exactly past the cap |
| IdempotencyRecorder.AllMatch | modules/idempotency/middleware.go:233-266 | so do all calls of any handler |
| IdempotencyRecorder.Recorder.ChangeHeaders | modules/idempotency/middleware.go:241-251 | a header change after the snapshot does not reach what is stored |
| IdempotencyRecorder.Recorder.Snapshot | modules/idempotency/middleware.go:240-251 | records exactly the replayed headers and whether a cookie or no-store forbids storing |
| IdempotencyRecorder.Recorder.WriteHeader | modules/idempotency/middleware.go:233-238 | the fields match the call sequence extended by this call |
| IdempotencyRecorder.Recorder.Write | modules/idempotency/middleware.go:253-266 | the fields match the call sequence extended by this call; bytes are dropped exactly past the cap |
| IdempotencyRecorder.Recorder.FlushUnderneath | modules/idempotency/middleware.go:268-269 | a flush reaches the writer underneath and changes nothing recorded |
| IdempotencyRecorder.Recorder.HijackUnderneath | modules/idempotency/middleware.go:268-269 | so does a takeover of the connection, when the server allows it |
| IdempotencyRecorder.Recorder.Storable | modules/idempotency/middleware.go:271-278 | true exactly when status, headers and size allow storing, as decided from the handler's calls alone; then the fields are the recorded response |
| IdempotencyMiddleware.RunHandler | modules/idempotency/middleware.go:204-205 | after any call sequence the recorder's fields match it |
| IdempotencyMiddleware.RunUnderLock | modules/idempotency/middleware.go:182-206 | the handler's calls are forwarded, and the lock is settled by storing or releasing exactly as those calls, a panic and an opt-out decide |
| IdempotencyMiddleware.Replay | modules/idempotency/middleware.go:170-180 | the loop leaves every stored header with its values, marks the replay, keeps what outer middleware set besides and adds no further name; then the stored status and body are written |
| IdempotencyMiddleware.ReplayDelivers | modules/idempotency/middleware.go:170-180 | what net/http makes of those calls: the stored status and body always, and exactly what a retry is said to get unless outer middleware adds a replayed header or an encoding |
| IdempotencyMiddleware.Serve | modules/idempotency/middleware.go:148-206 | exactly the steps taken, whatever the outcome: the handler runs only under a lock, which this call completes or releases once, as its last step, and never when it does not run; a replay was stored for this key and fingerprint and is written with every stored header, the mark, the stored status and body; 409 and 422 exactly when refused so, 503 exactly for invalid arguments, which touch nothing |
| IdempotencyMiddleware.StoredExactly | modules/idempotency/middleware.go:182-203 | the lock ends in a stored response exactly when the handler returned, did not opt out and may be stored, and in a release otherwise |
| IdempotencyMiddleware.ServedIsReplayed | modules/idempotency/idempotency.go:1-20 | after a serve stored its response, until a clock past the retention is read, every retry is answered with that recording and every other fingerprint is refused |
| IdempotencyMiddleware.SettledIsWorthKeeping | modules/idempotency/middleware.go:182-203 | what is completed has no released status or server error, fits the cap and carries only replayed headers; its handler neither panicked nor opted out, its headers as recorded have no cookie or no-store, and as sent they do exactly when they slipped out before |
| IdempotencyMiddleware.ReplaysAreWorthKeeping | modules/idempotency/idempotency.go:16-20 | if every Complete is the settling step of a serve, then in every interleaving every replayed response is the recording of a handler that returned, did not opt out, and whose status, size and headers as recorded allow storing; a cookie or no-store reached its first client exactly when it slipped out before |
| TimeoutWriter.JudgeExtends | httpx/timeout/timeout.go:174-179 | the first call that settles who speaks settles it for good |
| TimeoutWriter.RunOneVoice | httpx/timeout/timeout.go:111-120 | over all call sequences the wire carries nobody's, the handler's or the timeout's voice, as the first settling call decided |
| TimeoutWriter.RunWrites | httpx/timeout/timeout.go:221-233 | unless the request timed out the body bytes are exactly the handler's writes in order |
| TimeoutWriter.SingleVoice | httpx/timeout/timeout.go:104-233 | started and timedOut are never both true, at most one final status is sent, and the body is all the handler's or all the timeout's |
| TimeoutWriter.TimeoutAnswer | httpx/timeout/timeout.go:122-168 | a late handler that returns yields exactly one 503 with the outer headers and the three fixed fields, after informational responses only (section 15.2 of RFC 9110); a panic, a timely return and a started response are left as documented |
| TimeoutWriter.TimeoutDelivers | httpx/timeout/timeout.go:141-168 | the client of a late handler that returns gets status 503, the problem body, flushed, and the outer headers with Content-Type, Cache-Control and Content-Length as fixed, whatever the handler had set |
| TimeoutWriter.Transparent | httpx/timeout/timeout.go:50-55 | unless timed out, net/http makes of the middleware's calls exactly what it would make of the handler's own, and the handler sees the same headers |
| TimeoutWriter.TransparentEnd | httpx/timeout/timeout.go:122-139 | and so does finish: a timely or started response reaches the client as without the middleware |
| TimeoutWriter.TimeoutWriter.AnswerLocked | httpx/timeout/timeout.go:141-168 | the 503 is written at most once, with the outer headers whatever was copied before |
| TimeoutWriter.TimeoutWriter.RefuseLocked | httpx/timeout/timeout.go:170-179 | settles on the timeout exactly when the deadline is seen before the response started |
| TimeoutWriter.TimeoutWriter.StartLocked | httpx/timeout/timeout.go:187-191 | the handler's headers go to the writer underneath and the response is started |
| TimeoutWriter.TimeoutWriter.ChangeHeaders | httpx/timeout/timeout.go:193-202 | changes the handler's own copy until the response starts, then the real map |
| TimeoutWriter.TimeoutWriter.TimeOut | httpx/timeout/timeout.go:111-120 | the callback is exactly the machine's deadline step |
| TimeoutWriter.TimeoutWriter.WriteHeader | httpx/timeout/timeout.go:204-219 | exactly the machine's step |
| TimeoutWriter.TimeoutWriter.Write | httpx/timeout/timeout.go:221-233 | exactly the machine's step, reporting success even when the bytes are discarded |
| TimeoutWriter.TimeoutWriter.FlushError | httpx/timeout/timeout.go:235-246 | exactly the machine's step; a timeout error exactly when timed out first |
| TimeoutWriter.TimeoutWriter.HijackConn | httpx/timeout/timeout.go:251-263 | exactly the machine's step; starts the response only on success |
| TimeoutWriter.TimeoutWriter.TouchConn | httpx/timeout/timeout.go:265-301 | exactly the machine's step for deadlines and full duplex |
| TimeoutWriter.TimeoutWriter.FinishResponse | httpx/timeout/timeout.go:122-139 | exactly the machine's finish |
| TimeoutWriter.ServeHTTP | httpx/timeout/timeout.go:67-89 | a whole request: the calls that reach the writer underneath are exactly the machine's, a late one that returns gets the 503 with its body and headers, and any other gets what the handler's own calls would give |
| FlagState.NormalizeIsCanonical | modules/flags/state.go:62-76 | normalising is idempotent, keeps the elements, and two states have one normal form exactly when their lists have the same elements |
| FlagState.Overlaps | modules/flags/state.go:119-127 | binary search finds an overlap exactly when the lists share an ID |
| FlagState.CheckList | modules/flags/state.go:91-100 | accepts exactly lists of at most 1000 valid IDs |
| FlagState.CheckId | modules/flags/state.go:107-117 | accepts exactly 1 to 100 visible ASCII characters |
| FlagState.Validate | modules/flags/state.go:78-105 | accepts exactly the valid states |
| FlagState.SetOf | modules/flags/state.go:194-200 | fills exactly the set of the list's elements |
| FlagState.CompileState | modules/flags/state.go:181-192 | builds the compiled form of the normalised state |
| FlagState.Bucket | modules/flags/flags.go:152-159 | a bucket is what is left of the hash of key, zero byte and subject after whole hundreds |
| FlagState.BucketsAreIndependent | modules/flags/flags.go:147-159 | for two different pairs of flag and subject some hash gives any two buckets |
| FlagState.EvaluateFollowsTheRules | modules/flags/flags.go:173-209 | compiled evaluation with sets answers as the ordered rules do on the raw lists, and normalising never changes an answer |
| FlagState.WhoIsAsked | modules/flags/flags.go:185-193 | an anonymous caller is nobody, whatever ID it carries; any other with an ID is met by the user lists, deny first |
| FlagState.RaisingOnlyAdds | modules/flags/flags.go:194-207 | raising the percentage turns nobody off, anonymous callers included; 100 is everyone and 0 nobody not allowed by name |
| FlagState.DecodeOfEncode | modules/flags/state.go:129-157 | an accepted state survives storing, and its unnormalised form decodes alike |
| FlagState.SameStateExactly | modules/flags/store.go:395-403 | two stored forms are the same exactly when both are the default, or both are acceptable with the same switches, percentage and IDs in every list |
| FlagStore.HistoryIsAChain | modules/flags/store.go:290-345 | over every interleaving, pruning included, the changes recorded for a flag are an unbroken chain of real changes numbered from 1 that starts at the default and ends at the row, and at most one transaction changes a given version |
| FlagStore.NextSound | modules/flags/store.go:310-345 | each transaction step keeps that, the row locks and the selected rows consistent |
| FlagStore.StepGrows | modules/flags/update_state.go:9-22 | rows never vanish, versions rise by at most one a step and only with a change, histories only grow at the end |
| FlagStore.RowWaits | modules/flags/store.go:311-314 | a row selected for update, and the flag's history, stay as selected whatever other transactions do until this one ends |
| FlagStore.NoOpAddsNothing | modules/flags/store.go:315-321 | setting the state a flag had when selected, or resetting one never changed, writes nothing whatever others do before it finishes, even a first change of the same flag |
| FlagStore.CurrentVersionWins | modules/flags/store.go:310-345 | a writer that selected an existing row at its caller's version gets its change in whatever others do meanwhile, as version + 1 right after the history it saw; at another version it gets a conflict and writes nothing |
| FlagStore.RowsComeFromChanges | modules/flags/insert_state.go:11-29 | a flag without a row gets one exactly by a finish that changes it |
| FlagStore.FirstToFinishWins | modules/flags/insert_state.go:16-29 | of racing first changes of a flag, one succeeds exactly when no other changed the flag before it finishes; the others get a version conflict |
| FlagStore.PruningLeavesTheEnd | modules/flags/delete_history.go:10-28 | after any deletes in any batches, what is left of a flag's history whose times are in order is a contiguous end of its chain, and ends at the row unless nothing is left |
| FlagStore.PruningNeedsOrder | modules/flags/delete_history.go:12-14 | deletes of every cutoff and size leave an end if and only if the times are in order |
| FlagStore.ClockSetBack | modules/flags/delete_history.go:12-14 | a run with times out of order where the row's own change is deleted and an older one is left |
| FlagStore.Database.DeleteHistoryBefore | modules/flags/delete_history.go:16-28 | refuses a limit below one; else deletes exactly the oldest rows before the cutoff, at most the limit |
| FlagStore.Database.SelectForUpdate | modules/flags/store.go:311-314 | exactly the protocol's begin: locks the row if there is one, blocked while it is locked |
| FlagStore.Database.Commit | modules/flags/insert_state.go:11-29 | exactly the protocol's finish: version check, no-op, lost insert race, or change with history |
| FlagStore.Database.End | modules/flags/store.go:310-345 | ends the transaction and gives up its lock, nothing else |
| FlagStore.Database.Interleave | modules/flags/store.go:310-345 | other transactions never touch this one's record |
| FlagStore.Database.Write | modules/flags/store.go:290-357 | the error cases exactly, and otherwise, once the row is free, one begin and one finish around everyone else's steps, with the result naming the outcome |
| VersionedCache.MergeIsJoin | modules/flags/flags.go:270-301 | on copies of one truth the merge is idempotent, commutative and associative |
| VersionedCache.MergeAllKeepsNewest | modules/flags/flags.go:287-301 | after any deliveries each key known anywhere holds the newest version that arrived |
| VersionedCache.DeliveryOrderIsIrrelevant | modules/flags/flags.go:270-286 | any two sequences delivering the same reads, however repeated and ordered, end in the same copy |
| FlagCache.DatabaseRuns | modules/flags/store.go:132-143 | whatever instances do, the database part of a run is a run of the store |
| FlagCache.DecodedRowDecides | modules/flags/store.go:145-161 | a cached entry holds a state exactly when its row holds an acceptable one, is invalid exactly when it holds another, and decides for every actor by the documented rules on that state, or as the declared default |
| FlagCache.CachesAgree | modules/flags/store.go:113-161 | under any loss, duplication or reordering each cached entry is what the flag's history recorded under its version |
| FlagCache.CacheIsMerge | modules/flags/flags.go:270-301 | an instance holds exactly the merge of the reads delivered to it |
| FlagCache.InstancesAgree | modules/flags/flags.go:270-301 | two instances delivered the same reads, in any order and however often, hold the same |
| FlagCache.NeverOlder | modules/flags/flags.go:270-301 | a cached entry is never dropped and never gets older |
| FlagCache.ReloadCatchesUp | modules/flags/store.go:113-130 | after a delivered reload every declared flag is at least as new as the reload's read for the rest of the run; while the database has not moved on it is exactly current and decides for every actor as the row does by the documented rules |
| FlagCache.ReadingCatchesUp | modules/flags/store.go:132-143 | after a delivered reload, notification read or the row a writer got back, the flag is at least as new as that read for the rest of the run, and exactly the current row while the database has not moved on |
| FlagCache.Registry.Apply | modules/flags/flags.go:270-285 | merges one entry |
| FlagCache.Registry.ReplaceAll | modules/flags/flags.go:287-301 | the in-place loop over the old snapshot is the merge with the loaded one |
| FlagCache.Registry.Current | modules/flags/flags.go:161-171 | the stored state decides when there is a valid one, else the declared default |
| JobOverrides.Definitions.ReplaceOverrides | modules/jobs/listen.go:88-101 | the same merge for job overrides |
| JobOverrides.Definitions.ApplyOverride | modules/jobs/listen.go:103-116 | the same merge of one override |
| JobOverrides.Definitions.DeliverAll | modules/jobs/listen.go:88-116 | after any deliveries, of single overrides or whole reloads, exactly the jobs known before or delivered are held, each with the newest override among those |
| Shutdown.NextOrderly | app/run.go:96-162 | each step keeps the order of hooks, cancellation and cleanup, and an unforced, timely wait means all runners stopped |
| Shutdown.NextAccount | app/run.go:96-162 | each step keeps the collected errors equal to the account of what happened |
| Shutdown.NextResults | app/run.go:81-89 | results are only added by a runner's first return and only move from channel to receiver, in order |
| Shutdown.RunIsOrderly | app/run.go:63-166 | all of this over every run |
| Shutdown.ReceivedOnce | app/run.go:145-154 | no result is received twice, and unless forced or timed out each runner's is received |
| Shutdown.NilExactly | app/run.go:165 | Run returns nil exactly when begun by context or signal, not forced or timed out, no error but cancellation was collected and cleanup succeeded |
| Shutdown.ShutdownAccounting | app/run.go:63-166 | on every finished run: hooks, then cancel, then one cleanup; results received at most once, all of them when unforced; errors exactly accounted; nil exactly then |
| ShutdownRecord.RunIsRecorded | app/run.go:96-143 | over every run: forced exactly when a pending signal ended the drain or the wait, timed out exactly when the timeout ended the wait, begun by context or signal exactly by such a step, drained exactly when configured and not begun by a runner |
| ShutdownRecord.ForcedIsReported | app/run.go:117-143 | on every finished run ErrForcedShutdown is returned if and only if a signal that arrived ended the drain or the wait, and ErrShutdownTimeout if and only if the timeout ended the wait |
| ShutdownRecord.AccountHolds | app/run.go:96-162 | failure by failure, what an account holds |
| ShutdownRecord.EveryFailureMeans | app/run.go:96-166 | on every finished run each possible error is returned exactly when what it says happened: forced, timed out, cleanup failed, this runner exited or failed first, this runner's error was collected and is not cancellation |
| ShutdownRecord.LogExactly | app/run.go:113-162 | each hook ran once, in its place, then the cancellation, then the close if there is one |
| ShutdownRecord.SignalsAreCounted | app/run.go:72-76 | pending and used signals never exceed those that arrived and equal them up to two, so one signal never both begins and forces a shutdown |
| Shutdown.EarlyReturnsReported | app/run.go:26-29 | on every finished run, a runner's return before its context is done is reported exactly when it started the shutdown or its error is neither nil nor cancellation |
| Shutdown.QuietExit | app/run.go:145-154 | a run where a runner returns nil during the hooks and Run returns nil |
| Shutdown.ReversedAt | app/cleanup.go:35-38 | the closing order is last in, first out, each item once |
| Shutdown.FailingExactly | app/cleanup.go:44-50 | exactly the names of failing items are joined |
| Shutdown.RegisteredExactly | app/cleanup.go:35-42 | exactly what closing registered is left for the next call |
| Shutdown.Cleanup.Add | app/cleanup.go:23-28 | registers at the end |
| Shutdown.Cleanup.Close | app/cleanup.go:35-51 | closes every item registered so far in reverse even when some fail, joins exactly their errors, and keeps what was registered meanwhile for the next call |
| Shutdown.Coordinator.AwaitStart | app/run.go:96-111 | the first select takes a ready branch, and waits only when none is |
| Shutdown.Coordinator.RunHooks | app/run.go:113-118 | all hooks run in order with others moving between them; draining is entered exactly when not skipped |
| Shutdown.Coordinator.Drain | app/run.go:117-127 | the drain select ends by timer, signal or stopped runners, as the machine does |
| Shutdown.Coordinator.CancelAll | app/run.go:129-143 | cancels; a forced shutdown does not wait |
| Shutdown.Coordinator.AwaitStopped | app/run.go:130-143 | the wait ends stopped, timed out or forced, with its error |
| Shutdown.Coordinator.CollectResults | app/run.go:145-154 | the loop empties the channel, runners that return meanwhile included |
| Shutdown.Coordinator.CloseAll | app/run.go:156-162 | everything registered is closed once, last first, and one more error is kept exactly when closing anything failed |
| Shutdown.Coordinator.Run | app/run.go:63-166 | it keeps waiting only while no reason to stop has arrived; else the returned errors are the account of a finished run of the machine, everything registered was closed once, and it returns nil exactly when begun by context or signal, not forced or timed out, no error but cancellation was collected and closing failed nowhere |
| RateLimiter.NeverOverfull | ratelimit/ratelimit.go:95-98 | the map never holds more than maxKeys buckets |
| RateLimiter.ReferenceAgrees | ratelimit/ratelimit.go:126-172 | tracked buckets equal those of a limiter that never forgets, and a forgotten one's reference is full |
| RateLimiter.EvictionIsInvisible | ratelimit/ratelimit.go:126-172 | when a bucket refills within the idle time every tracked decision is that of a limiter that never forgets |
| RateEviction.OneIsInvisible | ratelimit/ratelimit.go:131-141 | with room for one key, two idle times of refill are enough |
| RateEviction.EvictionShows | ratelimit/ratelimit.go:165-172 | otherwise some run shows the eviction |
| RateEviction.InvisibleExactly | ratelimit/ratelimit.go:126-172 | for every configuration, eviction is invisible over all runs if and only if nothing is tracked, the burst is below one or a bucket refills within the idle time, or within two with room for one key |
| RateLimiter.PerFits | ratelimit/ratelimit.go:32-36 | n requests a window refill within the idle time exactly when the window fits it |
| RateEviction.RateBound | ratelimit/ratelimit.go:124-153 | in any stretch of length T a key's tracked grants are at most burst + rate * T, on the exact condition for invisible eviction |
| RateEviction.RateBoundExactly | ratelimit/ratelimit.go:124-172 | the bound holds over all runs if and only if that condition does: otherwise a key spends its burst, is forgotten and spends it again |
| RateLimiter.GrantedIsAllowed | ratelimit/ratelimit.go:144-152 | what the bound counts as granted are exactly the tracked requests that Allow lets through |
| RateExact.FailsOpen | ratelimit/ratelimit.go:95-98 | a request goes uncounted exactly when its key is new and the keys in recent use take all the room; it is allowed, and at most idle buckets are lost |
| RateExact.HasOrigin | ratelimit/ratelimit.go:131-152 | a tracked bucket holds the burst plus what refilled since some request of its key less what was granted since |
| RateExact.RefusedAtTheBound | ratelimit/ratelimit.go:144-152 | whatever was evicted, a request is refused only when one more grant would exceed burst + rate * time since some request of its key |
| RateExact.RefusedExactly | ratelimit/ratelimit.go:124-153 | where eviction cannot show, a tracked request is refused if and only if granting it would break the rate bound |
| RateLimiter.SpentWithin | ratelimit/ratelimit.go:144-152 | grants plus the credit left never exceed burst plus what refilled |
| RateLimiter.RetryAfterIsExact | ratelimit/ratelimit.go:148-151 | with no other request in between, the next one succeeds exactly from the reported wait on; no wait is reported exactly when the burst is below one or the rate is zero, and then none is enough |
| RateLimiter.Limiter.EvictIdle | ratelimit/ratelimit.go:165-172 | removes exactly the idle buckets |
| RateLimiter.Limiter.Allow | ratelimit/ratelimit.go:124-153 | the decision and the new map are those of the machine |
| RingBuffer.RingStores | modules/devconsole/buffer.go:31-35 | storing in the next slot appends, dropping the oldest item of a full ring |
| RingBuffer.OfferConserves | modules/devconsole/buffer.go:36-42 | an offer, whatever the reader does, keeps the subscriber's account balanced and in order, and drops the item exactly when the channel is full and no reader waits |
| RingBuffer.LosslessUnlessDropped | modules/devconsole/buffer.go:15-20 | received followed by queued is all that was added exactly when no item ever came while the channel was full |
| RingBuffer.Buffer.Store | modules/devconsole/buffer.go:31-35 | the ring keeps holding the last items added |
| RingBuffer.Buffer.OfferAll | modules/devconsole/buffer.go:36-42 | every active subscription is offered the item once, others nothing |
| RingBuffer.Buffer.Add | modules/devconsole/buffer.go:26-43 | keeps ring and accounts after any adds, never blocking |
| RingBuffer.Buffer.List | modules/devconsole/buffer.go:45-55 | exactly the last min(n, capacity) items, oldest first |
| RingBuffer.Buffer.Subscribe | modules/devconsole/buffer.go:60-67 | starts an empty account |
| RingBuffer.Buffer.Unsubscribe | modules/devconsole/buffer.go:69-74 | stops offers; the account stays balanced |
| RingBuffer.Buffer.Receive | modules/devconsole/buffer.go:15-20 | takes the oldest queued item; the account stays balanced |
| RingBuffer.Buffer.TakeDropped | modules/devconsole/buffer.go:76-83 | reports and clears exactly the pending losses |
| IpFilter.NestedOrDisjoint | httpx/ipfilter/ipfilter.go:99-107 | two ranges of a family are nested or disjoint (section 3.1 of RFC 4632) |
| IpFilter.RefusedIsSubset | httpx/ipfilter/ipfilter.go:103-106 | the pair test holds exactly when the allow range is a subset of the deny range |
| IpFilter.MaskedNotMapped | httpx/ipfilter/ipfilter.go:68-74 | masking never turns an ordinary IPv6 range into an IPv4-mapped one |
| IpFilter.UnmapIsRequestAddr | httpx/ipfilter/ipfilter.go:140-148 | every address a request has is valid and unmapped, and mapping is undone; mapped are exactly ::ffff:0:0/96, to the IPv4 address in their last 32 bits |
| IpFilter.CanonicalKeepsMembership | httpx/ipfilter/ipfilter.go:62-75 | canonicalising keeps the membership of every unmapped address and fails exactly for invalid and family-mixing ranges |
| IpFilter.CanonicalPrefixes | httpx/ipfilter/ipfilter.go:125-138 | succeeds exactly when every range does, range by range in order |
| IpFilter.New | httpx/ipfilter/ipfilter.go:77-108 | refuses exactly lists with a range that cannot be canonicalised, a deny-all range or an allow range inside a deny range, and names a real culprit |
| IpFilter.ContainsAny | httpx/ipfilter/ipfilter.go:150-158 | true exactly when some range holds the address |
| IpFilter.Refuses | httpx/ipfilter/ipfilter.go:114-119 | the decision is the set formula: deny wins, and allow ranges must hold the address |
| IpFilter.Serve | httpx/ipfilter/ipfilter.go:77-123 | end to end on the ranges as configured: not installed exactly when New refuses them, and else an unmapped address is refused exactly when a deny range covers it or no allow range does |
| Redaction.BuildSnakeCase | modules/auditpg/redact.go:109-131 | the loop with its builder computes the recursive snake case |
| Redaction.PaddedTestIsRun | modules/auditpg/redact.go:80-88 | a padded substring occurs exactly when the segments are a consecutive run |
| Redaction.SensitiveIsARun | modules/auditpg/redact.go:76-107 | a key is sensitive exactly when some redacted name's segments are consecutive segments of it |
| KeySpelling.SegmentsAreWords | modules/auditpg/redact.go:98-131 | with underscores, dashes or dots, in camel case or with acronyms, a key's segments are its words in the singular |
| KeySpelling.PluralFolds | modules/auditpg/redact.go:100-105 | exactly which plurals are folded |
| KeySpelling.SensitiveByWords | modules/auditpg/redact.go:76-88 | a name matches a key exactly when its words in the singular are consecutive words of the key in the singular, however either is spelled |
| KeySpelling.PluralMatches | modules/auditpg/redact.go:76-79 | a name matches its plural as the second word of any key, and two words their plural in any spelling |
| KeySpelling.OneWordMatches | modules/auditpg/redact.go:76-79 | a word matches itself and its plural and no other word |
| KeySpelling.DocumentedToken | modules/auditpg/redact.go:76-79 | "token" matches "sessionTokens" and not "tokenizer" |
| KeySpelling.DocumentedApiKey | modules/auditpg/redact.go:76-79 | "api_key" matches "apiKeys" |
| Redaction.NormalizedSplits | modules/auditpg/redact.go:98-107 | a normalised key splits back into its segments |
| Redaction.RedactIsClean | modules/auditpg/redact.go:50-74 | afterwards every sensitive key at any depth holds only the marker, and no key or string holds a NUL |
| Redaction.CleanIsUntouched | modules/auditpg/redact.go:50-74 | a tree with nothing to redact is unchanged |
| Redaction.RedactIsIdempotent | modules/auditpg/redact.go:50-74 | redacting twice is redacting once |
| Redaction.RedactRepresents | modules/auditpg/redact.go:50-74 | nothing else is lost: same shape, every key kept less its NULs, every other value in its place |
| Redaction.StripNulParts | modules/auditpg/redact.go:56-70 | only NULs are removed from a text, wherever they are |
| Redaction.PutExactly | modules/auditpg/redact.go:54-63 | assigning a key replaces its field and leaves every other |
| Redaction.RedactTree | modules/auditpg/redact.go:50-74 | the loops that fill a new map and overwrite a list compute the redacted tree |
| Redaction.EncodeMetadata | modules/auditpg/redact.go:23-48 | never more than the cap; exactly which marker is stored when, and otherwise the encoding of a clean tree |
| Catalog.ReachableIsSound | modules/auth/catalog.go:25-81 | after any declarations, refused ones included, names are valid and unique, roles sorted and grant only declared permissions, marks only declared roles |
| Catalog.NameIsDotted | modules/auth/catalog.go:10 | a name is accepted exactly when it is words of a letter and then letters, digits and underscores, separated by single dots |
| Catalog.RunExtends | modules/auth/catalog.go:77-92 | declarations only extend a catalog, and a frozen one never changes |
| Catalog.PermissionsSplit | modules/auth/catalog_mfa.go:34-56 | granted and step-up are strictly sorted, disjoint and together exactly the roles' permissions |
| Catalog.VerifyingGrantsStepUp | modules/auth/catalog_mfa.go:34-56 | a second factor turns exactly the step-up permissions into granted ones |
| Catalog.LaterDeclarationsOnlyHoldBack | modules/auth/catalog_mfa.go:8-24 | later declarations never change what declared roles grant in all, and an unverified session only loses, to step-up |
| Catalog.NothingUndeclared | modules/auth/catalog.go:25-30 | only declared permissions of declared roles are ever granted or offered |
| Catalog.DeclaredRoleGrants | modules/auth/catalog.go:56-75 | a declared role grants exactly the permissions it was declared with |
| Catalog.RestrictIsIdempotent | modules/auth/apikey.go:137-151 | restricting again changes nothing |
| Catalog.RequireDecides | actor/require.go:21-36 | for every actor and permission: unauthenticated exactly without an actor or with the anonymous one, allowed exactly what another holds, step-up exactly for what it only holds back |
| Catalog.PrincipalActs | modules/auth/middleware.go:78-89 | a service account's key acts as that service, anyone else as the user |
| Catalog.PipelineDecides | actor/require.go:21-36 | for every catalog, caller and permission: allowed exactly when a held role that needs no second factor, or any once verified, grants it and it is in scope; step-up exactly for a session whose held-back roles alone grant it, never for an API key; forbidden exactly otherwise |
| Catalog.SteppingUpOpens | modules/auth/middleware.go:78-89 | verifying lets in exactly the sessions allowed or told to step up before |
| Catalog.Catalog.DeclarePermission | modules/auth/catalog.go:42-54 | refuses exactly late, malformed and repeated names; else adds |
| Catalog.Catalog.DeclareRole | modules/auth/catalog.go:56-75 | refuses exactly late, malformed and repeated roles and undeclared permissions; else adds the role with its permissions sorted once |
| Catalog.Catalog.RequireMFA | modules/auth/catalog_mfa.go:8-24 | refuses exactly late and undeclared roles, keeping what was marked before the refusal |
| Catalog.Catalog.Freeze | modules/auth/catalog.go:87-92 | closes the catalog and changes nothing else |
| Catalog.Catalog.PermissionsOf | modules/auth/catalog.go:101-114 | the loop gives the sorted permissions of the held roles |
| Catalog.Catalog.PermissionsFor | modules/auth/catalog_mfa.go:34-56 | the loop gives granted and step-up as specified |
| Migrations.NameParsesBack | gorbital/migrate.go:173-195 | a built-in migration's file name parses back to its version |
| Migrations.NamedIsParsed | gorbital/migrate.go:173-195 | every name made of a version in 1 to 2^63-1, maybe after zeros, an underscore, a name without slashes and .sql parses to that version |
| Migrations.ParsedIsNamed | gorbital/migrate.go:173-195 | and nothing else parses |
| Migrations.FilesHaveVersions | gorbital/migrate.go:112-118 | every merged file's name parses to a version of the history |
| Migrations.VersionHasFile | gorbital/migrate.go:80-89 | every version of the history has a file |
| Migrations.OneFilePerVersion | gorbital/migrate.go:80-89 | and only one: distinct versions have distinct names |
| Migrations.OrderIsIrrelevant | gorbital/migrate.go:119-126 | permuting modules, migrations or entries changes neither success nor the merged files |
| Migrations.AddBuiltins | gorbital/migrate.go:93-126 | no error exactly when all are well formed with distinct versions, and then each is held under its version |
| Migrations.AddAppFiles | gorbital/migrate.go:128-163 | no error exactly when app files parse, have distinct versions and equal the built-in migrations they copy |
| Migrations.NamedFiles | gorbital/migrate.go:167-171 | one file per stored version, none lost to a name collision |
| Migrations.MergeMigrations | gorbital/migrate.go:90-171 | succeeds exactly on mergeable inputs, and then holds exactly the union with copies absorbed |
| Migrations.NewMemFS | gorbital/migrate.go:324-331 | the listing is the file names, strictly sorted |
| Migrations.PagesAreAPrefix | gorbital/migrate.go:383-396 | whatever page sizes are asked for, entries come once and in order, each page as long as asked or all that is left, and the end is reported exactly when all were read |
| Migrations.MemDir.ReadDir | gorbital/migrate.go:383-396 | each call returns the next page of that sequence |
| Ordering.NormalIsCanonical | modules/flags/state.go:65-69 | sorting and compacting gives the one strictly sorted list with these elements |
| Ordering.BinarySearch | modules/flags/state.go:122 | finds a string exactly when it is there |
| Strings.PiecesAreSplit | modules/idempotency/middleware.go:285 | every stretch between separators is one of the pieces of a split |

## Left out

- PostgreSQL and its driver: each statement is one atomic step with its own clock reading, or a transaction with row locks where flags are written; connection errors, serialisation failures and JSON encoding errors of stored headers are not modelled.
- IdempotencyProtocol.HoldExcludes: cleanup is atomic too, although its delete has a subselect: under read committed isolation a row claimed again between the two would be deleted by the outer statement, which matches ids alone.
- IdempotencyProtocol.CompletionExcludes: the same.
- Hashing: SHA-256 is any function; statements about identities say "or the hash collides". Lock tokens are assumed fresh when drawn.
- Time in the idempotency table is in whole microseconds and no duration is truncated; `Store.Oldest`, metrics and logs are not modelled.
- Retry-After of the 409, problem bodies, and the parts of `Middleware` before `serve` (method, scope and body checks) are not modelled, except key validation.
- IdempotencyProtocol.StaysUntakeable: assumes clock readings that never go back, positive lock TTLs and positive retentions; the exact condition is `IdempotencyProtocol.RoundIsAtomicExactly`, and all other theorems about the protocol assume nothing about clocks.
- IdempotencyMiddleware.Serve: a handler is a list of calls on its writer; errors of the writer underneath, declared content lengths, trailers, and headers that outer middleware adds to a retry are not modelled, and replayed header names are taken as already canonical.
- IdempotencyRecorder.ClientSees: says nothing of the body on a connection taken over, where net/http drops what it still buffers and the handler writes the rest itself; such a response never counts as the same.
- IdempotencyRecorder.NoStore: text is ASCII; strings.EqualFold also folds a few non-ASCII letters.
- IdempotencyRecorder.ValueNoStore: the same.
- TimeoutWriter.TimeoutWriter.AnswerLocked: encoding the problem is taken to succeed, and `New` with a duration of zero or less, which installs nothing, is not modelled.
- TimeoutWriter.TimeoutWriter.ChangeHeaders: a handler that keeps the header map it got before the response started, and changes it afterwards, is not modelled.
- TimeoutWriter.TimeoutWriter.Write: errors and short writes of the writer underneath are not modelled.
- Flag audit events, notification payloads, the View a write returns, and looking up undeclared keys are not modelled; the reason and request ID of a history row are left out of it.
- FlagStore.Database.Write: reports Blocked while another transaction has the row, where the code keeps waiting.
- FlagStore.Database.DeleteHistoryBefore: a deleted row is marked rather than removed; ids are positions in the order changes were recorded.
- FlagState.DecodeOfEncode: JSON is a tree holding the state, so the text round trip itself is taken for granted; what is proved is that normalising and validating survive it.
- FlagState.EvaluateFollowsTheRules: IDs are ASCII, as validation demands, and unknown JSON fields are ignored by leaving them out.
- Jobs: only the merge of overrides; reconciling and running jobs is not modelled.
- Shutdown option validation, log messages and the context handed to cleanup are not modelled; whether closing an item fails is part of the item.
- Shutdown.Coordinator.Run: returns nothing while no reason to stop has arrived, where the code keeps waiting.
- RateLimiter: tokens and times are reals, so floating-point and duration rounding is not modelled; `rate.Limiter` is the textbook bucket, clock readings do not go back and maxKeys is not negative.
- RingBuffer.Buffer.Add: a channel is its queue plus whether its reader is blocked on it at that moment; the order in which subscribers are offered an item is not observable.
- IpFilter.New: unions of deny ranges covering an allow range are not considered, as in the code; zones and the text forms of addresses are not modelled.
- Redaction.BuildSnakeCase: keys are ASCII, where the code uses Unicode letter classes.
- Redaction.EncodeMetadata: JSON is a tree, and the JSON round trip before and the encoding after redaction are inputs; sharing of lists between the input and the result is not modelled.
- Catalog.ReachableIsSound: descriptions are kept but nothing is said about them; principals other than by session or API key, and organisation membership, are not modelled.
- Migrations.MergeMigrations: which errors are reported, and their texts, are not modelled, only whether there are any; a migration without a file system counts as unreadable.
- Running migrations, opening and reading single files of the merged file system, and everything else in `gorbital/`, `authhttp`, `opshttp`, email, dev console endpoints and configuration: composition and I/O.
