# Portal protocols, modelled and proved

The portal imports work cards, notifications and calendar events through connectors, runs
those imports on leased workers, and signs users in with passwords or Microsoft Entra. This
project models the parts of it whose correctness depends on interleavings, on whole
histories or on whole trees, and proves what they promise.

`dafny verify dfyconfig.toml` checks everything. Each module stands for one component:

| module | component |
|---|---|
| `Common`, `QueryOrder`, `Json` | instants and results; `ORDER BY ... LIMIT`; JSON documents and paths |
| `RunLease` | one connector run: guarded claim, renew, finalise, cancel, recover; histories of a run |
| `Executions` | worker loops: which execution of a run a result comes from |
| `RunTable` | the table of runs, its repository methods, and runs of the whole table |
| `RunCreation` | `create_if_no_pending` and `create_retry` as interleaved statements under the connector row lock |
| `Secrets`, `SecretWalk`, `SecretPaths` | encrypt, decrypt, redact and restore over JSON trees; the loops that do them; what they do at every path |
| `SnapshotPreview` | cutting a redacted payload to a size |
| `Paging` | following `nextLink` under page and item limits |
| `AzureFetch`, `Reconcile`, `AzureSync` | the Azure DevOps fetch, upsert and archive-missing, and a whole sync run |
| `RunCommits` | the import and the result of a run, committed together |
| `LoginThrottle` | failure counters, lockouts and pruning |
| `Sessions` | session creation with eviction under the per-user lock |
| `OidcLogins` | the bounded store of pending logins |
| `IdentityLinks`, `IdentityCalls` | just-in-time provisioning, the CLI link and login profile updates |
| `JwksCache` | the signing-key cache |
| `LikeSearch`, `AccessScope` | literal search by ILIKE; record visibility |

Repository methods that update rows in place are methods of a class over a `map` of rows, and
loops are loops; each is proved against a function of the old state. Protocols that many
callers run at once are also state machines: one step is one SQL statement (or one guarded
`UPDATE`), a transaction's writes are invisible to others until it commits, advisory and row
locks are fields of the state, and every theorem is about every sequence of steps. Time is a
whole number of microseconds. The clock, the network's answers, the cipher, the case fold,
URL resolution and the choice of rows that `SKIP LOCKED` skips are parameters.

## What turned out not to hold as one might expect

- The repository's only fencing token is the worker id, so it cannot tell two leases of one
  worker apart (`RunLease.SameWorkerIsNotFenced`; `RunLease.SupersededWorkerFenced` says
  exactly what it accepts). What keeps a result from an earlier execution out is the worker
  loop, which draws its id once per process and claims again only when its execution and
  renewal have ended: with it, every accepted result comes from the execution of the latest
  lease (`Executions.ResultsComeFromLatestLease`).
- A run executed in process has no lease, so recovery never touches it
  (`RunLease.InProcessRunNeverRecovered`).
- Pruning throttle buckets that are a day old is unobservable if and only if the configured
  window is at most a day or the limit is one, for one prune and for a prune at every login
  (`LoginThrottle.DailyPruneUnobservableIff`, `LoginThrottle.LoginsCannotTellIff`);
  configuration puts no upper limit on the window.
- A session's creation time is the start of its transaction, before the wait for the lock, so
  a login can evict a session created after its own (`Sessions.WaitingLoginEvictsNewer`);
  `Sessions.NewestExactly` says when the new session is the newest.
- A record's scope follows its connector's at every moment of a run if and only if no import
  or manual edit writes back a scope that changed since it read it
  (`AccessScope.AlignedExactlyUnlessOvertaken`); `AccessScope.ImportCanBeOvertaken` and
  `AccessScope.EditCanBeOvertaken` are runs in which one does. For an import this is settled
  at its first write, since from then on a scope change waits for it
  (`AccessScope.OvertakenAtFirstWrite`). That no record is ever doubly scoped, and hence that
  list queries and single-record tests agree, holds in every run regardless.
- Key-set fetches are bounded except for those that fail while the cache is stale
  (`JwksCache.FetchesAreBounded`); then every lookup asks again
  (`JwksCache.FailuresAreUnbounded`).
- The CLI's second look for an identity after its insert conflicts never finds one
  (`IdentityLinks.SecondLookFindsNothing`); neither does the paging loop ever meet the
  visited check at its top (`Paging.TurnPage`).

## Model

| member | source | states |
|---|---|---|
| `RunLease.BackoffDoublesUpToCap` | src/repositories.rs:980-991 | for all 64-bit arguments the saturating product is never visible: the delay starts at the base, doubles with each attempt up to the cap, and is constant beyond 30 doublings |
| `RunLease.StepKeepsInv` | src/repositories.rs:620-942 | every guarded operation, enabled or not, keeps the invariant of a run's history (row shape, lease separation, acceptance, remaining status changes) under a non-decreasing clock |
| `RunLease.LeaseSafety` | src/repositories.rs:620-771 | in every interleaving the leases of a run are disjoint, each next one starts no earlier than the old expiry plus the computed backoff, no instant lies in two leases, and at most one result is accepted, from the worker of the latest lease inside that lease |
| `RunLease.BoundedLife` | src/repositories.rs:628-936 | at most 2 * max_attempts status changes and max_attempts attempts; finished_at is set exactly on ended runs; a queued run has no cancel request |
| `RunLease.LapsedLeaseStaysLapsed` | src/repositories.rs:668-691 | once a lease has expired no later operation of any trace changes its expiry |
| `RunLease.SupersededWorkerFenced` | src/repositories.rs:725-771 | the holder of a superseded lease can still renew, finalise or cancel exactly when it is also the worker of the latest lease and that lease is active; a different worker's operations change nothing |
| `RunLease.SameWorkerIsNotFenced` | src/repositories.rs:725-771 | at the level of the repository calls: a trace in which a result offered in the name of the worker of an earlier lease is accepted under a later lease of the same worker |
| `Executions.ResultsComeFromLatestLease` | src/rocket_routes/connectors/worker.rs:637-670 | in every schedule of worker loops, operators and recovery at most one result is accepted, and a worker's accepted result was delivered by the execution of the run's latest lease while that lease was valid |
| `Executions.LoopDelivers` | src/rocket_routes/connectors/worker.rs:637-670 | a worker that claims a fresh run has its result accepted exactly when it delivers inside its lease |
| `Executions.ExecutionFence` | src/repositories.rs:693-713 | the run is active for a worker that is executing it exactly as long as its execution holds the latest lease, unexpired, and no cancellation was requested |
| `Executions.StepKeepsWorld` | src/rocket_routes/connectors/worker.rs:637-670 | every step keeps: the execution a worker is in is the newest it was granted, and accepted results are those of the latest lease |
| `RunLease.CancellationIsFinal` | src/repositories.rs:773-885 | after a cancel request no trace grants or renews a lease, accepts a result, requeues the run, or ends it as anything but cancelled |
| `RunLease.LeasedRunNeverStuck` | src/repositories.rs:628-663 | a queued run is claimable at exactly the times from next_attempt_at on; recovery moves a leased running run at exactly the times from its expiry on |
| `RunLease.InProcessRunNeverRecovered` | src/repositories.rs:859-871 | no worker operation and no recovery pass ever changes an unleased running run |
| `RunLease.ClaimGivesTheLease` | src/repositories.rs:646-660 | a claim is one more attempt, and the run is then active for that worker and nobody else, at exactly the times before the lease ends |
| `RunLease.RenewalMovesTheEnd` | src/repositories.rs:668-691 | a renewal moves the end of the lease to exactly the new time and changes no other column a guard reads |
| `RunLease.RecoveryDecides` | src/repositories.rs:871-936 | an expired lease with a cancel request ends as cancelled, one on the last attempt as failed, and any other leaves the run claimable at exactly the times from the backoff on, with the attempt counted |
| `RunLease.ResultEndsTheRun` | src/repositories.rs:725-771 | an accepted result ends the run with exactly the status of its outcome, at the time it reports |
| `RunLease.CancelRequestTakesEffect` | src/repositories.rs:773-808 | a queued run ends at once, a running one keeps its worker and lease with the request noted, an ended one is untouched |
| `RunLease.CancelIsAcknowledged` | src/repositories.rs:810-849 | the owner's acknowledgement ends a running run with a pending request and changes nothing otherwise |
| `RunLease.InProcessFence` | src/repositories.rs:693-713 | a run nobody leased is active for its in-process owner exactly while it runs and no cancel is requested |
| `RunLease.AbandonedRunFailsAtTheLimit` | src/repositories.rs:859-936 | a run whose every lease lapses, whoever claims and recovers it and when, ends only as failed, after exactly max_attempts leases and 2 * max_attempts status changes |
| `RunLease.AbandonedRunEnds` | src/repositories.rs:859-936 | and from any point claims and recoveries lead there |
| `RunTable.ConnectorRuns.ClaimNextQueued` | src/repositories.rs:620-666 | claims exactly the first claimable unlocked run by scheduling order, or nothing if there is none, and changes no other row; the run is then active for the worker throughout the lease |
| `RunTable.ConnectorRuns.RenewLease` | src/repositories.rs:668-691 | renews exactly when the run is active for that worker, and says so; it then stays active for it throughout the new lease |
| `RunTable.ConnectorRuns.FinalizeIfActive` | src/repositories.rs:725-771 | ends the run exactly when it is active for its owner, after which nobody can claim it or deliver a result; otherwise nothing changes |
| `RunTable.ConnectorRuns.RequestCancelOf` | src/repositories.rs:773-808 | cancels a queued run at once, marks a running one, leaves an ended one, and reports a missing one as an error; afterwards nobody can claim the run or deliver a result |
| `RunTable.ConnectorRuns.MarkCancelledIfRequested` | src/repositories.rs:810-849 | returns and ends a running run as cancelled exactly when its owner asks and a request is pending; otherwise nothing changes |
| `RunTable.ConnectorRuns.SelectExpired` | src/repositories.rs:859-871 | the first `limit` expired unlocked runs by expiry, without repetition |
| `RunTable.ConnectorRuns.RecoverExpiredLeases` | src/repositories.rs:851-942 | recovers exactly the first expired unlocked runs by expiry and id, each once; its counters are the numbers of runs it left queued, failed and cancelled; exactly the connectors with a run it failed show the error and the time |
| `RunTable.RecoverNext` | src/repositories.rs:872-936 | one more turn of the recovery loop equals recovering one more row of the set, untouched by the turns before it |
| `RunTable.ConnectorRuns.DeleteFinishedOlderThan` | src/repositories.rs:966-977 | deletes exactly the runs finished before the cutoff and returns their number |
| `RunTable.RetentionSparesActiveRuns` | src/repositories.rs:966-977 | after any run of the table, retention with any cutoff removes no queued or running run |
| `RunTable.RowsEvolveIndependently` | src/repositories.rs:620-942 | in any run of the whole table a row present at the end went through exactly its own operations, and a row that vanished had ended |
| `RunTable.EveryRowIsSafe` | src/repositories.rs:620-942 | in any run of the whole table under one clock, every row that starts fresh has separated leases, one accepted result at most and from the latest lease, and a bounded life, and the table holds the row this history ends in |
| `RunTable.EveryInsertedRowIsSafe` | src/repositories.rs:514-602 | the same for every run inserted at any point |
| `RunCreation.NeverTwoActiveRuns` | src/repositories.rs:524-602 | however creators' lock, count, insert and commit interleave with each other and with the lease protocol, there is never more than one queued or running run per source and target |
| `RunCreation.CreationAlone` | src/repositories.rs:524-602 | with the connector free a creation inserts its run exactly when no queued or running run has its source and target, and a retry also needs its parent; other rows play no part and locks are released |
| `RunCreation.NoConnectorNoRun` | src/repositories.rs:532-537 | without the connector nothing is created |
| `RunCreation.ProtocolOnlyRetiresRuns` | src/repositories.rs:917-934 | no lease operation, requeueing included, makes an ended run active again or moves it to another source or target |
| `RunCreation.LockIsNeeded` | src/repositories.rs:531-545 | without the connector row lock two creators both count zero and both insert |
| `Secrets.DecryptAfterEncrypt` | src/crypto.rs:129-179 | for every tree and every choice of nonces, decrypting the encrypted tree equals decrypting the tree, failures included |
| `Secrets.EncryptTwice` | src/crypto.rs:129-153 | encrypting an encrypted tree changes nothing, whatever the second pass would draw |
| `SecretPaths.EncryptedAt` | src/crypto.rs:129-153 | after encryption every non-empty string without the prefix at a secret path is a string with the prefix that opens to it; any other value there, and the shape of every path that meets no secret, is as before |
| `SecretPaths.NothingPlainIsStored` | src/crypto.rs:129-153 | no encrypted tree holds a plain secret at any path |
| `SecretPaths.EncryptFailsExactly` | src/crypto.rs:129-153 | encryption fails exactly when the cipher fails on some plain secret |
| `SecretPaths.DecryptedAt` | src/crypto.rs:155-179 | after decryption every sealed secret is what it opens to, and the rest is as before |
| `SecretPaths.DecryptFailsExactly` | src/crypto.rs:155-179 | decryption fails exactly when some sealed secret does not open |
| `SecretPaths.RedactedAt` | src/crypto.rs:181-199 | after redaction every value at a secret path is the placeholder, and the rest is as before |
| `SecretPaths.RoundTrip` | src/crypto.rs:129-179 | decrypting the encryption of a tree that held no sealed secret gives the tree back |
| `SecretPaths.SecretKeysExactly` | src/crypto.rs:263-279 | the secret keys are exactly the twelve names, in any mix of ASCII cases |
| `Secrets.RedactHidesSecrets` | src/crypto.rs:181-199 | any rewriting of the values under secret keys leaves the redacted tree the same |
| `Secrets.RedactAfterEncrypt` | src/crypto.rs:181-199 | redacting an encrypted tree equals redacting the tree |
| `Secrets.RedactTwice` | src/crypto.rs:181-199 | redaction always succeeds and is idempotent |
| `Secrets.PreserveExactly` | src/crypto.rs:91-127 | restoring succeeds if and only if every placeholder path exists in the stored tree; then it takes the stored value at exactly those paths and keeps the shape at every other path |
| `Secrets.PreserveAtPath` | src/crypto.rs:91-127 | the same, path by path |
| `Secrets.PreserveFailureWitness` | src/crypto.rs:103-111 | a failed restore has a placeholder path with nothing stored there |
| `Secrets.SavingWhatWasShownChangesNothing` | src/crypto.rs:72-199 | for every tree that encryption produced, redact, restore against it, encrypt again gives it back |
| `SecretWalk.WalkSecrets` | src/crypto.rs:129-199 | the in-order walk that overwrites fields and items computes the recursive transform and stops at its first failure |
| `SecretWalk.PreserveRedactedJsonSecrets` | src/crypto.rs:91-127 | the restoring walk computes the recursive restore and stops at its first failure |
| `SnapshotPreview.SanitizedSnapshot` | src/crypto.rs:42-70 | the shrinking loop ends; the answer is the text if it fits and otherwise the wrapping of a non-empty prefix, which fits if and only if wrapping one character would |
| `SnapshotPreview.PlainTextKeepsAllButTheFrame` | src/crypto.rs:52-62 | a text without characters to escape keeps its first max - 128 characters, as they are, in an answer that fits |
| `SnapshotPreview.DigitsReadBack` | src/crypto.rs:56-60 | the limit in the answer reads back as the limit |
| `Paging.PaginationLimits` | src/connector_adapters/graph.rs:23-43 | the limits given, 20 pages and 1,000 items if none is, refused exactly outside 1 to 100 pages and 1 to 10,000 items, pages first |
| `Paging.TurnPage` | src/connector_adapters/graph.rs:60-125 | one turn of the loop either answers correctly or moves on with its invariant; the visited check at the top cannot fire |
| `Paging.FollowChain` | src/connector_adapters/graph.rs:45-131 | at most max_pages requests, none repeated; the items are the prefix of the chain's items cut at max_items; an incomplete answer hit a limit; the code after the loop is reached only for max_pages = 0 |
| `Paging.FetchCollection` | src/connector_adapters/graph.rs:45-195 | the same for the pages and links read from the server's replies; complete if and only if that chain ends within both limits, and then the whole chain; a loop error only on a chain that never ends |
| `Paging.PageIsWhatTheReplySays` | src/connector_adapters/graph.rs:133-195 | a page loads exactly when the server answers, the answer carries an array in the first collection field present, and its first link field is absent or null, ending the chain, or a non-blank string that resolves against the request to the initial origin, leading there; any other link is an error |
| `Paging.ChainStaysOnOrigin` | src/connector_adapters/graph.rs:184-194 | every request of the chain goes to the scheme, host and port of the first |
| `Paging.CompleteExactlyWhenChainFits` | src/connector_adapters/graph.rs:105-123 | snapshot_complete is reported if and only if the chain ends within both limits, and then the items are the whole chain |
| `Paging.LoopMeansEndless` | src/connector_adapters/graph.rs:95-103 | a loop error is raised only on a chain that really never ends |
| `AzureFetch.DedupeKeepsFirstOccurrences` | src/connector_adapters/azure_devops.rs:97-110 | deduplication keeps each id once, at its first occurrence, in order |
| `AzureFetch.ReadIds` | src/connector_adapters/azure_devops.rs:94-110 | the ids read are the deduplicated query ids cut at the limit; fails exactly when an entry has no numeric id |
| `AzureFetch.FetchBatch` | src/connector_adapters/azure_devops.rs:148-208 | one batch: succeeds exactly when the reply is usable and covers every requested id, and returns one item per id in request order |
| `AzureFetch.FetchWorkItems` | src/connector_adapters/azure_devops.rs:87-214 | succeeds exactly when the query and every batch are usable in full; one item per wanted id in query order; complete exactly when the query did not fill the limit |
| `AzureFetch.ServiceAnswersExactly` | src/connector_adapters/azure_devops.rs:87-195 | the fetch succeeds exactly when the query reply holds a workItems array of items with ids and each run of 200 wanted ids is covered by the value array of its own reply |
| `AzureFetch.LastWithIdIsLast` | src/connector_adapters/azure_devops.rs:181-192 | of duplicates in a reply the last one is taken |
| `AzureFetch.FetchedIdsAreTheQueried` | src/connector_adapters/azure_devops.rs:94-214 | the items carry distinct ids, the wanted ones in order, whatever the order or duplication in replies; a complete snapshot misses no queried id |
| `AzureFetch.MaxItems` | src/connector_adapters/azure_devops.rs:217-226 | the limit given, the default if none is, refused exactly outside the allowed range |
| `Reconcile.RecordTable.UpsertFromConnector` | src/repositories.rs:2051-2064 | overwrites the row with the same source and external id if there is one, otherwise adds one; keys stay unique |
| `Reconcile.RecordTable.ArchiveMissing` | src/repositories.rs:2066-2088 | archives exactly the connector's live rows the run did not see, and returns how many |
| `Reconcile.ArchiveLeavesSeen` | src/repositories.rs:2066-2088 | afterwards the live rows are the ones seen, rows of other connectors and rows seen are unchanged, keys stay unique, and a second archive finds none |
| `Reconcile.RecordTable.Import` | src/rocket_routes/connectors/runtime.rs:604-676 | upserts exactly the valid items, counts the others, archives only after a complete snapshot without errors |
| `Reconcile.CompleteImportIsExact` | src/repositories.rs:2051-2088 | after a complete import on records its run has not seen, the connector's live rows are exactly the imported ones, revived ones included; the archived are what was live and not imported; rows outside the connector and the import are unchanged; keys are unique |
| `RunCommits.StampsComeWithTheResult` | src/rocket_routes/connectors/runtime.rs:71-113 | in every schedule of worker loops, recovery, cancellation, other imports and manual edits: as long as no result of the run was accepted no record carries the run's stamp, at most one result is accepted, and a worker's comes from the execution of the latest lease |
| `RunCommits.DeliveredImportIsExact` | src/rocket_routes/connectors/runtime.rs:344-362 | hence every accepted import meets records its run has not seen, is the run's only result, and if complete leaves exactly its records live |
| `RunCommits.DeliveryCommitsInsideTheLease` | src/rocket_routes/connectors/runtime.rs:71-113 | the worker of the latest lease commits records and result together while the lease is valid, and neither afterwards |
| `AzureSync.SyncWorkCards` | src/rocket_routes/connectors/runtime.rs:604-676 | fetch, import and reconcile together: a failed fetch changes nothing, and a work item the query still returns never has its card archived |
| `LoginThrottle.ThrottleTable.RecordFailure` | src/repositories.rs:3175-3238 | the bucket's new counter, window and lock, and the seconds reported; other buckets unchanged |
| `LoginThrottle.ThrottleTable.RetryAfterSeconds` | src/repositories.rs:3157-3173 | an answer exactly while the bucket is locked: the whole seconds left, at least one |
| `LoginThrottle.FreeFailuresBounded` | src/repositories.rs:3175-3238 | over any trace, any half-open interval of one window holds at most 2 * max - 3 failures without a lockout (none when max is 1) |
| `LoginThrottle.FreeBoundIsReached` | src/repositories.rs:3175-3238 | for every limit of two or more some trace reaches that bound |
| `LoginThrottle.LocksAtTheLimit` | src/repositories.rs:3175-3238 | on a new bucket the failure that makes max within one window, and none before, is answered, and the bucket then answers for exactly the lockout |
| `LoginThrottle.LockHolds` | src/repositories.rs:3216-3222 | a lock holds to its end through any failures, even those that start a new window |
| `LoginThrottle.WindowDecides` | src/repositories.rs:3204-3215 | a failure inside the window adds to the count, one after it starts a new count of one |
| `LoginThrottle.PruneUnobservable` | src/repositories.rs:3246-3262 | if the cutoff is at least a window old, every later trace of failures and questions gets the same answers with the bucket or without it |
| `LoginThrottle.DailyPruneUnobservableIff` | src/rocket_routes/authorization.rs:254-259 | one prune of a day-old bucket is unobservable if and only if the window is at most a day or the limit is one |
| `LoginThrottle.LoginsCannotTellIff` | src/rocket_routes/authorization.rs:254-266 | the same for a prune of the whole table at every login, over whole traces of failures, questions and clears on any number of buckets |
| `LoginThrottle.ThrottleTable.PruneBefore` | src/repositories.rs:3246-3262 | removes exactly the buckets last updated, and last locked if at all, before the cutoff |
| `Sessions.SelectOldest` | src/repositories.rs:3088-3095 | the first rows by creation time and id, as many as asked for or all |
| `Sessions.OldestIsUnique` | src/repositories.rs:3088-3095 | the order determines which rows those are |
| `Sessions.SessionTable.Create` | src/repositories.rs:3038-3119 | refuses limits outside 1 to 100; otherwise the user keeps exactly min(live, limit - 1) earlier rows, every evicted live row older than every kept one, plus the new row; other users' rows stay; refused, with nothing changed, exactly when a row left over has the token |
| `Sessions.CommitEvictsOldest` | src/repositories.rs:3062-3116 | the same for a call interleaved with others and with logouts: at its commit the user has at most `limit` rows, only the user's rows vanish, and each was expired or older than every row kept |
| `Sessions.RoomyLoginAlone` | src/repositories.rs:3038-3119 | a login whose user has room stores its session and removes only the user's expired rows |
| `Sessions.FullLoginAlone` | src/repositories.rs:3081-3116 | one whose user has none also removes exactly the oldest live rows that are too many |
| `Sessions.OlderMeans` | src/repositories.rs:3091-3093 | older is created earlier, or at the same time with the smaller id |
| `Sessions.DeletesAlone` | src/repositories.rs:3128-3148 | logout, revocation and expiry remove exactly the rows of the token, of the user, or past their time |
| `Sessions.NewestExactly` | src/repositories.rs:3088-3116 | the new session comes after every row of the user, kept or evicted, exactly when none of those was created by a transaction that started later; equal times are decided by the id |
| `Sessions.NewestIfStartedLast` | src/repositories.rs:3062-3116 | and this is settled when the login gets the lock, whatever is interleaved afterwards |
| `Sessions.WaitingLoginEvictsNewer` | src/repositories.rs:3062-3116 | a run in which a login that waited for the lock evicts a session created after its own |
| `Sessions.SessionsStayBounded` | src/repositories.rs:3037-3148 | in every interleaving, at every moment, each user has at most as many rows as the limit of that user's latest committed login |
| `OidcLogins.NeverOverCapacity` | src/repositories.rs:2856-2889 | from an empty table, or any within the limit, no interleaving of creations, consumptions and expiry exceeds the limit, expired rows included |
| `OidcLogins.CommitKeepsCapacity` | src/repositories.rs:2868-2886 | after each committed creation the table is within that call's own limit |
| `OidcLogins.CreateAlone` | src/repositories.rs:2856-2889 | a call with nothing in its way is refused exactly when rows that have not expired reach the limit, fails exactly when its state is taken by one of them, and otherwise stores its row |
| `OidcLogins.ConsumeExactly` | src/repositories.rs:2891-2905 | consuming takes the row exactly when it is there, comes with its browser hash and has not expired, and nobody is pruning it; otherwise nothing changes |
| `OidcLogins.LoginCompletesOnce` | src/repositories.rs:2856-2905 | a created login is completed by its own browser before its expiry, and by nobody a second time |
| `OidcLogins.ConsumedAtMostOnce` | src/repositories.rs:2891-2905 | every consumption in every interleaving took a row created earlier, with its own browser hash, before its expiry, and not consumed, replaced or expired in between, by whichever call prunes |
| `OidcLogins.TwoConsumptionsNeedTwoCreations` | src/repositories.rs:2891-2905 | two consumptions of one state have a creation of that state between them |
| `IdentityLinks.LinksAreWriteOnce` | src/repositories.rs:2734-2850 | in every interleaving of provisioning, CLI links and profile updates there is one identity per (tenant, object), by the lock alone; no identity disappears or changes user or issuer, nor its subject once set |
| `IdentityLinks.StepKeepsInv` | src/bin/cli.rs:322-374 | every statement of every transaction, and every commit, rollback and profile update, keeps the invariant behind that |
| `IdentityLinks.SubjectsStayUnique` | src/bin/cli.rs:488-512 | in every interleaving an issuer's subject names at most one identity: every write of a subject is checked against committed rows and waits for uncommitted ones |
| `IdentityLinks.EverythingIsAccounted` | src/repositories.rs:2790-2842 | identities, provisioned users and audit rows grow by exactly what the calls reported, key by key and action by action |
| `IdentityLinks.ExactlyOneCreates` | src/repositories.rs:2761-2850 | without a prior link, if any of the racing calls succeeds exactly one reports created, all name the same identity and user, and a provisioning leaves one user, one member role and one audit row |
| `IdentityLinks.SecondLookFindsNothing` | src/bin/cli.rs:551-565 | after a conflicting CLI insert the second look finds no identity, so the call ends in a conflict |
| `IdentityCalls.CallAlone` | src/bin/cli.rs:463-565 | every call, provisioning or link, that runs from its lock to its commit without having to wait has exactly the effect of its sequential specification: the conflicts, the identity or subject written, the user and member role, the audit row and the report |
| `IdentityCalls.FreeCallCreates` | src/repositories.rs:2761-2850 | with no other call under way, no identity of the key and none of the issuer with the subject, a call creates the identity, its audit row and, for provisioning, its user |
| `IdentityCalls.FreeLinkAddsSubject` | src/bin/cli.rs:488-512 | a link of the same user and issuer adds the subject an identity lacks if no identity of the issuer has it |
| `IdentityLinks.ProfileRecordsSubject` | src/repositories.rs:2734-2759 | a login records its subject exactly when the issuer matches, the identity has none or the same one, and no other identity of the issuer has it |
| `JwksCache.EntraOidcClient.DecodingKey` | src/rocket_routes/entra_auth.rs:123-163 | a key is answered if and only if it is the only entry for its kid, and usable, in the document at hand; the provider is asked if and only if the document is old, or lacks the kid with no unknown kid in the last 30 seconds; the document, its time and the cooldown change exactly accordingly |
| `JwksCache.LookupAnswersExactly` | src/rocket_routes/entra_auth.rs:123-163 | the same for every cache, lookup and reply |
| `JwksCache.KeyIsOnlyEntry` | src/rocket_routes/entra_auth.rs:873-883 | a key is found if and only if it is the only entry with that kid |
| `JwksCache.ReturnedKeysAreCurrent` | src/rocket_routes/entra_auth.rs:123-163 | every key ever returned is the only entry for its kid in the document fetched last, which the same call fetched or which is younger than the TTL |
| `JwksCache.FetchesAreBounded` | src/rocket_routes/entra_auth.rs:128-152 | from any cache filled no later than the interval begins, whatever the provider answers: calls starting within an interval of length d make at most d/ttl + d/30s + 2 fetches besides those that fail on a stale cache, and as many successful ones at most |
| `JwksCache.AnsweredFetchesSucceed` | src/rocket_routes/entra_auth.rs:152-154 | if the provider always answers there are none of those, so the bound is on all fetches |
| `JwksCache.UnknownAttemptsFit` | src/rocket_routes/entra_auth.rs:142-149 | fetches for unknown kids, failed ones included, are at most as many as instants 30 seconds apart fit between the end of the cooldown and the last call |
| `JwksCache.FailuresAreUnbounded` | src/rocket_routes/entra_auth.rs:152-154 | with a stale or empty cache and a failing provider every call fetches |
| `LikeSearch.ThreeReplacesAreOnePass` | src/repositories.rs:2349-2355 | the three replacements in that order equal a one-pass escape of backslash, percent and underscore |
| `LikeSearch.SearchIsLiteral` | src/repositories.rs:2347-2361 | for every search string and text the ILIKE pattern matches if and only if the string occurs literally in the text, up to the case fold |
| `LikeSearch.SearchIsAccepted` | src/repositories.rs:2347-2361 | no search string yields a pattern that ends in a dangling escape |
| `LikeSearch.BackslashMustGoFirst` | src/repositories.rs:2349-2355 | with the backslash replaced last, a search for a percent sign fails |
| `AccessScope.FilterDiffersExactly` | src/repositories.rs:22-35 | under SQL's three-valued logic the list filter and the single-record test differ exactly on doubly scoped records whose owner or maintainer matches a non-admin |
| `AccessScope.FilterAgreesForAll` | src/repositories.rs:1860-1869 | they agree for everyone if and only if the record is not doubly scoped |
| `AccessScope.VisibleExactly` | src/repositories.rs:1860-1869 | a record that is not doubly scoped is listed for admins, for everyone if global, for its owner, and for members of its maintainer, and for nobody else |
| `AccessScope.ValidScopesExactly` | src/models.rs:152-185 | accepted are exactly a global scope, one positive owner and one positive maintainer, each under its own name |
| `AccessScope.StepsAlone` | src/repositories.rs:156-215 | run alone, a scope change reaches its connector and exactly its records, a manual record is global, and an import leaves its record with the connector's scope |
| `AccessScope.ListsAndLookupsAgree` | src/repositories.rs:156-215 | in every run of scope changes, imports, and manual creates and edits, interleaved in any way, they agree on every record for everyone |
| `AccessScope.AlignedExactlyUnlessOvertaken` | src/rocket_routes/work_cards.rs:253-263 | every record has its connector's scope at every moment of a run if and only if no import or edit of the run writes back a scope that has changed since it was read |
| `AccessScope.UndisturbedStaysAligned` | src/repositories.rs:156-215 | if no scope change overlaps an import or edit of the same connector, records never leave their connector's scope |
| `AccessScope.OvertakenAtFirstWrite` | src/repositories.rs:167-171 | from an import's first write to its end its connector's scope cannot change, so whether its commit is overtaken is settled then |
| `AccessScope.ImportCanBeOvertaken` | src/rocket_routes/connectors/runtime.rs:604-640 | a run in which the scope changes between an import's read and its first write, and its record keeps the old scope |
| `AccessScope.EditCanBeOvertaken` | src/rocket_routes/work_cards.rs:253-263 | a run in which a manual edit writes the old scope back |

## Left out

- Encryption, password hashing, token hashes, JWT signatures and claims, URL and UUID parsing: foreign code; they appear as parameters with the laws the proofs use.
- HTTP clients, routes, guards, cookies, OpenAPI and the web frontend.
- `update_state`, the demo seed's reset of runs and the unconditional `create`: they bypass the guards the run theorems are about.
- Run counters, messages, payload columns and `updated_at` columns: no guard reads them.
- Foreign-key cascades and the deletion of connectors, users and maintainers.
- RunCommits.StampsComeWithTheResult: the transaction that imports and finalises is one step, taken when it ends; its statements do not interleave with other imports of the same records.
- Clock skew between processes, and isolation effects other than those of the named locks, invisible uncommitted writes and waiting for a locked row.
- Field validators, status and severity normalisers, `normalize_azure_work_item`, configuration parsing, dashboards, and the my-work filters and sorts.
- In-place update of a JSON document through a mutable reference: the walks take the document and return it, since nothing else refers to it meanwhile.
- RunTable.ConnectorRuns.FinalizeIfActive: the outcome is success, partial_success or failed with a finish time, as the runtime always passes; the other columns it sets are not modelled.
- LikeSearch.SearchIsLiteral: the case fold is any character-by-character fold that fixes backslash, percent and underscore and maps nothing else to them; folds that change the length of a text are not modelled.
