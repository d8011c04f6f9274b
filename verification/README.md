# Verified models of the service skeleton

These Dafny modules model the parts of the service where several processes, a database, a cache or a file
system have to agree, and prove what those parts promise. `dafny verify dfyconfig.toml` checks everything.

| file | what it models |
|---|---|
| `JobTable.dfy` | the table `background_jobs`: row constraints, every SQL statement as one atomic operation, runs of statements |
| `FairClaims.dfy` | the order in which `claim` serves pending rows |
| `JobQueue.dfy` | `PostgresJobQueue` as a class that changes the table in place |
| `WorkerAutomaton.dfy` | what one worker may observe and do, as an automaton over timed events; heartbeat and retry arithmetic |
| `JobWorker.dfy` | `run_once`, `execute_with_heartbeat` and `run_maintenance` as loops, against an arbitrary script of clock, handler and database |
| `LeaseProtocol.dfy` | any number of workers and one table; statements may be late, lost, or executed without their answer arriving |
| `KeyIndex.dfy`, `KeyCache.dfy` | the JWKS index, and `key_for` with any number of interleaved and cancelled callers |
| `Users.dfy`, `UserCache.dfy`, `UserUseCases.dfy` | the user use cases over repository and cache: interleaved at every await, and one after another |
| `Lockfile.dfy`, `Renamer.dfy`, `Text.dfy` | the scaffold's text transformations over unbounded text |
| `Migrations.dfy` | the next migration version, file names that carry it, writing both files or neither |

How the three worker files fit together: `JobWorker.RunOnce` is proved to produce, for every script, a trace
that `WorkerAutomaton.Step` accepts; `LeaseProtocol` runs that same `Step` for every process beside the statements
of `JobTable.Apply`, which the methods of `JobQueue.PostgresJobQueue` are proved to execute.

## What is assumed

- There is one shared clock in integer ticks (nanoseconds), and each statement is atomic at its own `NOW()`.
- Every worker uses the same lease, as README.md:233 of the repository demands; worker ids may coincide.
- Job ids and user ids are fresh when they are inserted.
- A statement may pick any subset of its eligible rows in `LeaseProtocol` (this covers limits and rows skipped as
  locked). In `JobQueue` nobody else holds row locks, so the documented order and limits are exact there.
- A repository write may be committed although its call reports a failure. A cache command may take effect after its
  call gave up on it, but no later than `longest` ticks after the call began.
- The handler and each reply may arrive at any time. A reply that is ready beats a timeout that is also ready, and
  may equally lose against it.

## Where code and documentation disagree

The models follow the code in each case.

- docs/system-architecture.md:627 calls claiming one transaction. The code issues two autocommitted statements
  (src/infrastructure/database/postgres/job_queue.rs:77-127), so other sessions interleave between them here.
- ARCHITECTURE.md:999 has renewals retried about every eighth of the lease. A quarter of the renewal interval, which
  is a third of the lease, is a twelfth (src/application/job/worker.rs:163-165).
- docs/system-architecture.md:443-452 describes optimistic concurrency for updates. The update is one unconditional
  statement by id (src/infrastructure/database/postgres/user_repository.rs:90-102).

## What turned out false, and exactly when it holds

- docs/system-architecture.md:688-692 gives the backoff as a formula that doubles per attempt, and the sentence behind it
  says that the exponent is capped, without saying where. The code caps it at 31; formula and code agree if and only if
  the attempt is at most 32, the base is zero, or the maximum is at most the base times 2^31
  (`WorkerAutomaton.DelayIsAsDocumentedUnlessCapped`, with an input in `WorkerAutomaton.CappedDelayExample`).
- A sequential `update` or `delete` keeps the cache a faithful part of the repository if and only if, before the call,
  it cannot change the row (invalid input, taken address, unknown id, the same values, or a repository that fails
  first), or it will confirm the write and one of its cache commands will take effect, or no live entry exists for the
  id (`UserUseCases.Keeps`, `UserUseCases.CoherenceIsKeptExactly`; inputs in `UserUseCases.LostInvalidationExample` and
  `UserUseCases.LostUpdateExample`).
- Renaming can create a package marker that was not there (`Renamer.SpelledMarkerExample`). For one text it does not if
  and only if no place that spells a marker, with skeleton names read as their replacements, is anything but a marker
  (`Renamer.Genuine`, `Renamer.MarkersStandExactly`). It does not for any text at all if and only if no replacement occurs
  in the marker (`Renamer.OutsideNamesAreExact`), which for a project name means that the name itself does not occur in
  `[[package]]` (`Renamer.OutsideProjectNames`). For any name it does not in texts where no skeleton name follows a
  double bracket on its line (`Renamer.PlainBracketsAreGenuine`).

## Model

| member | source | states |
|---|---|---|
| LeaseProtocol.LeaseSafety | src/application/job/worker.rs:59-83 | In every reachable state of any number of workers, with late, lost and unanswered statements, a worker before its deadline owns the job's row at its attempt, and the table's expiry is no earlier than that deadline |
| LeaseProtocol.NoTwoHolders | src/application/job/worker.rs:148-214 | No two processes are before their deadlines with the same job, even under one worker id |
| LeaseProtocol.AttemptsAreHandedOutOnce | src/infrastructure/database/postgres/job_queue.rs:103-127 | Over any run each attempt of a job is handed out at most once |
| LeaseProtocol.HandOutsAreRecorded | src/infrastructure/database/postgres/job_queue.rs:114-123 | A hand-out is new and its attempt number exceeds all earlier ones of that job; nothing else hands out attempts |
| LeaseProtocol.SupersededStatementsAreRefused | src/infrastructure/database/postgres/job_queue.rs:132-212 | A delayed renew, complete or fail of an attempt older than one already handed out changes no row and is answered with a lost lease |
| LeaseProtocol.TerminalWritesHitNoHolder | src/application/job/worker.rs:85-125 | No terminal write still under way concerns an attempt that any process relies on |
| LeaseProtocol.OutcomesAreTrue | src/application/job/worker.rs:81-145 | A reported completed, retry scheduled or dead-lettered was done by this very attempt: the row was running under it and moved to completed, to pending with the backoff added, or to dead with the attempts used up |
| LeaseProtocol.GrantsAreFresh | src/infrastructure/database/postgres/job_queue.rs:114-116 | The attempt a row would be claimed with next was never handed out |
| LeaseProtocol.ReapKeepsInv | src/infrastructure/database/postgres/job_queue.rs:77-101 | Reaping with the common lease takes no row from a worker whose deadline has not passed, at any interleaving |
| LeaseProtocol.RenewalKeepsInv | src/infrastructure/database/postgres/job_queue.rs:157-175 | A renewal, even of an expired and unreaped lease, credits its holder from the renewal's start, also while the reply is in flight |
| LeaseProtocol.ClaimKeepsInv | src/infrastructure/database/postgres/job_queue.rs:103-127 | A claim credits its claimant from before the claim and disturbs nobody else's credit |
| LeaseProtocol.WriteKeepsInv | src/infrastructure/database/postgres/job_queue.rs:132-222 | A terminal write that takes effect is recorded once and disturbs no holder |
| LeaseProtocol.HoldersStayOk | src/application/job/worker.rs:168-213 | Every step of the heartbeat loop keeps the deadline covered by what the table guarantees |
| LeaseProtocol.ActionsKeepInv | src/application/job/worker.rs:58-214 | Every action of clock, worker, database or network keeps the protocol invariant |
| LeaseProtocol.RunsKeepInv | src/application/job/worker.rs:58-214 | So does every run |
| JobWorker.ExecuteWithHeartbeat | src/application/job/worker.rs:148-214 | For every environment the loop consumes exactly what arrived and ends cut off while waiting, or with exactly the result that the last handler event of the trace carried and the deadline of the last success, or with a lost lease, which only a passed deadline or a lost renewal causes |
| JobWorker.Heartbeat | src/application/job/worker.rs:163-213 | The loop behind it: where it stops is where the automaton stops, for every environment |
| JobWorker.AwaitRenewal | src/application/job/worker.rs:184-196 | The handler stays polled during a renewal; once it finishes, only the renewal's reply is awaited |
| JobWorker.RunOnce | src/application/job/worker.rs:58-146 | Read off the last event of the trace alone, in both directions: completed, retry scheduled and dead-lettered each answer exactly their own write reply, idle exactly an empty claim, unavailable exactly such a reply, lost lease exactly a timeout, a step too late or such a reply; the trace is made of exactly the delivered events and the worker's own steps |
| JobWorker.RunMaintenance | src/application/job/worker.rs:216-231 | On a table nobody else touches, with each statement at its own NOW(), exactly the rows of the batches are deleted, each eligible when its batch ran, and their number is min(16000, rows eligible at the last statement issued), which is returned; an unavailable database ends the cycle with everything before it deleted |
| JobWorker.EligibleRowsShrink | src/application/job/worker.rs:219-228 | At any later time the rows deleted so far and the rows still eligible are together exactly the rows eligible at that time |
| JobWorker.MaintenanceIsBounded | src/application/job/worker.rs:219-228 | So the count lies between min(16000, eligible at the first statement) and min(16000, eligible at the last possible one) |
| JobWorker.MaintenanceIsThorough | src/application/job/worker.rs:216-231 | After fewer than 16000 deletions no completed or dead row past its retention at the last statement is left |
| WorkerAutomaton.DeadlineIsLastSuccessPlusLease | src/application/job/worker.rs:163-201 | While a job is held the deadline is the start of the claim or of the last successful renewal plus the lease |
| WorkerAutomaton.DeadlineNeverMovesBack | src/application/job/worker.rs:197-201 | No event moves a held job's deadline backwards |
| WorkerAutomaton.WritesStartBeforeTheDeadline | src/application/job/worker.rs:81-83 | A terminal write is issued strictly before the deadline of the last success |
| WorkerAutomaton.RenewalsBetweenSuccessesAreBounded | src/application/job/worker.rs:163-209 | Renewals between successes fit one retry interval apart into the lease: at most nine for any lease of at least 96 ns |
| WorkerAutomaton.TracesHaveMeaning | src/application/job/worker.rs:163-213 | The worker's local variables are functions of the history of accepted events |
| WorkerAutomaton.EventsFollowExactly | src/application/job/worker.rs:58-214 | After any trace, exactly which event may come next, by the last event and the history alone: timers at a third of the lease after a success and a twelfth after a failed renewal, steps and timeouts split at the last success plus the lease, and a terminal write that is the completion or the failure the handler returned |
| WorkerAutomaton.TracesAgree | src/application/job/worker.rs:58-214 | The worker's phase is a function of the last event and the history |
| WorkerAutomaton.WritesReportTheHandler | src/application/job/worker.rs:85-125 | A completion is written exactly if the handler succeeded; a failure carries the handler's own message and the delay of this attempt |
| WorkerAutomaton.SettledResultsAreTheHandlers | src/application/job/worker.rs:175-204 | The result that the loop hands on is that of the last handler event since the claim |
| WorkerAutomaton.AnswersFollowTheLastEvent | src/application/job/worker.rs:70-146 | A run answers completed, retry scheduled, dead-lettered or idle exactly after the one event that says so |
| WorkerAutomaton.ErrorsFollowTheLastEvent | src/application/job/worker.rs:70-214 | A run fails with unavailable or a lost lease exactly after the listed replies, timeouts and late steps |
| WorkerAutomaton.RetryDelayIsMonotone | src/application/job/worker.rs:234-237 | The delay never shrinks with the attempt and never exceeds the maximum |
| WorkerAutomaton.DelayIsAsDocumentedUnlessCapped | src/application/job/worker.rs:234-237 | Exactly when the capped and saturating computation gives the uncapped exponential backoff |
| WorkerAutomaton.CappedDelayExample | src/application/job/worker.rs:235 | A configuration in whole seconds on which the cap shows: one second, doubled 32 times |
| JobTable.RunsKeepRowsSound | migrations/20260801000000_create_background_jobs.up.sql:1-32 | No run of statements produces a row that a constraint rejects, nor one outside the stronger row invariant |
| JobTable.StatementKeepsRowsSound | src/infrastructure/database/postgres/job_queue.rs:77-250 | One step of that |
| JobTable.DueRowsAreClaimable | src/infrastructure/database/postgres/job_queue.rs:107-109 | The attempts filter of claim never hides a due pending row |
| JobTable.StatementsFollowTheDiagram | src/infrastructure/database/postgres/job_queue.rs:77-250 | Every statement moves every row along an edge of the documented state diagram with that edge's effect, or deletes it once terminal and aged |
| JobTable.RunningRowsAreFenced | src/infrastructure/database/postgres/job_queue.rs:80-81 | A running row changes only through a reap after its lease ran out or through its owner at this attempt |
| JobTable.MovesLowerTheMeasure | src/infrastructure/database/postgres/job_queue.rs:86-127 | Every claim, failure, completion and reap lowers 2(max - attempts) plus one while running; renewing leaves it |
| JobTable.LifetimesAreBounded | src/infrastructure/database/postgres/job_queue.rs:86-212 | In any run a job makes at most 2 max_attempts moves, starts at most max_attempts handler runs, and its attempts count its claims exactly |
| JobTable.JobsLeaveOnlyAfterRetention | src/infrastructure/database/postgres/job_queue.rs:231-242 | A job that is gone was deleted by a purge, completed or dead and older than its retention at that moment |
| JobTable.RowsAreConserved | src/infrastructure/database/postgres/job_queue.rs:224-287 | Over any run rows at the end plus deletions equal rows at the start plus inserts |
| JobTable.ClaimsCarryTheInsertedJob | src/infrastructure/database/postgres/job_queue.rs:114-127 | In any run whatever a claim hands out has the type, payload, trace context and maximum of the job that was inserted under that id |
| JobTable.JobsStayTheSame | src/infrastructure/database/postgres/job_queue.rs:77-250 | No statement of any run changes the type, payload, trace context, maximum or creation time of a row |
| JobTable.ValidTypes | migrations/20260801000000_create_background_jobs.up.sql:15-16 | A job type is accepted exactly if one to 200 characters remain between its leading and trailing blanks |
| FairClaims.NoStarvation | src/infrastructure/database/postgres/job_queue.rs:103-117 | A due pending job is claimed within as many claims as pending rows are ordered at or before it, whatever is enqueued, failed or reaped meanwhile |
| FairClaims.LineNeverGrows | src/infrastructure/database/postgres/job_queue.rs:86-117 | One statement never lengthens that line, and a claim of another row shortens it |
| JobQueue.PostgresJobQueue.Enqueue | src/infrastructure/database/postgres/job_queue.rs:61-66 | Adds exactly one row, field by field the job's type, payload, trace context and maximum, pending, without attempts, due now, exactly if key and constraints allow; else reports unavailable and changes nothing |
| JobQueue.PostgresJobQueue.ReapExpired | src/infrastructure/database/postgres/job_queue.rs:77-101 | Requeues or dead-letters exactly the longest expired leases, at most 1000; every field of a reaped row is stated, all other rows stay |
| JobQueue.PostgresJobQueue.ClaimNext | src/infrastructure/database/postgres/job_queue.rs:103-129 | Hands out a first row in line (due first, then created first) with its new attempt number, or none exactly if no pending row is due with attempts left; nothing else changes |
| JobQueue.PostgresJobQueue.Claim | src/infrastructure/database/postgres/job_queue.rs:68-130 | Reap, then claim: what is handed out is owned at the new attempt and locked at the claim's time |
| JobQueue.PostgresJobQueue.Complete | src/infrastructure/database/postgres/job_queue.rs:132-155 | Completes exactly the row running under this worker and attempt, stamped now, else reports a lost lease and changes nothing |
| JobQueue.PostgresJobQueue.Renew | src/infrastructure/database/postgres/job_queue.rs:157-175 | Restamps exactly the row running under this worker and attempt, else reports a lost lease and changes nothing |
| JobQueue.PostgresJobQueue.Fail | src/infrastructure/database/postgres/job_queue.rs:177-222 | Schedules the retry after the delay while attempts remain, dead-letters when they are used up, stores the first 4000 characters of the error, and reports which |
| JobQueue.PostgresJobQueue.PurgeTerminal | src/infrastructure/database/postgres/job_queue.rs:224-250 | Deletes only completed and dead rows past their retention, at most 1000, fewer only if none of those is left; returns how many |
| JobQueue.SupersededAttemptsChangeNothing | src/infrastructure/database/postgres/job_queue.rs:145-212 | A renew, complete or fail with a superseded attempt leaves the table as it is |
| KeyIndex.IndexKeys | src/infrastructure/oidc/mod.rs:348-387 | For every iteration order of the algorithm set the nested loops return what linear search prescribes: the first usable key per algorithm and key id, an error exactly if a selected key does not decode or nothing is selected |
| KeyIndex.IndexingIsDetermined | src/infrastructure/oidc/mod.rs:355-379 | That prescription has one result, so the iteration order cannot matter |
| KeyIndex.FirstMatchIsFirst | src/infrastructure/oidc/mod.rs:359-365 | The reference search returns the first usable key in document order, or none if there is none |
| KeyIndex.OnlyAsymmetricKeysAreUsable | src/infrastructure/oidc/mod.rs:389-424 | No symmetric key and no symmetric algorithm ever qualifies |
| KeyIndex.KeyOperationsDecide | src/infrastructure/oidc/mod.rs:395-399 | In any document, a key whose operations include verify indexes as if it named none; with other operations, as if it were not there |
| KeyIndex.KeyUseDecides | src/infrastructure/oidc/mod.rs:390-394 | A key for signatures indexes as if it named no use; with another use, as if it were not there |
| KeyIndex.KeyAlgorithmDecides | src/infrastructure/oidc/mod.rs:400-403 | Under the algorithm it names a key indexes as if it named none; under any other, as if it were not there |
| KeyIndex.UnrestrictedKeysAreFound | src/infrastructure/oidc/mod.rs:389-424 | A decodable key that restricts nothing is found under its id for exactly the allowed algorithms of its type, given by an explicit table |
| KeyIndex.IndexedKeysAllowVerifying | src/infrastructure/oidc/mod.rs:348-424 | Whatever an index returns is the decoding of a key of the document with that id whose use, operations, algorithm and type all allow verifying |
| KeyCache.ReturnedKeysAreFresh | src/infrastructure/oidc/mod.rs:137-199 | In every interleaving a returned key is what linear search selects either in a document that some call (or discovery) had received when this call looked at it, less than the maximum age before, or in the document that this very call received; what was received and when it was looked at is read off the events alone |
| KeyCache.InvalidTokensLackTheirKey | src/infrastructure/oidc/mod.rs:163-198 | A token is refused for its key only if a received document that was fresh when this call looked at it, or the document this call received, lacks that key |
| KeyCache.YoungKeysAreReturned | src/infrastructure/oidc/mod.rs:142-162 | In every interleaving, a key that the cached document holds is returned at the first or the second look while the cache is younger than the maximum age; otherwise the call goes on |
| KeyCache.ReturnedCallsAreOver | src/infrastructure/oidc/mod.rs:137-199 | A call that returned takes no further step in any run, so it starts no fetch |
| KeyCache.UnavailableHasAReason | src/infrastructure/oidc/mod.rs:152-188 | Authentication is unavailable only for a throttled call that looked at a cache of at least the maximum age, or for one whose own fetch brought no usable document |
| KeyCache.LockedStepsAreExact | src/infrastructure/oidc/mod.rs:163-198 | After the second look: refused exactly within the interval of the latest start, by the age it saw; a failed fetch is unavailable, a document is published with the time it arrived and answers by what it holds |
| KeyCache.CacheOnlyMovesForward | src/infrastructure/oidc/mod.rs:174-197 | Only publication changes the cache, what it installs is the document the publishing call received in this run, and the index never gets older; failed, malformed and cancelled refreshes leave the cache |
| KeyCache.EndedCallsReleaseTheLock | src/infrastructure/oidc/mod.rs:151-199 | A call that returned or was cancelled anywhere holds no lock |
| KeyCache.SingleFlight | src/infrastructure/oidc/mod.rs:151-181 | While a fetch is in flight nobody else is in the locked section |
| KeyCache.RefreshesAreThrottled | src/infrastructure/oidc/mod.rs:163-175 | The times at which a run starts fetches, read off its events, are at least the refresh interval apart, and any window of length T sees at most T/interval + 1 of them, however many callers race or are cancelled |
| KeyCache.TheHolderCanProceed | src/infrastructure/oidc/mod.rs:151-197 | The holder of the lock always has a next step |
| KeyCache.EventsKeepInv | src/infrastructure/oidc/mod.rs:137-199 | Every step of every caller, and every cancellation, keeps the cache invariant |
| KeyCache.RunsKeepInv | src/infrastructure/oidc/mod.rs:137-199 | So does every interleaving |
| KeyCache.EventsKeepSources | src/infrastructure/oidc/mod.rs:175-197 | Every step keeps the cache and every snapshot a caller relies on tied to a document that arrived, by its own call where it claims so |
| KeyCache.RunsKeepSources | src/infrastructure/oidc/mod.rs:137-199 | So does every interleaving, and the recorded fetches, arrivals and looks are exactly those of the events |
| KeyCache.OidcAccessTokenVerifier.KeyFor | src/infrastructure/oidc/mod.rs:137-199 | Without competitors: a key the cached index holds is returned without a fetch if the cache is younger than the maximum age at either look; else a fetch started within the interval refuses the caller, by the age at the second look; else the fetched document replaces the cache and answers; this is what the interleaved steps do one after another |
| UserCache.CachedReadsAreBoundedStale | src/application/user/use_cases/get_user.rs:27-41 | In every interleaving with arbitrary cache failures, a user read from the cache was held by the repository less than the time to live plus the longest call before that cache read |
| UserCache.DeletedUsersAreForgotten | src/application/user/use_cases/delete_user.rs:18-26 | A deleted user is served from the cache for less than that bound after the deletion |
| UserCache.WrittenEntriesAreOk | src/infrastructure/cache/redis/user_cache.rs:84-94 | Whatever a delayed cache write stores was sampled from the repository since its call began |
| UserCache.EventsKeepInv | src/application/user/use_cases/update_user.rs:27-40 | Every step of the four use cases and of their outstanding cache commands keeps the staleness invariant |
| UserCache.RunsKeepInv | src/application/user/use_cases/create_user.rs:34-51 | So does every interleaving |
| UserCache.VersionsAreReal | src/infrastructure/database/postgres/user_repository.rs:83-151 | Each recorded version was the repository of the run at that version's time, and none is ever rewritten |
| UserCache.RepositoryIsRecorded | src/infrastructure/database/postgres/user_repository.rs:57-67 | Whatever the repository holds at some point of a run is recorded as held then |
| UserCache.ServedTimesAreReal | src/application/user/use_cases/get_user.rs:28-30 | The time at which a user counts as served is the time of that call's cache read |
| UserCache.LiveEntriesAreServed | src/application/user/use_cases/get_user.rs:28-30 | A working cache read serves an entry exactly until its time to live has passed |
| UserCache.AnswersAreTrue | src/application/user/use_cases/update_user.rs:27-40 | In every interleaving, a loaded, created or updated user is the one asked for as the repository held it during the call; after a deletion or a not-found the repository lacked the id during the call |
| UserCache.RunsKeepTruth | src/application/user/use_cases/create_user.rs:34-51 | Every run keeps, for every call under way, what it saw tied to the repository of that time |
| UserUseCases.UserService.Get | src/application/user/use_cases/get_user.rs:27-41 | Serves a live entry, else the repository's row and stores it in the cache; on a coherent cache get is a plain repository lookup, and it keeps the cache coherent |
| UserUseCases.UserService.Create | src/application/user/use_cases/create_user.rs:34-51 | Each answer, the new user's fields, the repository, the jobs and the cache afterwards are stated by input, taken address and faults; user and job are inserted together or not at all, and coherence survives every cache failure |
| UserUseCases.UserService.Update | src/application/user/use_cases/update_user.rs:27-40 | Each answer, the updated user, the repository and the cache afterwards are stated by input, taken address and faults; coherence is kept if and only if a condition on the state and the faults before the call holds |
| UserUseCases.UserService.Delete | src/application/user/use_cases/delete_user.rs:18-26 | Each answer, the repository and the cache afterwards are stated by the faults; coherence is kept if and only if a condition on the state and the faults before the call holds |
| UserUseCases.UserService.SetCache | src/infrastructure/cache/redis/user_cache.rs:84-94 | A set value is readable until its time to live has passed; a failed set may or may not have taken effect |
| UserUseCases.UserService.DropFromCache | src/infrastructure/cache/redis/user_cache.rs:97-106 | A deletion that fails may or may not have taken effect |
| UserUseCases.CoherenceSurvivesTime | src/infrastructure/cache/redis/user_cache.rs:84-94 | Expiry alone never breaks coherence |
| UserUseCases.CoherenceIsKeptExactly | src/application/user/use_cases/update_user.rs:34-39 | For each of the four calls, coherence afterwards is equivalent to that condition before |
| UserUseCases.CachedServiceRefinesPlain | src/application/user/use_cases/get_user.rs:27-41 | Over any series of calls that each meet the condition, the unexpired cache stays a part of the repository, the users are those of a service without a cache, and every answer is that service's, except that a get may serve the user held while the repository is down |
| UserUseCases.ConfirmedServiceRefinesPlain | src/application/user/use_cases/delete_user.rs:18-26 | In particular when every update's set or fallback and every delete's invalidation takes effect and no write fails after its commit |
| UserUseCases.LostInvalidationExample | src/application/user/use_cases/delete_user.rs:22-24 | The logged gap: a deleted user is still served after a lost invalidation |
| UserUseCases.LostUpdateExample | src/application/user/use_cases/update_user.rs:35-38 | The same for an update: the old user is served after set and fallback are both lost |
| Lockfile.RepositionRootPackage | scaffold/src/lockfile.rs:10-48 | The in-place remove and insert compute the specification below, and a result has the input's size in bytes |
| Lockfile.RepositioningSucceedsExactly | scaffold/src/lockfile.rs:10-48 | For any text: each of the three errors and success under its own condition, and success is the same blocks with the root block moved |
| Lockfile.CanonicalLockfilesAreRepositioned | scaffold/src/lockfile.rs:10-48 | On a canonical lockfile the result is the same header and blocks with the root block moved, of equal size, and canonical again; without a root package it is that error |
| Lockfile.CanonicalLockfilesSplit | scaffold/src/lockfile.rs:14-26 | Splitting a canonical lockfile gives back exactly its header and blocks |
| Lockfile.BlocksOfJoin | scaffold/src/lockfile.rs:16-42 | Splitting undoes joining, for every list of well-formed blocks |
| Lockfile.MovedKeepsTheOthers | scaffold/src/lockfile.rs:28-37 | The move is a permutation that keeps the other blocks in order and the total size |
| Lockfile.MovedSorts | scaffold/src/lockfile.rs:33-37 | If the other blocks were sorted by name, all are afterwards |
| Lockfile.MovedIsStable | scaffold/src/lockfile.rs:28-37 | With a single root package a second move changes nothing |
| Lockfile.RepositioningIsIdempotent | scaffold/src/lockfile.rs:10-48 | So a second application to the text changes nothing |
| Lockfile.PackageNamesAreExact | scaffold/src/lockfile.rs:50-56 | A block has a name exactly if its second line is that name in quotes behind `name = `, with either line ending |
| Lockfile.RootsAreExact | scaffold/src/lockfile.rs:28-30 | The root block is the one of that name in which no later line starts with `source = ` |
| Lockfile.TwoPackages | scaffold/src/lockfile.rs:14-42 | Blocks are marked by the package line, separated by one empty line, and end with a line feed |
| Text.LessIsLexicographic | scaffold/src/lockfile.rs:33-36 | The order of names is lexicographic: a proper prefix, or a smaller character after a common beginning |
| Renamer.EveryOccurrenceIsReplacedOnce | scaffold/src/lib.rs:159-161 | For every text the single pass equals an independent reading by position: each occurrence becomes the replacement of its longest spelling once, everything else stays |
| Renamer.OccurrencesNeverPartlyOverlap | scaffold/src/lib.rs:20-23 | Two occurrences that start at different positions never share a character |
| Renamer.MatchesLeaveNothingCovered | scaffold/src/lib.rs:149-153 | A match starts outside every earlier occurrence, swallows no other start, and ends outside all |
| Renamer.RewriteLength | scaffold/src/lib.rs:159-161 | The output is as long as the input plus one difference per occurrence of its longest spelling |
| Renamer.SpellingsAreKept | scaffold/src/lib.rs:140-148 | Both spellings with underscores become the project name with underscores, both with hyphens the name with hyphens |
| Renamer.RenderedFiles | scaffold/src/lib.rs:114-129 | Bytes that are no text are copied, a text is rewritten, and only the root lockfile is repositioned as well, or reports its error |
| Renamer.PartsAreRewrittenAlone | scaffold/src/lib.rs:159-161 | Where no occurrence crosses a cut, both parts can be rewritten on their own |
| Renamer.CutsBeforeOtherCharactersAreClean | scaffold/src/lib.rs:20-23 | Line feeds and opening brackets are such cuts |
| Renamer.LockfilesAreRenamedBlockByBlock | scaffold/src/lib.rs:124-126 | Renaming a canonical lockfile renames its header and each block on its own |
| Renamer.RenamedLockfilesAreRepositioned | scaffold/src/lib.rs:114-129 | For any project name, rendering a canonical lockfile without disguised markers renames every block, moves the root block to its place and stays canonical, or reports that no root package has the new name; the condition is exactly that of the next row |
| Renamer.RenamedLockfilesAreCanonical | scaffold/src/lib.rs:124-126 | A canonical lockfile is canonical after renaming if and only if neither its header nor any block disguises a marker: every place that spells one, with skeleton names read as replacements, is one |
| Renamer.MarkersComeFromMarkers | scaffold/src/lib.rs:159-161 | In a text without disguised markers, every package marker of the renamed text stands exactly where the text has one |
| Renamer.SpellingIsRewriting | scaffold/src/lib.rs:159-161 | Spelling a marker, a check on the text before renaming, is beginning with one after renaming |
| Renamer.MarkersStandExactly | scaffold/src/lib.rs:159-161 | Every marker of the renamed text stands where the text has one if and only if the text disguises none |
| Renamer.OutsideNamesAreExact | scaffold/src/lib.rs:140-148 | That holds for every text if and only if no replacement occurs in the marker |
| Renamer.OutsideProjectNames | scaffold/src/name.rs:105-112 | No replacement occurs in the marker if and only if the project name itself does not |
| Renamer.DisguisesAreRewritten | scaffold/src/lib.rs:159-161 | For every replacement that does occur, a text that is no marker and is renamed to one |
| Renamer.PlainBracketsAreGenuine | scaffold/src/lib.rs:159-161 | A text in which no skeleton name follows a double bracket on its line disguises no marker, for any name |
| Renamer.WhenLockfilesAreGenuine | scaffold/src/lib.rs:124-126 | So a lockfile disguises none if the name does not occur in the marker, or if its bracket lines hold no skeleton name |
| Renamer.SpelledMarkerExample | scaffold/src/lib.rs:159-161 | Without the condition the project name `package` spells a marker that was not there |
| Migrations.NextMigrationVersion | src/bootstrap/database.rs:110-135 | The scan returns the larger of the requested version and one above the largest existing, and fails exactly on an unreadable entry or an existing largest 64-bit version |
| Migrations.TheNextVersionIsUnique | src/bootstrap/database.rs:110-135 | That version depends on which entries exist, not on their order |
| Migrations.PrintedNumbersParse | src/bootstrap/database.rs:122-127 | Printing and parsing are inverse on all signed 64-bit numbers, and no printed number holds an underscore |
| Migrations.NumeralsAreParsed | src/bootstrap/database.rs:122-127 | A numeral is read with or without a sign exactly if its value fits into 64 bits |
| Migrations.OnlyNumeralsAreParsed | src/bootstrap/database.rs:122-127 | Nothing but a numeral with at most one sign is read as a number |
| Migrations.FileNamesCarryTheirVersion | src/bootstrap/database.rs:46-57 | The version in a created file name is read back by the next scan, whatever the migration is called |
| Migrations.VersionsAreReadFromTheFront | src/bootstrap/database.rs:119-124 | A file name carries the number before its first underscore, and none without an underscore |
| Migrations.VersionsGrow | src/bootstrap/database.rs:39-61 | Over any series of creations on one directory, failed ones included, a later success has a larger version whatever the clock asks for |
| Migrations.NewNamesAreFree | src/bootstrap/database.rs:45-55 | Neither new file name exists yet, and they differ |
| Migrations.AcceptedNamesAreSnakeCase | src/bootstrap/database.rs:91-108 | Exactly the names of at most 64 bytes that are lower-case words joined by single underscores are accepted |
| Migrations.RejectedNames | src/bootstrap/database.rs:91-108 | Each rejection exactly: empty, more than 64 bytes, a character outside lower-case letters, digits and underscores, or no snake_case |
| Migrations.MigrationsDirectory.WriteNewFile | src/bootstrap/database.rs:77-89 | Creates a new file with its contents exactly if it did not exist and the file system allows it, with one error for either failure; a failed write is removed again |
| Migrations.MigrationsDirectory.WriteNewFiles | src/bootstrap/database.rs:63-75 | All files exactly if each is new and writable; otherwise only files that cannot be removed are left |
| Migrations.MigrationsDirectory.CreateMigrationFile | src/bootstrap/database.rs:39-61 | Succeeds exactly on a valid name, a readable directory, no version overflow and two good writes, and then adds exactly the two files named by version and migration name, with their templates; each failure has its error, and if removals succeed it leaves the directory as it was |

## Left out

- PostgreSQL internals: row-level visibility under `SKIP LOCKED`, planner order, microsecond rounding of intervals, `f64` seconds, connection pools.
- Enqueue transactions that stay open long after their `NOW()`; the no-starvation result needs inserts stamped at their commit.
- FairClaims.NoStarvation: assumes that no other session locks the first row in line while a claim is executed, because `SKIP LOCKED` would then pass over it.
- Payload encoding, tracing, logs and metrics: no effect on the modelled state.
- JobWorker.RunOnce: the messages of handler errors are arbitrary strings, and a handler that panics is not part of this model.
- Tokio's scheduler: a cancelled worker is a process that takes no further step, a cancelled `key_for` an explicit event, and an abandoned user call one whose remaining commands are lost.
- JWT decoding, signatures, key decoding, discovery metadata and URL checks: key decoding is a parameter, a fetch is any reply.
- KeyIndex.IndexKeys: key algorithms that are no signature algorithm are one kind of value, compared by name only.
- UserCache.CachedReadsAreBoundedStale: the serialized form of a cached user and its parse failures count as a failed cache read.
- UserUseCases.UserService.Create: the e-mail and display-name rules are a parameter that says whether the input is valid.
- The Redis wire format, reconnects and the no-cache fallback.
- Listing users, HTTP routing, error envelopes, health endpoints, rate limiting, configuration parsing.
- Lockfile.MovedSorts: blocks without a readable name are outside the order, as they are for the code that compares names.
- Renamer.RenamedLockfilesAreRepositioned: says nothing about lockfiles that disguise a marker, which are not canonical after renaming; `Lockfile.RepositioningSucceedsExactly` still holds for them.
- Project-name validation, git checkout, file walking and `cargo fmt` in the scaffold.
- A crash between the creation of the two migration files, and the directories `sqlx` reads when it migrates or undoes.
