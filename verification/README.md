# Verified model of the byot control plane

byot runs uploaded test programs on demand and on cron schedules. HTTP
requests, one scheduler goroutine, any number of worker pools, a stale-job
sweeper and a retention sweeper all work on the same PostgreSQL tables and the
same object store. This project models that logic in Dafny and proves what
survives every interleaving, including the code's own weak points: the status
write has no guard, a failed status read skips its check, and configuration
writes replace a whole row that was read earlier.

`dafny verify dfyconfig.toml` checks everything.

## How it is organised

| file | content |
|---|---|
| `Common.dfy` | optional values, text order, finite sets |
| `Jobs.dfy` | the `jobs` table, one function per SQL statement, and `JobRepository` on top |
| `Lifecycle.dfy` | the life of a job: every statement that touches `jobs`, freely interleaved |
| `Pool.dfy` | `runPool`: semaphore, wake channel, wait group, cancellation and drain |
| `Requests.dfy`, `Deletion.dfy` | stopping a test, deleting a test with its rows and objects; a deletion while jobs of the test still upload |
| `Retention.dfy`, `Sweeper.dfy` | which runs have expired; what a sweep and repeated sweeps do |
| `Tests.dfy`, `Alerts.dfy` | the `tests` table; alert columns, alert counts and the PagerDuty incident over whole histories |
| `Scheduler.dfy`, `Backlog.dfy` | one tick; the backlog of due tests under ticks, fires and configuration requests |
| `TestConfig.dfy` | validation of uploads and updates, and their interleaving |
| `EnvVars.dfy` | the locked variable cap under concurrent transactions |
| `Redact.dfy`, `Encodings.dfy` | log redaction; its base64 and URL-query forms against decoders written from the published alphabets |
| `Unzip.dfy` | where bundle entries land |

State that the source updates in place is a class (`JobRepository`,
`TestRepository`, `RetentionRepository`, `ObjectStore`, `EnvRepository`,
`Scheduler`, `Sweeper`, the two `Handler`s); its methods are proved against
functions on values, and the lemmas are about those functions. Concurrent
behaviour is a state machine: one event is one SQL statement, one channel
operation or one local step, `Enabled` says when it can happen and `Next` what
it does, and theorems hold after every finite run. Fields and
out-parameters that are only bookkeeping (histories, times of reads) are named
as such and no step reads them.

## Findings

Each of these is a proved lemma with the condition under which the code does
meet the promise.

- A stop can lose: if the cancel lands between a handler's last status read and
  its write, the row ends `completed` (`Lifecycle.StopCanLoseTheRace`). A write
  goes over a cancelled row exactly when a cancel hit the row while it was active
  and the handler panicked, its last read failed, or that read came before the
  cancel (`Lifecycle.CancelIsOverwrittenIff`).
- The comment on `runPool` says a cancelled pool stops claiming. `next` can still
  return one more job (`Pool.LateClaimHappens`), never two, and exactly when the
  cancel met the pool between its check of the context and the answer of `next`,
  and that answer was a job (`Pool.LateClaimWhen`).
- One cron occurrence can run twice, in two ways. A configuration request that
  computed `next_run_at` before a tick and writes it after that tick's fire puts
  the old occurrence back (`Backlog.StraddlingRequestRepeatsOccurrence`). And a
  cron that parses but never comes due gets the library's zero time, unchecked, so
  that every tick fires it again (`Backlog.NeverDueFiresEveryTick`). A firing
  repeats what an earlier tick had covered exactly when its time was written by a
  request, or by a fire since that tick, whose answer from the cron library was
  not after that tick (`Backlog.FiringsNeedNewOccurrences`).
- The 100-row page starves the rest for good once 100 rows ahead can never move
  past them, such as crons without a next time
  (`Backlog.HundredStuckRowsStarve`); below 100 the waiting time is bounded
  (`Backlog.NoStarvation`).
- Expired runs whose files cannot be deleted can block the sweeper. A run with
  200 of them before it is never deleted (`Sweeper.BlockedStay`). Where none of
  them ties with a deletable run, repeated sweeps leave exactly the undeletable
  runs when no deletable run has 200 of them before it
  (`Sweeper.SweepsConvergeIff`), and a sweep deletes nothing when every one has
  (`Sweeper.SweepDeletesNothingIff`).
- Deleting a test can leave objects that no row names. Once its folder is cleared
  nothing comes back exactly when no worker of the test has yet to upload
  (`Deletion.DeletionIsCleanIff`).
- Overlapping configuration updates lose one of the two
  (`TestConfig.OverlappingRequestsLoseOne`). A write has the effect of the whole
  request at once exactly when every column it copied still holds the value read
  and the webhook, which may be sent as a mask of itself, comes out as it would
  from the row at the time of the write (`TestConfig.WritesAreAtomicIff`).
- A PagerDuty incident can be stranded, so that no number of passes resolves it:
  by raising the threshold during it (`Alerts.RaisedThresholdStrandsIncident`) or
  by changing the routing key (`Alerts.ChangedKeyStrandsIncident`), and exactly
  when the first pass would not resolve it (`Alerts.StrandedWhen`,
  `Alerts.PassResolvesWhen`).
- A secret with a leading or trailing `*`, or with `***` inside, can survive
  redaction (`Redact.StarSecretLeaks`); one replacement is clean for every
  text exactly when the needle has none of these (`Redact.ReplaceAllIsClean`). A
  whole redaction with one such secret leaks it unless an encoded form of it shows
  in the one text where it would, and for a star at an end exactly then it does not
  (`Redact.OneSecretHidesIff`).
- Root stripping maps a bare root entry and `root/root` to one path, which
  can happen without any file above another entry when the root is a directory
  entry written without its slash (`Unzip.BareRootDirectoryCollides`); for
  clean names this is the only collision (`Unzip.CleanNamesMeetIff`).
- An upload with a bad cron leaves its artifact behind
  (`TestConfig.Handler.UploadBinary`).
- Sending a test's settings back as shown is refused when the stored timeout is
  the default of 30 and the configured maximum is lower
  (`TestConfig.EchoChangesNothing`).

## Model

| member | source | states |
|---|---|---|
| Jobs.ClaimableExists | repository/job_repository.go:114-151 | the dequeue sub-select finds a row exactly when some queued row is not locked by another transaction |
| Jobs.JobRepository.Create | repository/job_repository.go:21-28 | inserts a queued row; fails on a reused id or an unknown test and then changes nothing |
| Jobs.JobRepository.Dequeue | repository/job_repository.go:114-151 | claims a queued, unlocked row with minimal queued_at, or none exactly when there is none; nothing else changes |
| Jobs.JobRepository.UpdateStatus | repository/job_repository.go:153-163 | writes status, error and finish time whatever the current status; a missing row is no error |
| Jobs.JobRepository.CancelActiveForTest | repository/job_repository.go:63-76 | exactly the test's queued and running rows become cancelled, their number is returned, none is active afterwards |
| Jobs.JobRepository.HasActiveJob | repository/job_repository.go:78-87 | true exactly when the test has a queued or running row |
| Jobs.JobRepository.FailStale | repository/job_repository.go:202-226 | fails exactly the running rows past their own test's timeout plus grace and returns their ids |
| Jobs.JobRepository.DeleteFinishedJobsBefore | repository/retention_repository.go:76-85 | removes only finished rows older than the cutoff; active rows stay as they were |
| Lifecycle.RunsKeepInv | worker/worker.go:118-151 | the invariant of the whole job protocol (row histories, handlers, status reads, scheduler) holds after every run |
| Lifecycle.RowHistories | worker/worker.go:118-151 | in every run a row is claimed at most once, cancelled or swept at most once, and takes at most two terminal writes, the handler's only if claimed |
| Lifecycle.HandlersHoldDistinctJobs | repository/job_repository.go:114-151 | no two handlers of any pools ever hold the same job, crashes and lost replies included |
| Lifecycle.ClaimsFollowTheQueue | repository/job_repository.go:114-151 | first in, first out over whole runs: a row that still waits was passed over only by claims of rows queued no later, unless it was locked at the claim |
| Lifecycle.RetiredRowsStayRetired | repository/job_repository.go:63-163 | a row that has left queued and running never becomes active again, in any continuation of a run |
| Lifecycle.WriteBackTellsTheOutcome | worker/worker.go:118-151 | in every run a write-back that succeeds on a present row leaves it completed without an error exactly when the handler's execution had returned no error and it never panicked, and failed with the message otherwise, finished at that moment; nothing else of the row and no other row changes |
| Lifecycle.GoneHandlersRest | worker/worker.go:130-148 | a handler that has returned, having seen the cancellation or crashed, neither executes nor writes in any continuation |
| Lifecycle.LostClaimIsNeverHandled | repository/job_repository.go:114-151 | in every run, the row of a claim whose reply was lost is never held by a handler |
| Lifecycle.CancelIsOverwrittenIff | worker/worker.go:118-151 | a write-back about to happen goes over a cancelled row exactly when a cancel hit that row while active and, relative to it, the handler's decision was a panic, a failed last read, or a read before the cancel |
| Lifecycle.StopCanLoseTheRace | worker/worker.go:137-149 | the race exists: a run that stops a job and ends with the row completed |
| Lifecycle.AtMostOneActiveScheduledJob | scheduler/scheduler.go:121-131 | although check and enqueue are separate steps, no test ever has two active scheduled jobs |
| Lifecycle.FireEnqueuesWhenFree | scheduler/scheduler.go:121-131 | after every run a fire of a test without an active job goes on to add exactly one row, queued, scheduled, at that moment; a fire of any other test adds none |
| Lifecycle.ManualEnqueues | queue/queue.go:26-46 | after every run a manual request adds exactly one queued row, whatever else is active |
| Lifecycle.SweepUnblocksCrashedTest | worker/worker.go:91-116 | jobs left running by a crash stop blocking their test at the first sweep past timeout and grace: the next fire goes on to enqueue |
| Pool.SlotsAreConserved | worker/pool.go:25-61 | in every run the tokens equal the working handlers plus the filler's own and never exceed the concurrency, nor do the jobs being handled; the wait group counts the unfinished handlers |
| Pool.ReceivesNeverBlock | worker/pool.go:40-52 | whoever reaches a receive from the semaphore finds a token |
| Pool.NoLostWakeUp | worker/pool.go:33-75 | a pool waiting with an empty wake channel after a fill that found no slot has every slot still busy or a handler about to wake it |
| Pool.FillsGoToTheEnd | worker/pool.go:33-61 | in every run a pool that waits has not filled yet, or its own last step ended a fill: at a full semaphore, or by giving the slot back after next had answered none, or at a cancelled context; a spawn never ends a fill |
| Pool.AtMostOneLateClaim | worker/pool.go:33-46 | after the cancel next returns at most one further job |
| Pool.LateClaimWhen | worker/pool.go:33-46 | next returns a job after the cancel exactly when the cancel met the filler between its check of the context and the answer of next, and that answer was a job |
| Pool.LateClaimHappens | worker/pool.go:34-40 | a run of any pool in which next returns a job after the cancel |
| Pool.HandledExactlyOnce | worker/pool.go:48-59 | each goroutine's handle returns once, and has returned exactly when the goroutine is past it |
| Pool.ReturnMeansDrained | worker/pool.go:65-75 | when runPool has returned, every job next returned was handled to the end exactly once, all slots are free and no step is left |
| Pool.DrainIsBounded | worker/pool.go:65-75 | a cancelled pool takes no more steps than a bound computed from its state, but for two per tick |
| Pool.DrainNeverStalls | worker/pool.go:65-75 | a cancelled pool that has not returned can always take a step other than a tick |
| Requests.Handler.Stop | handler/stop.go:30-58 | kills are counted for the running jobs listed; whatever others do before the cancel, that then cancels exactly the rows active and counts them; a failed listing changes nothing, a failed cancel no row |
| Requests.Handler.DeleteTest | handler/delete.go:34-98 | on success the test is gone with its runs and jobs as others left them meanwhile, and its objects except those whose deletion failed; a failed transaction leaves the cancel, earlier failures nothing |
| Requests.OtherTestsKeepTheirObjects | handler/delete.go:70-94 | an object in another test's folder survives unless the deleted test's artifact or a run names it |
| Requests.DeletedObjectsAre | handler/delete.go:70-96 | which objects a deletion takes: the folder unless the prefix deletion failed, and outside it the artifact and the logs that runs name, but for those that failed; no other |
| Deletion.LeftoversAre | handler/delete.go:70-73 | once the folder is cleared, an object is in it exactly when the clearing missed it or an upload of it came after |
| Deletion.DeletionIsCleanIff | worker/worker.go:266-292 | in every run in which the folder has been cleared, it stays empty in all continuations exactly when the clearing missed nothing and no worker of the test has yet to upload its log or, its run being in, screenshots |
| Deletion.LeftoversAreOrphans | worker/worker.go:285-287 | what is put after the rows are gone comes from a worker that had read the test before, under a run that has no row and never gets one |
| Deletion.DeletionCanLeaveAnOrphan | worker/worker.go:266-292 | a run that leaves a log in a cleared folder, under a run without a row |
| Deletion.UndisturbedJobIsStoredThenDeleted | worker/worker.go:266-292 | a run that stores log, run row and screenshot, and one in which a deletion then takes all of them for good |
| Retention.DeletingExpiredIsStable | repository/retention_repository.go:36-65 | deleting any part of the expired set leaves exactly the rest expired |
| Retention.ExpiredGrows | repository/retention_repository.go:36-65 | time passing and runs being added make no expired run unexpired |
| Retention.NewestIsNeverExpired | repository/retention_repository.go:36-65 | the newest run of a test is never expired, whatever the limits |
| Retention.CapHoldsWhenNothingIsExpired | repository/retention_repository.go:36-65 | once nothing is expired each test keeps at most the capped number of runs |
| Retention.FoldersAreDisjoint | retention/retention.go:113-124 | no key lies in the folders of two different runs, as ids are slash-free |
| Retention.KeptRunsKeepTheirFiles | retention/retention.go:113-124 | a sweep leaves every object in the folder of a run that is not expired, unless an expired run names it as its log |
| Sweeper.RetentionRepository.ListExpiredRuns | repository/retention_repository.go:36-65 | returns the oldest expired runs in order, all of them or as many as the limit |
| Sweeper.RetentionRepository.DeleteRuns | repository/retention_repository.go:68-74 | removes exactly the rows with the given ids |
| Sweeper.Sweeper.DeleteStorage | retention/retention.go:113-124 | on success nothing of the run is left in storage; success or not, no key the run does not own is touched |
| Sweeper.Sweeper.Sweep | retention/retention.go:62-111 | under any failures: only runs past the age or number limit go (all of them if nothing fails and they are at most 5000), the returned number is the number gone, every pass but the last strictly shrinks the table, the removed runs' files are gone and files of runs not expired stay; with failures only in certain runs' files, the full outcome that the lemmas below start from |
| Sweeper.FailureFreeSweepIsExact | retention/retention.go:62-111 | a sweep without failures removes exactly the oldest min(5000, expired) expired runs and returns that number |
| Sweeper.ExpiredIsPastLimits | repository/retention_repository.go:36-65 | the ranking query selects exactly the runs that have a newer run of their test and either started before now minus a positive age limit or have at least the positive maximum of newer ones |
| Sweeper.NothingPastLimitsIsLeft | retention/retention.go:62-111 | a sweep without failures that found at most 5000 runs past those limits removes exactly them, and none is past the limits afterwards |
| Sweeper.SweptFiles | retention/retention.go:113-124 | of the removed runs no object is left in their folders or at the logs they name, and objects foreign to all runs tried survive |
| Sweeper.OneSweepCatchesUp | retention/retention.go:69-96 | with f < 200 failing expired runs, one sweep deletes at least min(deletable, 25 * (200 - f)) and never a failing run's row |
| Sweeper.SweepIsPass | retention/retention.go:62-111 | what a sweep achieves is what the histories of sweeps below assume of each of theirs |
| Sweeper.SweepsConvergeIff | retention/retention.go:69-96 | through advancing cutoffs and runs added between sweeps: if no failing run ties with a deletable one and no further failing run expires, the sweeps leave of the runs expired at the start exactly the failing ones exactly when no deletable one has 200 failing ones before it; until then each sweep deletes at least 25 |
| Sweeper.ReachIsSwept | retention/retention.go:69-96 | ties or not: a run with at most m < 200 failing ones ever at or before it is gone after n sweeps with n * 25 * (200 - m) at least all the runs ever deletable |
| Sweeper.BlockedStay | retention/retention.go:88-90 | ties or not: a run with 200 failing ones before it is never deleted, and stays expired |
| Sweeper.SweepDeletesNothingIff | retention/retention.go:88-90 | if no failing run ties with a deletable one, a sweep deletes nothing exactly when every deletable expired run has 200 failing ones before it |
| Sweeper.SweepsConverge | retention/retention.go:69-96 | with f < 200 failing runs in all, ties or not, through advancing cutoffs and added runs, the sweeps leave of the runs expired at the start exactly the failing ones, at a rate of 25 * (200 - f) a sweep |
| Sweeper.BrokenBatchBlocks | retention/retention.go:88-90 | when the oldest expired runs that fail number 200, a batch holds nothing else |
| Tests.TestRepository.Create | repository/test_repository.go:47-80 | inserts the row with a normalised threshold and zero counters; fails on a reused id |
| Tests.TestRepository.UpdateConfig | repository/test_repository.go:202-233 | replaces the configuration columns and nothing else |
| Tests.TestRepository.UpdateNextRunAt | repository/test_repository.go:371-377 | sets next_run_at and nothing else; a missing row is no error |
| Tests.TestRepository.ListDueScheduled | repository/test_repository.go:235-284 | the 100 earliest due tests, or all of them, in order and without repeats |
| Tests.PageIsHundredEarliest | repository/test_repository.go:235-284 | each listed test is enabled, has a cron and has come due; they are in order without repeats; one that has come due and is not listed is no earlier than any of 100 listed ones |
| Tests.TestRepository.RecordRunOutcome | repository/test_repository.go:286-346 | new counter and alert flag, and an alert exactly when one is due, there is a target and alerts are on; a failed commit changes nothing |
| Tests.TestRepository.Delete | repository/test_repository.go:348-369 | removes the row and reports whether it was there |
| Alerts.CounterIsTrailingStreak | repository/test_repository.go:314-329 | after any outcomes and configuration changes the counter is the length of the trailing failing streak |
| Alerts.AlertActiveMeans | repository/test_repository.go:314-329 | alert_active holds exactly when the last outcome failed with the streak at least the threshold then in force |
| Alerts.NoOutcomeNoAlert | repository/test_repository.go:314-329 | before the first outcome no configuration change sets the counter or the flag |
| Alerts.EveryHistoryHasStreaks | repository/test_repository.go:314-329 | every sequence of outcomes is a sequence of ended streaks and one open streak |
| Alerts.AlertCounts | alert/policy.go:5-10 | with a fixed threshold t, failure alerts number the sum of floor(length / t) over failing streaks, and recoveries the ended streaks of length at least t |
| Alerts.IncidentFollowsAlert | alert/pagerduty.go:41-71 | under a fixed configuration the incident on the dedup key is open, on the one routing key, exactly while alert_active holds |
| Alerts.PassResolvesWhen | alert/notify.go:36-50 | after any history of outcomes and configuration changes, a pass closes the incident open on a routing key exactly when the last outcome failed with its streak at the threshold then in force, alerts are on, and that key is in force |
| Alerts.StrandedWhen | alert/notify.go:36-50 | an open incident outlives any number of passes exactly when the first of them would not resolve it |
| Alerts.RaisedThresholdStrandsIncident | repository/test_repository.go:322-329 | a raised threshold and one more failure leave an incident that no number of passes resolves |
| Alerts.ChangedKeyStrandsIncident | alert/pagerduty.go:65-71 | so does a changed routing key: the resolve goes to the new one |
| Scheduler.Scheduler.Pause | scheduler/scheduler.go:62-65 | sets the flag that makes ticks do nothing |
| Scheduler.Scheduler.Resume | scheduler/scheduler.go:67-70 | clears it |
| Scheduler.Scheduler.Fire | scheduler/scheduler.go:109-142 | advances next_run_at first; adds one queued scheduled job exactly when the cron parses, nothing failed, the test exists and has no queued or running job |
| Scheduler.Scheduler.Tick | scheduler/scheduler.go:93-107 | a paused or failed tick changes nothing; any other takes the hundred earliest due tests: each the library answers moves on to its answer and, if nothing failed for it, has an active job, which is one new queued scheduled row of now if it had none; the rest get no job; every earlier job and every other column and test stay as they were |
| Backlog.NoStarvation | repository/test_repository.go:235-284 | with r tests due no later than a due test, not counting f that may be stuck, (100 - f) * ticks < r for any completed ticks that pass it by; with none stuck, fewer than r / 100. Asked of the others: fires move them past the due moment, and writes carry no time up to it |
| Backlog.DueTestsAreFired | scheduler/scheduler.go:93-119 | the positive form: among enough completed ticks there is a step that fires the test successfully, and its firing is on record |
| Backlog.HundredStuckRowsStarve | repository/test_repository.go:247-248 | with 100 stuck rows ahead, no run of ticks ever lists the test |
| Backlog.PausedListsNothing | scheduler/scheduler.go:62-97 | until it is resumed a paused scheduler starts no tick, whatever else happens, and fires at most the page already listed |
| Backlog.FiringsNeedNewOccurrences | scheduler/scheduler.go:93-142 | for every cron library: of two firings of a test, the later acts on an occurrence the earlier tick had covered exactly when its time was written by a request, or by a fire since that tick, that the library had answered with a time not after that tick |
| Backlog.ValuesAreComputedBetween | scheduler/scheduler.go:93-142 | for every cron library: the later firing acts on a time in (n1, n2] computed since tick n1 exactly when no request computed before n1 wrote it and the library's answer was after the moment asked about |
| Backlog.StraddlingRequestRepeatsOccurrence | handler/handler.go:398-424 | a run in which such a request makes one occurrence fire twice |
| Backlog.NeverDueFiresEveryTick | schedule/cron.go:12-23 | for a cron that is answered with the zero time, runs of any number of ticks with one firing of the test at each |
| Backlog.NeverDueRepeats | scheduler/scheduler.go:109-119 | any two of those firings act on the one occurrence, without a request |
| TestConfig.ValidatePagerDutyKey | handler/handler.go:286-301 | accepts exactly the empty key and 32 letters and digits |
| TestConfig.Handler.UpdateTestConfig | handler/handler.go:303-435 | refuses exactly the requests some check fails for, leaving the row alone; otherwise stores every field sent, keeps those left out or sent as their mask, and sets a fresh next_run_at only if enabled, also when reading the row back then fails |
| TestConfig.Handler.EnableSchedule | handler/schedule_control.go:11-60 | refused exactly without a parseable cron; otherwise enabled with a next time, other settings as read, also when reading it back then fails |
| TestConfig.Handler.DisableSchedule | handler/schedule_control.go:62-99 | disabled with no next time, cron and other settings as read, also when reading it back then fails |
| TestConfig.Handler.UploadBinary | handler/handler.go:483-659 | creates the row exactly when form, storage, cron and insert are fine and the id is new; the artifact stays even when the cron or the insert is refused |
| TestConfig.TrimMeans | handler/handler.go:336-347 | trimming takes spaces off both ends, all of them and nothing else |
| TestConfig.EveryRowIsValid | handler/handler.go:389-424 | after any interleaving: enabled implies a parseable cron and a next time, threshold >= 1, key empty or 32 alphanumerics, timeout in 1..max(30, Max), memory within 0..Max |
| TestConfig.WritesAreAtomicIff | handler/handler.go:315-424 | in every run, the write of a request has the effect of the whole request at that moment exactly when every column the request copied from its read still holds the value read and the webhook comes out as it would from the row now |
| TestConfig.OverlappingRequestsLoseOne | handler/handler.go:410-424 | two overlapping updates of different fields, of which the first is lost |
| TestConfig.EchoChangesNothing | handler/handler.go:341-353 | a PATCH of the settings as shown, masks included, changes none of them; exact condition under which it is refused |
| TestConfig.SentKeysAreStored | model/model.go:42-51 | no well-formed key can be taken for a mask: the key sent is the key stored |
| EnvVars.EnvRepository.Upsert | repository/env_repository.go:47-81 | alone: refused exactly when the name is new and the test is full, or the test is missing; keeps the cap |
| EnvVars.EnvRepository.Delete | repository/env_repository.go:83-92 | removes one variable and reports whether it was there |
| EnvVars.CapHolds | repository/env_repository.go:54-81 | no interleaving of transactions, deletes, aborts and test deletions takes a test above the cap, nor leaves variables without a test |
| EnvVars.UpsertsAreAtomic | repository/env_repository.go:47-81 | every transaction's answer and effect are those of an Upsert run alone at the step that settles it, even if the name was deleted after its check |
| EnvVars.StoredMeansCommitted | repository/env_repository.go:47-81 | in every run a transaction is answered as stored exactly when its commit took place, and as aborted exactly when it was aborted |
| EnvVars.UndisturbedUpsert | repository/env_repository.go:47-81 | after every run, an upsert for a test no transaction has locked can go through alone, and its answer and effect are those of Upsert |
| EnvVars.NamesCountVariables | repository/env_repository.go:63-67 | the count compared with the cap is the number of the test's variables |
| Redact.ReplaceAllIsClean | secrets/secrets.go:105-107 | one replacement leaves no occurrence in any text exactly when the needle neither starts nor ends with a star nor holds three in a row |
| Redact.Redact | secrets/secrets.go:91-109 | the output is the input under all needles in some longest-first order, and shows no inert needle |
| Redact.SortByLength | secrets/secrets.go:103 | a permutation in order of falling length, ties in any order |
| Redact.NoNeedleLeft | secrets/secrets.go:105-107 | whatever the order, a later replacement never brings an inert needle back |
| Redact.FormsAreInert | secrets/secrets.go:97-101 | base64 and URL-escaped forms are inert for every secret, and so is a secret without a star |
| Redact.NeedlesAreForms | secrets/secrets.go:92-102 | a needle is a secret given, its base64 form or its URL-query form |
| Encodings.SymbolsAreTheAlphabet | secrets/secrets.go:99 | the 64 symbols are the standard base64 alphabet, character by character |
| Encodings.Base64RoundTrip | secrets/secrets.go:99 | a decoder that looks symbols up in the literal alphabet gives back every secret from its base64 form |
| Encodings.QueryRoundTrip | secrets/secrets.go:100 | a decoder of URL queries gives back every secret from its escaped form |
| Encodings.PlainIsUnreserved | secrets/secrets.go:100 | the bytes left unescaped are exactly the letters, digits and `-_.~` |
| Redact.StarFreeSecretsNeverShow | secrets/secrets.go:89-109 | when no secret contains a star, the output shows no secret in any of its three forms and redacting again changes nothing, for any order of equal-length needles |
| Redact.OutputIsCollapsedInput | secrets/secrets.go:105-107 | the output is the input with disjoint occurrences of needles each collapsed to three stars |
| Redact.RedactIsIdempotent | secrets/secrets.go:91-109 | redacting again, in any order, changes nothing |
| Redact.LongestFirstLeavesNoTail | secrets/secrets.go:89-103 | an occurrence no other needle of its length or more touches is collapsed whole, even with shorter needles inside |
| Redact.OneSecretHidesIff | secrets/secrets.go:91-109 | a whole redaction with one secret hides it in every text if it is inert; if it is not, then only when an encoded form shows in its one leaking text, and for a secret with a star at an end exactly then |
| Redact.StarSecretLeaks | secrets/secrets.go:105-107 | the secret `*a` survives redaction of `*aa` |
| Unzip.CleanIsIdempotent | bundle/unzip.go:39 | cleaning is a normal form: a cleaned path shows exactly its elements and cleans to itself |
| Unzip.OneMorePart | bundle/unzip.go:39 | how one more part after a slash changes the elements of a cleaned path: nothing for an empty part or a dot, one element back for two dots where there is one, one more for any other |
| Unzip.WithinDirMeansBelow | bundle/unzip.go:84-90 | withinDir accepts exactly the targets at or below the base, for targets that do not begin by going up |
| Unzip.SingleRootPrefix | bundle/unzip.go:92-115 | returns root and slash for the one first element all named entries share, and nothing exactly when there is none |
| Unzip.SharedFirstElementIsRoot | bundle/unzip.go:92-115 | if the names of all entries have one first element other than two dots, that is the root |
| Unzip.UnzipFile | bundle/unzip.go:16-65 | stops at the first entry that is illegal or cannot be written, having written exactly the files before it; never stops on the withinDir check |
| Unzip.PlacedExactly | bundle/unzip.go:30-49 | for a clean directory, exactly the names that pass the textual checks are placed, each on directory joined with the cleaned, stripped name |
| Unzip.PlacedByElements | bundle/unzip.go:30-49 | by the elements of the stripped name: none is skipped, rooted or beginning with two dots is illegal, any other is placed at exactly the directory's elements followed by its own |
| Unzip.NeverSlips | bundle/unzip.go:43-49 | withinDir never rejects what the earlier checks let through, and every placed target is strictly inside the directory |
| Unzip.LayoutIsInside | bundle/unzip.go:46-62 | every path written is strictly inside the directory and holds the last file entry placed on it |
| Unzip.TargetsMeetIff | bundle/unzip.go:30-46 | for any names, clean or not, two entries share a target under one stripped prefix exactly when their elements are equal, or one was stripped and is the other below the root |
| Unzip.CleanNamesMeetIff | bundle/unzip.go:30-46 | for clean names, two entries share a target exactly when they are the bare root and root/root |
| Unzip.BareRootDirectoryCollides | bundle/unzip.go:31-37 | for every root name: two such entries with no file above another |
| Unzip.SaneArchivesKeepEveryFile | bundle/unzip.go:29-63 | with clean distinct names, directories ending in a slash and no file above another entry, every placed file is found at its own target at the end |

## Left out

- HTTP routing, JSON and multipart decoding, authentication: thin or network-bound. Bodies arrive as decoded values.
- Docker execution, process killing and output scanning: an execution ends, panics or crashes at will.
- The order of the effects inside one job execution (run row, screenshots, alert outcome): only the job-row effects are interleaved.
- Storage clients: the store is a set of keys whose deletions may fail, a prefix deletion after a part of its work.
- AES-GCM and the cron parser: the cron library is a function from expression and moment to an optional next time.
- Alert delivery and retries: alerts are the decisions recorded at commit, in commit order.
- Screenshots, CPU limits, the command and network columns, time zones, the locust run-time fitting and web pages: no structure beyond single fields.
- Path operations outside Unix: the separator is '/'.
- Fresh random ids are assumed: a new job, test or request id was not used before. One scheduler per database is assumed, as main.go:156-170 starts it.
- Backlog: the moments that ticks and requests see never go back; a wall clock set back is not modelled.
- Failed statements are taken to have changed nothing, except a dequeue whose reply is lost and a storage deletion.
- Lifecycle: a panic inside the recover block's own status write is not modelled.
- Sweeper.Sweeper.Sweep: no runs are inserted while a sweep is under way.
- Sweeper.SweepsConvergeIff: one fixed set of failing runs; ties between failing and deletable runs are left to ReachIsSwept and BlockedStay.
- Redact.Redact: leaves open which secrets with stars leak beside other secrets; the exact condition is proved for one replacement.
- Redact.OneSecretHidesIff: for a secret with three stars inside and none at its ends, leaves open whether it leaks when an encoded form shows in its leaking text.
- Requests.Handler.DeleteTest: others act between the cancel and the deleting transaction only, and do not delete the test themselves; Lifecycle interleaves its row effects and Deletion its clearing of the folder.
- Deletion: objects outside the test's folder and a failing prefix deletion tried again are not modelled.
- Unzip.UnzipFile: file contents, modes and partly written files are not modelled, only which entry each path comes from.
