# Label Backup Agent: a verified model

The agent watches Docker containers, reads backup schedules from their labels, runs the
scheduled dumps, stores them locally or in S3, deletes old ones and reports each run to a
webhook. This project models its state machines in Dafny and proves what they keep, over
every input, interleaving, listing and failure. `dafny verify dfyconfig.toml` checks it.

## How the parts fit

- **A backup run** (`Pipeline.dfy`). Two goroutines joined by an `io.Pipe` are a transition
  system: the dumper (context check, set-up, copy loop through gzip, `cmd.Wait`, the deferred
  `gw.Close`, `CloseWithError`, the deferred `pw.Close`), the writer (context check, opening,
  tee, copy or upload, removal of a partial file) and the deadline of the job context.
  Everything either goroutine may do, chunk sizes included, is a nondeterministic choice of
  the next `Action`. `PipelineSafety.dfy` proves what every reachable state keeps,
  `PipelineProgress.dfy` exactly when the join is reached, `RunOutcome.dfy` what a run leaves in
  the store, `RunHistory.dfy` which steps decide how a run ends, `Slots.dfy` how all runs share
  the semaphore.
- **The stores.** `LocalWriter.dfy` and `RemoteWriter.dfy` are the writers as one caller sees
  them, `Naming.dfy` and `LocalPaths.dfy` the object names and which listings find them again,
  `Containment.dfy` the check that a path lies below the base directory, `GcReach.dfy` which
  files garbage collection can reach past it.
- **Garbage collection.** `Gc.dfy` is the loop of one pass as a method over a store,
  `GcProperties.dfy` what a pass does, `GlobalGc.dfy` the nightly loop over the registry,
  `MetadataGc.dfy` passes interleaved with running jobs. `Retention.dfy` has the two parsers.
- **The webhook.** `Breaker.dfy` (one caller at a time), `ConcurrentBreaker.dfy` (`Call` split
  at its lock boundaries), `Delivery.dfy` (retries and backoff), `Notifier.dfy` (queue, worker
  and `Stop`), `Shutdown.dfy` (job runs, worker and `Stop` composed).
- **From labels to cron entries.** `Discovery.dfy` (events to registry), `Scheduler.dfy` (the
  two tables and the reconcile tick), `SchedulerHistory.dfy` (the tables as a function of the
  calls made), `Agent.dfy` (Docker messages, ticks and reloads together).

Objects that the code updates in place are classes whose methods are tied to functions of the
old state (`After`, `AddOrUpdate`, `Sweep`, `Offered`, `Effect`, `FilesAfter`); the laws are
lemmas about those functions. Concurrent code is a transition system with `Enabled` and `Do`.
Durations and clocks are integers in nanoseconds; 64-bit wrap-around is written out where it
can happen (`Common.Wrap64`).

Parameters instead of models: gzip (`CodecOk`: a closed stream decompresses to what was
written, and a trailer is never empty), the capacity of the pipe behind a command's stdout,
SHA-256 (any function of the bytes), `encoding/json`, `time.ParseDuration` (`DurationsOk`: "7d" is not a duration), the cron parser (any
predicate), the clock, which file operations, uploads and deletes succeed, and the answers of
the webhook endpoint.

## Where the code differs from what it seems to intend

The model follows the code. What that means is stated as lemmas:

- Nothing closes the reading end of the pipe (`internal/scheduler/scheduler.go:241`,
  `:283-302`): a writer that fails while bytes are still owed hangs the run, past its own
  deadline, and keeps its slot (`GivingUpEarlyHangsTheRun`, `HungRunsStarveTheScheduler`).
  `JoinReachableIff` says exactly which states are affected; `EveryRunCanHang` and
  `SchedulerCanStarve` show that it happens.
- A copy loop stopped by the cancelled context leaves `copyErr` nil
  (`internal/dumper/dumper.go:91-93`). The same context kills the command, so this matters only if
  the command had already written everything: then a run is reported as a success although the
  object lacks the end of the output, for exactly the lengths that fit into the command's stdout
  pipe (`CancelledCopyCanSucceedIff`). It is a race: `cmd.Wait` also returns the context's error if
  the kill reaches a command that has exited and has not been reaped yet. `SuccessfulRunStoresTheStream` has the exact condition under
  which a success is complete.
- A failed run can leave an empty object that no cleanup removes (`EmptyObjectCanBeLeft`); the
  cleanup branch for partial backups is reachable only after a panic (`CleanupOnlyAfterPanic`).
- `AddOrUpdateJob` keeps the closure when the cron expression is unchanged
  (`internal/scheduler/scheduler.go:79-84` against `:94`), so other label changes never reach
  the job (`SameCronKeepsCapturedSpec`); a cron typo that is reverted loses the job
  (`RevertedTypoLosesTheJob`).
- The tick visits only ids that are in the registry (`main.go:416-424`), so destroyed containers keep their
  jobs (`DestroyLeavesTheJob`, `LeavingTheRegistryKeepsTheJob`) until a reload (`ReloadHeals`).
- The sender is stopped before the scheduler (`main.go:451-453`, `:474-475`); a run that ends
  in between panics the process (`Notifier.PanicsIff`, `Shutdown.PanicsIff`).
- With overlapping callers the breaker can be open below its threshold. Half-open admits every
  caller (`internal/webhook/webhook.go:74-75`), so a second probe that fails after the first one's
  success reopens the healed circuit (`TwoProbesReopen`), and a caller admitted while closed that
  succeeds late resets the count of an open one (`:103-105`, `LateSuccessLeavesItOpen`). These two
  are the only ways (`OpensBelowThresholdIff`). That the `Open` branch does not read the state
  again under the write lock (`:62-73`) lets a stale caller turn a closed circuit half-open
  (`ClosedTurnsHalfOpenIff`). A sender has one worker, so its own calls never overlap.
- The breaker timeout is 5 minutes in code (`internal/webhook/webhook.go:194`) and 30 seconds in
  the repository's README; it is a parameter.
- The backoff is computed in 64-bit nanoseconds before it is capped
  (`internal/webhook/webhook.go:297-302`). Up to attempt 32 it is as meant; for later ones
  `BackoffAsMeantIff` says exactly when there is no pause at all.
- `ValidateBackup` reads its header once (`internal/writer/writer.go:117-123`), so valid content
  whose first byte arrives alone is refused (`ValidButRefusedIff`).
- Write replaces backslashes before it cleans a name, reads and deletes do not
  (`internal/writer/local.go:60`, `:190`, `:221`): a local backup whose prefix has one can be
  neither read back nor cleaned up (`BackUpAndReadBack`, `WriteAndCleanUp`, `BackslashIsLost`).
- The containment check of reads and deletes compares strings, so a sibling directory whose name
  begins with the base's passes (`PassesCheckIff`, `SiblingPasses`). Write never depends on it
  (`WriteStaysInside`). Garbage collection takes its keys from a listing by the prefix label, so a
  prefix that leads into such a sibling makes it delete there (`LooksOutsideIff`,
  `ReachedOutsideIff`), although the same spec can store nothing (`OutsidePrefixStoresNothing`).
- The fallback retention "7d" is not readable by `time.ParseDuration` (`main.go:52`, `:67`,
  `:81`, `:92`), so a bad global value means no retention (`UnusableMeansNoRetention`), and a very
  long retention in days can wrap around to minutes (`LongRetentionCanBecomeShort`).
- S3 listings use the raw prefix and names the trimmed one, so backups under a prefix such as
  "/db" are never collected (`RemoteOwnListingIff`); local names are cleaned, local prefixes are
  not (`LocalOwnListingIff`).
- Object names do not contain the container (`NamesCollideIff`), and different object names can
  mean the same local file (`FilesCollideIff`).
- `internal/writer/writer_test.go:42` expects "redis-default-" where the code yields
  "redis-database-"; `internal/gc/gc_test.go:72` expects a dry run to delete.

## Model

| member | source | states |
|---|---|---|
| PipelineSafety.StepKeepsInv | internal/scheduler/scheduler.go:253-302 | each step of either goroutine, and the deadline, keeps conservation of bytes, what the store shows, who closes the pipe and how, and that what was handed over is a gzip stream of a prefix of the output |
| PipelineSafety.NothingLostInTransit | internal/scheduler/scheduler.go:241-302 | in every reachable state stored bytes, then bytes in the writer's hand, then bytes in the pipe are exactly what the dumper handed over; hash and count cover exactly the bytes read (or written); the pipe is open as long as gzip may write |
| PipelineSafety.SuccessfulRunStoresTheStream | internal/scheduler/scheduler.go:304-355 | if neither goroutine errs, the object is the whole stream, size and checksum are its own, and it decompresses to the command's whole output if and only if the copy loop has read all of it; otherwise the loop saw the cancelled context and what is missing fits into the stdout pipe |
| PipelineSafety.WriteSuccessMeansCleanEnd | internal/scheduler/scheduler.go:274-301 | a Write that succeeds never stored a torn stream: Dump returned no error, the object is a complete gzip stream of a prefix of the output, and empty exactly if no gzip writer was made |
| PipelineProgress.StepMakesProgress | internal/dumper/dumper.go:85-116 | every step decreases one lexicographic measure |
| PipelineProgress.NoEndlessRun | internal/scheduler/scheduler.go:253-304 | no infinite schedule exists |
| PipelineProgress.StopsOnlyStuckOrJoined | internal/scheduler/scheduler.go:253-304 | short of the join, both goroutines are blocked exactly if the writer goroutine has returned while the dumper still has pipe bytes to hand over |
| PipelineProgress.DoomedForever | internal/scheduler/scheduler.go:265-301 | once the writer has given up, or is about to see the passed deadline, with bytes in the pipe or a trailer owed, no continuation joins |
| PipelineProgress.JoinReachableIff | internal/scheduler/scheduler.go:241-304 | from a reachable state the join can be reached if and only if the state is not doomed |
| PipelineProgress.PatientWriterJoins | internal/scheduler/scheduler.go:253-304 | if the writer reads until the end or an error of the pipe, every schedule that stops has reached the join |
| PipelineProgress.GivingUpEarlyHangsTheRun | internal/scheduler/scheduler.go:283-302 | a writer that fails, panics or sees the deadline too early: no schedule joins, and where it stops the dumper is stuck in the pipe |
| PipelineProgress.EveryRunCanHang | internal/writer/local.go:55-102 | every configuration has a reachable doomed state: the dumper has its gzip writer and the file or upload cannot be opened |
| PipelineProgress.StoredIsCodecOk | internal/dumper/dumper.go:71-72 | what is assumed of gzip can be met, for every configuration otherwise |
| RunOutcome.MetadataDescribesTheObject | internal/scheduler/scheduler.go:331-355 | metadata is written exactly for successes whose metadata write works, and its size and checksum are those of the object beside it, a whole gzip stream |
| RunOutcome.CleanupOnlyAfterPanic | internal/scheduler/scheduler.go:356-370 | the cleanup of a partial backup is reached only if Dump panicked after its gzip writer was closed; it removes the object if the delete works and leaves a complete stream otherwise |
| RunOutcome.ObjectLeftIff | internal/scheduler/scheduler.go:306-370 | with a fresh name and working deletes, success leaves the whole stream, and failure leaves an object exactly if Write succeeded with zero bytes |
| RunOutcome.EmptyObjectCanBeLeft | internal/scheduler/scheduler.go:265-299 | that exception is reachable: a failed run leaving an empty object |
| RunOutcome.CancelledCopyCanSucceedIff | internal/dumper/dumper.go:89-139 | a run that lacks the last n > 0 bytes of the output can be reported as a success if and only if n is at most the capacity of the command's stdout pipe |
| RunHistory.OutcomesDecided | internal/dumper/dumper.go:85-139 | how both goroutines end is decided by the steps taken; Dump returns nil if and only if the command exited with status 0 and reading its output did not fail; a write that fails reports zero bytes and no checksum |
| RunHistory.SuccessIff | internal/scheduler/scheduler.go:306-355 | a run is a success, and its metadata written, if and only if the command exited with status 0 without a read error and the write reached the end of the stream and was completed |
| RunHistory.TornFileIff | internal/writer/local.go:109-116 | a local write whose copy failed leaves no file if os.Remove works, else exactly the bytes stored so far, which the cleanup skips |
| RunHistory.NothingStartsAfterDeadline | internal/scheduler/scheduler.go:265-299 | after the deadline a dumper or writer at its check never starts and a copy loop at its select copies nothing more; without the deadline nothing is cancelled |
| Slots.SlotsBalance | internal/scheduler/scheduler.go:149-163 | in every interleaving occupancy is the number of running bodies and at most the limit; an ended run released one slot and called Enqueue once if there is a sender; a skipped firing did neither |
| Slots.EveryExitReleasesOnce | internal/scheduler/scheduler.go:198-237 | a body whose dumper, connection test or writer fails, or whose pipeline has joined, can always go on to call Enqueue once and give its slot back, and no other run moves |
| Slots.HungRunsStarveTheScheduler | internal/scheduler/scheduler.go:149-163 | once as many runs hang as there are slots, they hang forever and every later firing is skipped |
| Slots.SchedulerCanStarve | internal/scheduler/scheduler.go:149-302 | for every limit and whatever the runs dump, a fresh scheduler has a schedule after which as many runs hang as there are slots and every later firing is skipped |
| Breaker.CircuitBreaker.Call | internal/webhook/webhook.go:57-110 | fields and verdict after one uninterrupted call are those of `After`, the two critical sections composed |
| Breaker.CircuitBreaker.CallAll | internal/webhook/webhook.go:57-110 | a sequence of calls follows `AfterAll` |
| Breaker.FieldsTellTheHistory | internal/webhook/webhook.go:40-110 | failureCount is the number of failed executions since the last success, the circuit is open if and only if that reaches the threshold, else closed, and half-open is never left behind |
| Breaker.NextVerdict | internal/webhook/webhook.go:57-110 | a call is rejected if and only if the streak has reached the threshold and its last failure is younger than the timeout |
| Breaker.OutageSpacing | internal/webhook/webhook.go:62-110 | in an outage every execution past the threshold has waited out one more recovery timeout |
| Breaker.OutageRateBound | internal/webhook/webhook.go:57-110 | an outage of length D sees at most failureThreshold + floor(D / recoveryTimeout) executions |
| ConcurrentBreaker.AnyInterleaving | internal/webhook/webhook.go:57-110 | from a fresh breaker, with any number of overlapping callers, closed means the count is below the threshold, half-open means a probe is in flight, and exactly the callers not rejected ran fn |
| ConcurrentBreaker.AloneIsSequential | internal/webhook/webhook.go:57-110 | a caller nobody interrupts does what the sequential breaker does |
| ConcurrentBreaker.StepBreaksIff | internal/webhook/webhook.go:74-107 | a step makes the circuit open below the threshold if and only if it is a failing probe whose count stays below it, or a caller admitted while closed that succeeds while the circuit is open |
| ConcurrentBreaker.OpensBelowThresholdIff | internal/webhook/webhook.go:57-110 | from a fresh breaker, over any schedule, the circuit is never open below the threshold if and only if no step is one of these two |
| ConcurrentBreaker.OpenWithoutFailuresIsReached | internal/webhook/webhook.go:90-107 | whatever the threshold, some schedule leaves a fresh breaker open with a count of zero |
| ConcurrentBreaker.ClosedTurnsHalfOpenIff | internal/webhook/webhook.go:58-73 | a closed circuit becomes half-open exactly when a caller with a stale "open" reaches the write lock and the last recorded failure is older than the timeout |
| ConcurrentBreaker.TwoProbesReopen | internal/webhook/webhook.go:74-89 | from any open circuit past its timeout, with no stale read, two callers both probe and the second one's failure reopens the healed circuit with a count of one |
| ConcurrentBreaker.LateSuccessLeavesItOpen | internal/webhook/webhook.go:90-107 | one failure short of the threshold, a failure and then a slow success leave the circuit open with a count of zero |
| Notifier.Sender.Enqueue | internal/webhook/webhook.go:209-242 | nothing is sent exactly if neither the spec nor the configuration has a URL; a report is dropped exactly if an open queue holds 100; an accepted one goes to the end with the spec's own URL, or else the global one |
| Notifier.Sender.WorkUntilDrained | internal/webhook/webhook.go:244-276 | on a closed channel the worker finishes the item it is sending, processes exactly what is queued, in order, and exits |
| Notifier.Sender.Stop | internal/webhook/webhook.go:353-357 | closes the queue and returns with the item being sent and everything queued processed and the worker gone |
| Notifier.NothingLostOrReordered | internal/webhook/webhook.go:209-276 | in every interleaving accepted items are processed, then in progress, then queued, in order; at most 100 queued; offers are accepted or dropped; when Stop has returned all accepted items are processed |
| Notifier.DroppedIffFull | internal/webhook/webhook.go:192-241 | in every reachable living state a report with a target is dropped if and only if exactly 100 are queued, accepted at the end if fewer are, and one without a target changes nothing |
| Notifier.PanicsIff | internal/webhook/webhook.go:236-241 | the process panics if and only if an Enqueue with a target or another Stop follows a Stop |
| Notifier.StopReturnsEventually | internal/webhook/webhook.go:244-276 | with no Enqueue after Stop, the exact number of remaining steps, and a state without steps has seen Stop return |
| Shutdown.ReportsAccountedFor | internal/scheduler/scheduler.go:396-400 | in every interleaving of runs, worker and Stop in a living process, the runs that have reported and have a target are as many as the reports accepted and dropped, and after Stop as those processed and dropped |
| Shutdown.PanicsIff | main.go:451-453 | the process panics if and only if a run with a target reports after the sender's Stop, or the sender is stopped twice |
| Shutdown.StopDuringRunCanPanic | main.go:474-475 | if a run with a target is about to report when the sender is stopped, some schedule panics |
| Delivery.SendWithRetries | internal/webhook/webhook.go:286-306 | fails if and only if none of maxRetries + 1 attempts is answered; stops at the first success; sleeps between attempts as Backoff says |
| Delivery.BackoffIsCappedDoubling | internal/webhook/webhook.go:296-303 | pauses are 2, 4, 8, then 10 seconds up to attempt 32 |
| Delivery.BackoffSignIff | internal/webhook/webhook.go:297-300 | for attempts 33 to 53 the pause is negative if and only if bit 53 - n of 1953125 is set, and ten seconds otherwise |
| Delivery.BackoffVanishes | internal/webhook/webhook.go:297-302 | from attempt 54 the wrapped pause is zero |
| Delivery.BackoffAsMeantIff | internal/webhook/webhook.go:296-303 | for every attempt: the pause is the capped doubling if and only if the attempt is at most 32, or at most 53 with that bit clear; otherwise there is none |
| Delivery.AttemptsPerExecution | internal/webhook/webhook.go:286-306 | an execution posts at most maxRetries + 1 times, and exactly so often if nothing is answered with 2xx |
| Delivery.OutagePostBound | internal/webhook/webhook.go:278-311 | an outage of length D sees at most (maxRetries + 1) * (failureThreshold + floor(D / recoveryTimeout)) posts |
| Gc.Runner.RunGC | internal/gc/gc.go:60-190 | store and report for no retention, failed listing, cancellation at any object, any failing deletes, dry run or not, in terms of `Sweep` |
| GcProperties.SweepExactly | internal/gc/gc.go:110-168 | deleted are exactly the visited objects older than the cutoff whose delete works; no failures if and only if all of those work |
| GcProperties.SizeConserved | internal/gc/gc.go:97-182 | total size before is total size after plus totalSizeFreed |
| GcProperties.PassExactly | internal/gc/gc.go:77-190 | which objects disappear from the store, the balance of bytes, and when the pass reports failure, for every listing, cancellation and failure pattern |
| GcProperties.PassBounds | internal/gc/gc.go:110-168 | a pass removes only listed objects older than the cutoff, and all of them if nothing stops it |
| GcProperties.PassByRetention | internal/gc/gc.go:22-58 | a positive retention of the spec decides what a pass removes, whatever the global one; else a positive global one does; else nothing is removed |
| GcProperties.ReportExactly | internal/gc/gc.go:97-189 | the outcome of a pass, the number and bytes of the objects that are gone, and the keys whose delete failed, for every listing, cancellation and failure pattern |
| GcProperties.NothingLeftToDelete | internal/gc/gc.go:110-168 | after a complete pass a new listing has nothing older than the cutoff |
| GcProperties.DryRunForecasts | internal/gc/gc.go:129-137 | the store after the rehearsal is the one before it, and the rehearsal reports what the failure-free run after it does |
| GcProperties.SecondRunDoesNothing | internal/gc/gc.go:60-190 | a second failure-free run at the same clock reading affects nothing |
| GlobalGc.ListObjects | internal/writer/local.go:127-187 | a listing is a snapshot: each object the prefix selects, once, with its size and time |
| GlobalGc.ProcessSpec | main.go:165-184 | one spec's turn removes only objects it claims, nothing if it is cancelled at once or its writer or listing fails, and all it claims if nothing goes wrong |
| GlobalGc.RunGlobalGC | main.go:146-187 | in any iteration order and weather, objects disappear only if some enabled spec with positive retention that nothing stops claims them; exactly then if nothing goes wrong |
| GlobalGc.OrderDoesNotMatter | main.go:155-185 | two fair nights from the same start with the same clocks leave the same store, whatever their orders |
| GlobalGc.ClaimsIff | internal/gc/gc.go:22-58 | a spec claims the objects in the store its destination names, in any case of letters, that its prefix lists there and that are older than its own positive retention, or else a positive global one |
| GlobalGc.NightlyExactly | main.go:155-185 | a fair night removes from the bucket exactly the objects some enabled remote spec lists and finds older than its retention |
| MetadataGc.ListingsPutBackupFirst | internal/writer/metadata.go:32-45 | both listing orders put a backup before its metadata |
| MetadataGc.WalkOrder | internal/writer/local.go:148 | the order of a walk, as that of code units in a name, is total |
| MetadataGc.PairBrokenIff | internal/gc/gc.go:110-167 | exactly when one pass deletes the metadata and keeps the backup: the delete of the backup failed and that of the visited, expired metadata worked |
| MetadataGc.HappeningKeepsInv | internal/scheduler/scheduler.go:331-355 | jobs and passes, each pass with a prefix of its own, interleaved in any way keep metadata no older than its backup and passed backups gone for good |
| MetadataGc.VisitsAreASweep | internal/gc/gc.go:110-168 | undisturbed, the visits of a pass in this interleaving do to the store what the loop of Runner.RunGC does |
| MetadataGc.BackupIsStored | internal/scheduler/scheduler.go:331-355 | a run that succeeds leaves backup and metadata with the time of writing and nothing else changed |
| MetadataGc.FailureIsUndone | internal/writer/local.go:98-116 | the backup is there, empty, from its first moment, and a run that fails takes it away |
| MetadataGc.PassIsARun | internal/gc/gc.go:77-168 | an undisturbed pass of this interleaving leaves what Runner.RunGC leaves |
| MetadataGc.ObjectNamesAreBackupNames | internal/writer/writer.go:107-113 | every object name ends as the names in this interleaving do |
| MetadataGc.PassNeverStripsABackup | internal/gc/gc.go:110-167 | with working deletes and distinct names, a pass that listed a backup never removes its metadata while keeping it, wherever it is cancelled and whatever prefixes other passes list |
| Naming.NameReads | internal/writer/writer.go:107-113 | trimmed prefix, type, database and timestamp, in that order, with these separators |
| Naming.LabelNamesDatabase | internal/writer/writer.go:84-85 | the database label names the database |
| Naming.ConnNamesDatabase | internal/writer/writer.go:87-94 | without it, what follows the last slash of the connection string does |
| Naming.QueryIsDropped | internal/writer/writer.go:88-91 | up to the last "?" after that slash |
| Naming.NothingNamesDatabase | internal/writer/writer.go:95-97 | without a slash the name is "database" |
| Naming.SanitizesExactly | internal/writer/writer.go:99-105 | letters, digits, "-" and "." stay, each other character becomes "_" |
| Naming.NamesCollideIff | internal/writer/writer.go:81-113 | two runs get the same object name if and only if they agree on trimmed prefix, type, sanitised database and second |
| Naming.RemoteOwnListingIff | internal/writer/s3.go:178-227 | in S3 a backup is found under its own prefix if and only if the prefix has no leading and at most one trailing slash, or is "" or "/" |
| Naming.MetadataIsListedToo | internal/writer/local.go:127-187 | a listing that has a backup's key selects its metadata's key as well |
| LocalPaths.LocalOwnListingIff | internal/writer/local.go:60-68 | a stored local backup is found under its own prefix if and only if there is none or its trimmed form is already clean |
| LocalPaths.MetadataStoredBeside | internal/writer/metadata.go:32-45 | Write accepts backup and metadata names alike and stores them beside each other |
| LocalPaths.FilesCollideIff | internal/writer/local.go:60-70 | two local runs write the same file if and only if their prefixes resolve to the same directory and they agree on type, sanitised database and second |
| LocalPaths.ResolveDrops | internal/writer/local.go:61 | empty segments and "." do not matter to the cleaned path |
| LocalPaths.ResolveGoesUp | internal/writer/local.go:61 | ".." takes the ordinary segment before it |
| LocalPaths.ResolveKeeps | internal/writer/local.go:61 | leading ".." and ordinary segments stay |
| Containment.RefusedIff | internal/writer/local.go:60-68 | Write refuses exactly the names that start with a slash or whose first resolved segment begins with two dots, after backslashes have become slashes |
| Containment.WriteStaysInside | internal/writer/local.go:60-91 | every name Write accepts lies inside the base directory, so its second check never refuses one |
| Containment.PassesCheckIff | internal/writer/local.go:221-245 | the check of reads and deletes passes exactly the paths below the base directory or below a sibling whose name begins with the base's |
| Containment.SiblingPasses | internal/writer/local.go:190-210 | next to "/d", "../dx/f" passes and is not inside |
| GcReach.KeyMeansFile | internal/writer/local.go:158-173 | the key under which a listing shows a file, given to DeleteObject, means that file |
| GcReach.ReachedOutsideIff | internal/gc/gc.go:79-139 | a pass lists a file outside the base directory and its delete is not refused if and only if the file is in a sibling whose name extends the base's and the segments of the trimmed prefix lead to it |
| GcReach.LooksOutsideIff | internal/writer/local.go:127-176 | there are such files for a prefix if and only if its trimmed form is ".." or goes through ".." into such a sibling along ordinary segments |
| GcReach.OutsidePrefixStoresNothing | internal/writer/local.go:60-68 | Write refuses every backup of a spec with a prefix that starts with ".." |
| LocalWriter.LocalWriter.Write | internal/writer/local.go:55-125 | for any chunking, end of stream and disk: files, size and checksum afterwards; success exactly if the name, the disk and the stream are good |
| LocalWriter.WriteLeaves | internal/writer/local.go:98-117 | a Write touches its own file only: the whole stream if it succeeds, nothing if it fails and the removal works, as much of the stream as fitted if that fails too, what was there if it could not open the file |
| LocalWriter.MagicIff | internal/writer/writer.go:123 | the magic bytes are 31 and 139 |
| LocalWriter.LocalWriter.ValidateBackup | internal/writer/writer.go:115-144 | accepts if and only if the reader ends well and its first Read yields the gzip magic of section 2.3.1 of RFC 1952; returns the hash of all the content |
| LocalWriter.ValidButRefusedIff | internal/writer/writer.go:117-125 | content with the magic is refused if and only if the first Read yields less than two bytes of it |
| LocalWriter.ValidCanBeRefused | internal/writer/writer.go:117-125 | all such content can arrive so that it is refused |
| LocalWriter.LocalWriter.BackUpAndReadBack | internal/writer/metadata.go:32-83 | under fresh names, backup and metadata come back as written, and validation yields the recorded checksum, if and only if Write and ReadObject take the name for the same file; otherwise nothing comes back |
| LocalWriter.LocalWriter.WriteAndCleanUp | internal/writer/local.go:220-257 | a delete undoes a Write of a fresh name if and only if both take the name for the same file |
| LocalWriter.BackslashIsLost | internal/writer/local.go:60-61 | under any prefix of two ordinary segments joined by a backslash they do not |
| LocalWriter.WithoutBackslashesSame | internal/writer/local.go:60-61 | for any accepted name without backslashes they do |
| RemoteWriter.CountingReader.Read | internal/writer/s3.go:22-35 | after every read, count and hash cover exactly the chunks read so far |
| RemoteWriter.S3Writer.Write | internal/writer/s3.go:142-176 | an upload stores the whole stream with its size and checksum or changes nothing |
| Retention.ParsersAgree | internal/discovery/discovery.go:229-286 | on every non-blank text the label parser and the global parser agree |
| Retention.BlankText | main.go:39-72 | a blank global setting is seven days, a blank label none |
| Retention.DurationsAreTaken | main.go:45-56 | both parsers take a readable, non-negative duration as it is |
| Retention.NumbersAreDays | internal/discovery/discovery.go:229-286 | n and "nd" are n days to both parsers |
| Retention.DaysExactIff | main.go:84 | n days are n * 86400 * 10^9 ns without wrap-around if and only if n is at most 106751 |
| Retention.LongRetentionCanBecomeShort | main.go:58-72 | "213504d" means 25 minutes and 26 seconds to both parsers |
| Retention.UnusableMeansNoRetention | main.go:87-93 | negative or malformed values give 0, and with such a global value the effective retention is positive exactly for labels with a positive period |
| Retention.PassWithUnusableGlobal | internal/gc/gc.go:60-67 | with such a global value a pass for a spec without a positive period changes nothing, whatever is listed |
| Scheduler.Scheduler.AddOrUpdateJob | internal/scheduler/scheduler.go:73-135 | both tables, the entry counter and the result after unchanged, changed, rejected and new cron expressions |
| Scheduler.Scheduler.Reconcile | main.go:410-424 | a tick in any iteration order takes every container's slot one step by its own spec and leaves all others; if all is settled it changes nothing |
| Scheduler.StepRefinesSlots | internal/scheduler/scheduler.go:73-147 | each call keeps the tables consistent and acts on one container by a rule that looks at no other |
| Scheduler.TickOrderDoesNotMatter | main.go:416-424 | two ticks from the same tables leave the same containers, records and captured specs up to entry IDs |
| Scheduler.TickTwice | main.go:416-424 | a second tick with the same registry changes neither table nor any entry ID, rejected expressions included |
| SchedulerHistory.TablesAgree | internal/scheduler/scheduler.go:73-147 | after any calls each live entry belongs to exactly one record with its cron expression, IDs are not shared, and each container's slot depends on its own calls only |
| SchedulerHistory.EntriesRunOnTheirCron | internal/scheduler/scheduler.go:96-109 | every live entry runs on its spec's expression, with a seconds field "0" before its five fields if it has exactly five and no leading "@", and unchanged otherwise |
| SchedulerHistory.NilIffRecorded | internal/scheduler/scheduler.go:73-135 | AddOrUpdateJob returns nil if and only if the record then holds the given spec |
| SchedulerHistory.DanglingIffLastAddFailed | internal/scheduler/scheduler.go:86-122 | a record lacks a live entry if and only if the container's last AddFunc failed; a live entry runs the spec of the last successful one |
| SchedulerHistory.SameCronKeepsCapturedSpec | internal/scheduler/scheduler.go:77-94 | changes that keep the cron expression reach the record, never the job |
| SchedulerHistory.RevertedTypoLosesTheJob | internal/scheduler/scheduler.go:78-117 | any number of updates with rejected expressions, then any number with the old one, leave the record dangling |
| Discovery.Watcher.HandleEvent | internal/discovery/discovery.go:139-183 | start, create and update of a container with accepted labels file a spec whose every field is its own label's value; of one with other labels they keep or erase it by the raw enabled label; destroy, die, kill and stop erase it; nothing else changes |
| Discovery.Watcher.ParseAndRegister | internal/discovery/discovery.go:185-227 | files, keeps or erases exactly the inspected container, in terms of its labels |
| Discovery.Watcher.GetRegistry | internal/discovery/discovery.go:384-394 | an equal copy |
| Discovery.RegistryIsPerContainer | internal/discovery/discovery.go:139-227 | after any events a container's spec is the one left by its own last event that counts |
| Discovery.ParsesIff | internal/discovery/discovery.go:288-382 | exactly which labels, as written on the container, parse |
| Discovery.RegistryIsValid | internal/discovery/discovery.go:288-382 | every registered spec is enabled, complete, valid and filed under its own container |
| Discovery.BrokenLabels | internal/discovery/discovery.go:185-222 | an unparseable enabled container keeps its spec if the raw label is exactly "true", and loses it otherwise |
| Agent.ToolsIff | internal/dumper/dumper.go:38-50 | each of the four types has its own tool, and no other type has one |
| Agent.Tick | main.go:410-424 | the reconcile branch is a step of these runs |
| Agent.Hear | internal/discovery/discovery.go:139-183 | so is the handling of a message |
| Agent.RunInvariants | main.go:408-424 | over every run of messages and ticks the registry and every captured spec are valid, a tick never reaches RemoveJob, no factory lookup of garbage collection (registered specs) or of a job (captured specs) misses, and the scheduler's containers only grow |
| Agent.LeavingTheRegistryKeepsTheJob | main.go:416-424 | a container that has left the registry keeps its cron entry and captured spec through any run |
| Agent.DestroyLeavesTheJob | internal/discovery/discovery.go:165-172 | a destroy event empties the registry entry and leaves the live job |
| Agent.ReloadHeals | main.go:428-460 | after a reload and a tick each container in the registry with an accepted expression runs its present spec, and nothing else is scheduled |

## Left out

- Docker client, event stream, reconnect backoff, HTTP handlers and signal delivery: messages, inspect answers and ticks are inputs.
- The AWS SDK, TLS and pagination: an upload reads its body to the end or gives up; a listing is one snapshot of the keys its prefix selects.
- The dump commands, their arguments and TestConnection: a command has some output and some exit status. That it ends at all is assumed; a command that never closes its output or its stderr blocks a run by itself.
- GPG encryption, which no run uses; disk-space checks, which may pass or fail.
- `url.Parse`, cron timing, SkipIfStillRunning, logging, the `/metadata` endpoint and HMAC signatures.
- Unicode: case folding and white space are those of ASCII.
- The int64 overflow of totalSizeFreed, failureCount and byte counts.
- Panics inside the inner copy goroutine of StreamAndGzip, which no deferred function recovers, and pipe writes of length zero.
- Slots.SlotsBalance: speaks of a sender that is not stopped; runs during a stop are in Shutdown.
- RunOutcome.CancelledCopyCanSucceedIff: the kernel's pipe is a capacity in bytes, and what the command writes on stderr is not limited.
- ConcurrentBreaker.OpensBelowThresholdIff: between the two lock sections of one caller only the order of steps counts, not how long they take.
- RunOutcome.ObjectLeftIff: assumes that os.Remove works and the writer goroutine does not panic; for a removal that fails see RunHistory.TornFileIff.
- Breaker.OutageRateBound: assumes a threshold of at least one, a positive timeout and calls that do not overlap; the one worker of a sender makes no others.
- MetadataGc.PassNeverStripsABackup: assumes distinct names, working deletes and metadata written in one step; one pass runs at a time. What failing deletes do is PairBrokenIff.
- GlobalGc.RunGlobalGC: no job writes to the stores while it runs; jobs and passes together are in MetadataGc.
- LocalPaths.StoredKey: host paths are segments below the base directory; symbolic links, the base directory itself and Windows drive names are not part of this model.
- LocalWriter.LocalWriter.BackUpAndReadBack: assumes fresh names, a disk with room and a JSON encoding that gives this one record back.
- LocalWriter.LocalWriter.ReadObject: files are known by their cleaned relative paths, so two paths that leave the base directory and mean the same file are two files here.
- Agent.ReloadHeals: runs of the old scheduler that are still in progress at the reload are not part of it.
