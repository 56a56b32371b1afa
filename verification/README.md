# Prune Guard, modelled in Dafny

Prune Guard is a daemon that frees disk space by deleting stopped containers, unused images
and volumes, and build cache, through Docker or Podman. This project models what decides and
carries out those deletions, and proves that the decisions are safe, that the accounting is
exact, and that the text formats round-trip.

- **The cleanup pipeline.** `Domain`, `Policy`, `Planner`, `Executor` and `Scheduler` follow
  the source files of the same names. `Backend` stands for an arbitrary container backend:
  every answer is an unconstrained function of all earlier exchanges, and each exchange is
  recorded. `Scheduler` runs the watermark loop against it and proves that the recorded calls
  are accepted by one automaton, whose final report is the loop's report. `SchedulerLaws`
  proves what every accepted cycle guarantees. `Executor` also models the detached worker
  threads and their channel as a machine whose moves interleave freely.
- **The adapters.** `ContainerRuntime` is an arbitrary command runner with a recorded log, and
  says what guard answers prove or forbid. `DockerBackend` and `PodmanBackend` are the guards,
  the fallback reference scan, the prune and the delete. `BuildCache` holds the two scans of
  the cache table and the prune budget, `Discovery` the tagging of candidates, `Calendar` the
  civil-date arithmetic.
- **Reliability.** `Backoff` is the backoff law. `Reliability` is the lock file, the retry loop
  and the coordinator, all writing to one journal per process. `InstanceLock` is the lock as a
  protocol of any number of processes; `Coordinators` proves that interleaved journals of
  coordinators keep to that protocol. `ReliabilityLaws` says what retry runs mean over real
  scheduler cycles.
- **Text formats.** `Toml` and `Config` are the configuration reader; `TomlRoundTrip` and
  `ConfigRoundTrip` are printers for it, in any layout, and the proofs that reading undoes
  printing. `JsonLine` is the log-line printer with a decoder after RFC 8259, section 7;
  `OrderedMap` is the sorted map it uses.
- **End to end.** `EndToEnd` joins discovery, policy, planner, scheduler and execution.

Loops and updated fields of the source are methods, loops and classes here; each such method is
proved against a specification function, and the laws are lemmas about those functions.
Unsigned 64-bit, 32-bit and 8-bit integers are subset types with saturation, wrap-around and
truncation written out.

Where the repository's own documentation and its code disagree, the code is followed:

- `src/planner.rs:15` says that candidates of unknown size are rejected. The code plans one and
  lets it use up the budget; only a cap of zero keeps unknown sizes out
  (`Planner.SizesAreKnownExactly`), and the skip reason for them can never be produced.
- `docs/reliability-and-error-handling.md` says that a cycle in which all backends fail executes
  no delete, and `src/reliability.rs:269` calls it a no-op. In real mode the no-op flag is also
  set after deletions, for failed backends and for backends that succeeded at a later attempt.
  `ReliabilityLaws.NoOpIsTrueExactly` and `SuccessfulNoOpIsTrueExactly` say when it is true.
- The same document says that the lock is always released on error paths. It is released by the
  guard's drop, for a panic too; but a killed process keeps the file for good, and so does a
  removal that fails, because its result is discarded (`InstanceLock.LostFileBlocksForever`).
- It also says that overlapping cleanup is avoided. Cycles never overlap, but a batch that gave
  up on a worker leaves it running, and it may delete after the lock is released: possible
  exactly if some action timed out (`Executor.NoLateWorkerExactly`).

## Model

| member | source | states |
|---|---|---|
| Domain.PercentUsedIsBounded | src/domain.rs:129-137 | with used at most total the percent, from the adapter or computed by the snapshot, never exceeds 100, so the cast to eight bits loses nothing, and it is the exact quotient unless used times 100 saturates |
| Domain.MeasuredPercentAgrees | src/docker_backend.rs:662-674 | the percent the adapters compute is the one the snapshot would compute, and is unknown exactly for a capacity of zero |
| Policy.AcceptanceIsExact | src/policy.rs:75-115 | a candidate passes exactly when it is actionable in the sense of `is_actionable`, matches no allowlist and is old enough |
| Policy.AcceptanceByName | src/policy.rs:75-158 | acceptance in terms of names: an image or volume is protected exactly by an entry that is its identifier or display name, anything by an entry that is one of its labels, with any space around either |
| Policy.ReasonIsFirstFailedCheck | src/policy.rs:75-115 | a rejection carries a reason exactly when that check fails and all checks before it hold; no other reason occurs |
| Policy.SizeIsIrrelevant | src/policy.rs:75-147 | the verdict does not depend on the size, so cutting a cache down cannot make it eligible |
| Policy.EvaluateCandidates | src/policy.rs:57-69 | splits the input into the accepted candidates and the rejected ones with their reasons, in order, losing none |
| Planner.CleanupPlanner.Plan | src/planner.rs:41-145 | the imperative planner yields the plan defined candidate by candidate from the budget left by its predecessors |
| Planner.PlanPartitionsInput | src/planner.rs:62-144 | actions and skips interleave back to the input, unchanged but for build caches cut to a smaller positive size |
| Planner.PlanIsOnline | src/planner.rs:62-144 | the plan of a prefix is a prefix of the plan, and the budget never grows |
| Planner.PlanConservesBudget | src/planner.rs:56-137 | known planned bytes, bytes absorbed by an unknown size and bytes left always add up to the saturated cap |
| Planner.PlanStaysWithinCap | src/planner.rs:56-137 | one plan never holds more known bytes than the cap |
| Planner.CapIsInGigabytes | src/planner.rs:23-58 | the cap is the configured number times 1073741824 bytes, as far as 64 bits go |
| Planner.AbsorberIsLast | src/planner.rs:79-121 | at most one action is unknown-size or cut, and everything planned after it has size zero |
| Planner.SizeUnknownIsNeverEmitted | src/planner.rs:79-102 | the skip reason for unknown sizes is dead code |
| Planner.UnknownSizeTakesTheRest | src/planner.rs:79-102 | a candidate of unknown size is planned exactly if it is eligible and any budget is left when it comes up; it then uses up the rest |
| Planner.SizesAreKnownExactly | src/planner.rs:56-102 | no plan ever holds an unknown size exactly when the configured cap is zero |
| Planner.PlanIsMaximal | src/planner.rs:79-137 | a candidate skipped for the cap still exceeds the budget left at the end; an unknown size or a cache is skipped only when nothing is left |
| Planner.PlannedActionsAreEligible | src/planner.rs:62-144 | every action is an accepted input candidate of the requested backend, or a cut of one, in the configured mode |
| Planner.ProtectedNamesAreSpared | src/policy.rs:117-158 | no plan holds an image or volume whose identifier or display name an entry names, or anything with a label an entry names |
| Planner.SkipReasonIsTrue | src/planner.rs:64-137 | every skip carries the failed policy check, the backend mismatch, or, for eligible candidates only, the cap |
| Planner.EmptyPlanReason | src/scheduler.rs:312-321 | for an empty plan the cap reason is present exactly when some candidate was eligible, so the two no-action stop reasons are told apart correctly |
| Executor.CleanupExecutor.ExecutePlan | src/executor.rs:61-95 | one backend call per real action in plan order, none for dry ones, and the report is the batch report over the outcomes seen |
| Executor.BatchIsComplete | src/executor.rs:61-95 | completed plus failed equals planned, and there is a failure exactly when some real action failed |
| Executor.ActionLandsInOneList | src/executor.rs:61-109 | each action lands in exactly one list, directly behind what the earlier actions put there, with the response or error of its own call |
| Executor.ActionIsAnswered | src/executor.rs:61-149 | a dry action is answered with its own candidate, unexecuted; a real one with what the backend returned; a timeout or a vanished worker is an execution failure of that action |
| Executor.FirstFailureIsFirst | src/executor.rs:61-95 | the first failure reported is that of the first action that failed |
| Executor.DryBatchTouchesNothing | src/executor.rs:71-75 | a dry batch starts no call, cannot fail and marks nothing as executed |
| Executor.InterleavingRefinesBatch | src/executor.rs:111-149 | every interleaving of main thread and workers ends with the report of the sequential batch, and the workers started serve exactly the real actions, one each and in order |
| Executor.LateWorkersChangeNothing | src/executor.rs:124-149 | once the main thread is done, moves of abandoned workers change neither report nor outcomes |
| Executor.MainThreadNeverBlocks | src/executor.rs:131-149 | short of the end the main thread always has an enabled move, whatever the workers do |
| Executor.NoLateWorkerExactly | src/executor.rs:124-149 | no interleaving with given outcomes leaves a worker running behind the batch, exactly when no outcome is a timeout |
| Executor.AbandonedWorkerMayFinish | src/executor.rs:124-149 | the failing inputs: for every timeout there is an interleaving after which the worker of that very action may still finish with any answer, a deletion included |
| Scheduler.CleanupScheduler.constructor | src/scheduler.rs:105-125 | the iteration limit is at least one |
| Scheduler.CleanupScheduler.RunOnce | src/scheduler.rs:132-283 | for every backend the calls of one tick are one complete accepted cycle and the report is the one that cycle determines |
| Scheduler.CleanupScheduler.RunForTicks | src/scheduler.rs:289-309 | all calls and sleeps form one log: a complete cycle, one interval of sleep, a complete cycle, and so on, ending with a cycle |
| SchedulerLaws.FirstCallIsHealth | src/scheduler.rs:142-160 | the first call of a cycle is the health check |
| SchedulerLaws.CallsAreOrdered | src/scheduler.rs:142-283 | health, usage, then rounds of discover, execute batch and usage, with a healthy answer directly before every later discovery |
| SchedulerLaws.NothingFollowsAHalt | src/scheduler.rs:142-283 | nothing is called after an error, an unhealthy answer, an unknown percent or an empty plan |
| SchedulerLaws.FailureEndsTheCycle | src/scheduler.rs:244-262 | after a failed action only the rest of its batch is called |
| SchedulerLaws.CycleGoesOnExactly | src/scheduler.rs:142-283 | read off the calls alone, another call follows exactly if the last answer, the watermarks, the plan and the limit say so, and an execute call is for the planned action whose turn it is |
| SchedulerLaws.DiscoveryNeedsWork | src/scheduler.rs:200-228 | every discovery is made with the latest snapshot, and its percent is above the target |
| SchedulerLaws.TargetStopsTheRun | src/scheduler.rs:180-208 | a healthy recheck at or below the target is the last call and reports the target reached; above it a discovery follows |
| SchedulerLaws.OnlyPlannedActionsExecute | src/scheduler.rs:210-252 | every execute call is an action of the plan for the latest discovery, eligible and in real mode |
| SchedulerLaws.RunIsAccounted | src/scheduler.rs:210-283 | completed plus failed equals planned, planned plus skipped equals all discovered, iterations equal rounds within the limit, failures exactly with the failure stop reason |
| SchedulerLaws.ExecuteCallsAreCounted | src/scheduler.rs:228-252 | one execute call per planned action in real mode and none in dry mode, so a cycle touches nothing exactly when it was dry or planned nothing |
| SchedulerLaws.StopReasonIsJustified | src/scheduler.rs:142-283 | every stop reason is justified by the backend's answers, final usage is the last one measured, cleanup starts only at or above the high watermark |
| SchedulerLaws.FirstFailureIsReported | src/scheduler.rs:244-262 | a run ended by failures reports the error of the first action that failed |
| SchedulerLaws.ReportNamesItsRun | src/scheduler.rs:69-103 | the report carries the backend, the mode and the first measurement of its run |
| SchedulerLaws.TargetReachedIsReal | src/scheduler.rs:177-208 | with the validated watermark order a reached target means at least one round and a final percent at or below target |
| SchedulerLaws.ReclaimIsBounded | src/scheduler.rs:244-252 | the counter is the sum of the backend's claims modulo 2^64; if the backend echoes its candidates the sum is at most one cap per iteration |
| SchedulerLaws.DryRunIsHarmless | src/executor.rs:71-75 | a dry cycle makes no execute call and reclaims zero |
| SchedulerLaws.CyclesAreDetermined | src/scheduler.rs:132-283 | a backend's behaviour fixes the cycle: only one call sequence is both accepted and answered by it |
| SchedulerLaws.RunReplay | src/scheduler.rs:132-283 | every accepted cycle happens: against a backend that replays its answers the scheduler makes exactly these calls and returns exactly this report |
| Calendar.ClosedFormCountsDays | src/docker_backend.rs:1340-1354 | the era formula equals the day count by years and months for every year, and is None exactly before 1970-01-01 |
| Calendar.NoOverflowExactly | src/docker_backend.rs:1340-1354 | no 32-bit intermediate, products and partial sums included, overflows exactly up to the day bound given; all years to 999999 are inside it |
| Calendar.SuccessorCountsOne | src/podman_backend.rs:646-660 | the next calendar day has the next day number |
| Calendar.DayNumbersIncrease | src/podman_backend.rs:646-660 | an earlier valid date has a smaller day number |
| Calendar.ParsedDatesNeverOverflow | src/docker_backend.rs:1322-1338 | every date read from a ten-byte prefix has a year up to 999999 and computes without overflow |
| Calendar.AgeIsExact | src/docker_backend.rs:1322-1338 | an age is returned exactly for readable dates from the epoch to today, and age plus day number is today |
| Calendar.WrittenDateIsRead | src/docker_backend.rs:1322-1331 | a date written in four, two and two digits is read as that year, month and day, whatever follows it, and refused if month or day is out of range |
| Calendar.WrittenAgeIsExact | src/docker_backend.rs:1322-1338 | the age of a written date is today less its day number, exactly for dates from the epoch to today |
| BuildCache.BuildCacheCandidate | src/docker_backend.rs:920-1004 | the discovery loop emits a candidate exactly when some row is eligible, with the saturated total, least age and completeness of the eligible rows |
| BuildCache.CollectPrunableBytes | src/docker_backend.rs:1006-1059 | the execution loop succeeds exactly when every row is readable, and then yields the saturated total of the eligible rows |
| BuildCache.SelectedExactly | src/docker_backend.rs:935-975 | a row is selected exactly if it is named, known to be unused, and its last use, or its creation if never used, is old enough |
| BuildCache.ScansAgree | src/docker_backend.rs:935-1059 | at any two times of one day, with a complete candidate's age as threshold, both loops select the same rows and the prunable total is its size |
| BuildCache.LaterScanFindsMore | src/docker_backend.rs:1006-1059 | on a later day the execution scan finds at least the size that was discovered |
| BuildCache.PruneStaysWithinPlan | src/docker_backend.rs:334-383 | under either flag every permitted prune stays within the planned bytes exactly when the cache's true size fits in 64 bits |
| BuildCache.PlannedCacheHasBudget | src/docker_backend.rs:983-1003 | every planned cache action has a known age and a positive known size, at most the discovered one |
| ContainerRuntime.ProofOfSafetyIsTrue | src/docker_backend.rs:179-313 | answers of an unchanging, truthful engine that prove a resource safe are right, the per-container fallback included |
| ContainerRuntime.ProofHasNoObstacle | src/docker_backend.rs:179-313 | no answer that proves a resource safe is also a reason to refuse, so the guards decide exactly |
| ContainerRuntime.RemovalSparesBusyResources | src/docker_backend.rs:827-891 | in an unchanging engine no removal ever hits a resource in use |
| ContainerRuntime.PrefixIsNoDifference | src/docker_backend.rs:1411-1413 | a digest is the same image with or without the algorithm in front and with any space around |
| ContainerRuntime.EitherSpellingBlocks | src/docker_backend.rs:216-229 | a listing that shows an image in either spelling blocks the deletion of both |
| ContainerRuntime.OtherImagesClear | src/docker_backend.rs:216-229 | a listing of other images blocks neither |
| ContainerRuntime.TemplateComplaintIsTold | src/docker_backend.rs:1212-1216 | the complaint that leads to the fallback scan is recognised by its three parts |
| DockerBackend.Adapter.EnsureContainerNotRunning | src/docker_backend.rs:179-214 | passes exactly when the inspection proves the container stopped or gone; a safety violation exactly when metadata was read |
| DockerBackend.Adapter.EnsureImageNotReferenced | src/docker_backend.rs:216-293 | passes exactly when the listing, or the complete fallback scan, shows no use of the image; otherwise some answer is an obstacle |
| DockerBackend.Adapter.CollectReferencesPerContainer | src/docker_backend.rs:246-291 | the fallback clears the image exactly when every listed container was asked and answered with another image or is gone |
| DockerBackend.Adapter.CollectContainerMetadata | src/docker_backend.rs:147-177 | inspects every listed container, skips vanished ones, fails on any other error, and returns the successful answers in order |
| DockerBackend.Adapter.EnsureVolumeNotAttached | src/docker_backend.rs:295-313 | passes exactly when no listed container mounts the volume; otherwise some answer is an obstacle |
| DockerBackend.Adapter.PruneBuildCache | src/docker_backend.rs:315-383 | prunes carry the age filter and the budget's limit, fall back only when the flag is unknown, and fail only on a failed command or an unreadable table |
| DockerBackend.PruneFilterIsExact | src/docker_backend.rs:326-331 | every prune, fallback included, filters by 24 hours for each day of the planned age, and not at all for age zero |
| DockerBackend.PrunedEntriesAreOld | src/docker_backend.rs:326-331 | whatever the filter admits is at least the planned age in full days old, exactly as long as that age has a number of hours in 64 bits |
| DockerBackend.UnreadableTableStopsPrune | src/docker_backend.rs:334-350 | a row whose use, age or relevant size is unknown stops the prune |
| DockerBackend.MessagesAreTold | src/docker_backend.rs:582-597 | missing targets and the unknown flag are recognised by their texts anywhere in the message, and by nothing less |
| DockerBackend.Adapter.DeleteResource | src/docker_backend.rs:385-411 | one remove command for this resource; a target already gone counts as deleted |
| DockerBackend.Adapter.Execute | src/docker_backend.rs:827-891 | a dry run issues no command; otherwise a removal is issued exactly on proof of safety, last and for this resource only, and refused exactly on an obstacle |
| DockerBackend.PruneReclaimsAtMostPlanned | src/docker_backend.rs:334-383 | each prune in any execution trace may reclaim at most the planned size, fallback included |
| PodmanBackend.Adapter.EnsureContainerNotRunning | src/podman_backend.rs:79-106 | passes exactly when the container is reported as stopped; a vanished container is an error |
| PodmanBackend.Adapter.EnsureImageNotReferenced | src/podman_backend.rs:108-129 | passes exactly when the list of images in use lacks the image |
| PodmanBackend.Adapter.CollectContainerMetadata | src/podman_backend.rs:54-77 | inspects every listed container, returns the answers in order, and fails on the first error |
| PodmanBackend.Adapter.EnsureVolumeNotAttached | src/podman_backend.rs:131-149 | passes exactly when every listed container was inspected and none mounts the volume |
| PodmanBackend.Adapter.Execute | src/podman_backend.rs:356-424 | as for Docker, without tolerance for vanished targets; cache and unknown kinds issue no command |
| Discovery.DiscoverCandidates | src/docker_backend.rs:679-823 | the candidates are the tagged containers, images, volumes and the cache, in that order and nothing else (the Podman form is `src/podman_backend.rs:256-352`) |
| Discovery.PlannedResourceIsListed | src/docker_backend.rs:698-807 | name, labels, age and size of every planned resource are those of a record with its id |
| Discovery.ListedProtectionHolds | src/docker_backend.rs:1148-1273 | no entry names a planned image or volume, or a label of a planned resource, as they were recorded, and its recorded age is old enough |
| Discovery.RecordsAreEligibleExactly | src/docker_backend.rs:1074-1273 | exactly the records that are complete, free, old enough and unprotected become eligible candidates |
| Discovery.UsedImageIsSpared | src/docker_backend.rs:698-807 | a listed container keeps its image out of every plan, whichever way either spells the digest |
| Discovery.PlanSparesBusyResources | src/docker_backend.rs:698-807 | no plan holds an image a listed container uses, a volume one mounts, an image whose protecting labels are unknown, or a container not listed as stopped |
| Discovery.ConsistentListingIsSafe | src/docker_backend.rs:698-807 | if no id is listed both as running and as a deletable container, the plan for a whole discovery holds no container listed as running, under any configuration |
| Discovery.RunningIsSparedExactly | src/podman_backend.rs:275-346 | with deletable containers of at most 2^64-1 bytes in all, that condition is exact: otherwise some configuration plans a running container |
| Discovery.RepeatedIdIsPlanned | src/docker_backend.rs:1074-1097 | the failing inputs: from the whole discovery, a container listed as running and as deletable is planned by a permissive configuration |
| Backoff.BackoffLaw | src/reliability.rs:41-48 | wait k is min(initial * min(m^k, 2^32-1), max) for every k below 2^32, the inner saturations hidden by the cap |
| Backoff.BackoffIncreases | src/reliability.rs:41-48 | waits never shrink below 2^32 retries |
| Backoff.BackoffOrderIsExact | src/reliability.rs:41-48 | the order holds for all policies exactly below 2^32 retries, where the index is cut to 32 bits |
| Reliability.Coordinator.RunBackendWithRetry | src/reliability.rs:327-360 | the journal grows by attempt, backoff sleep, attempt, and so on, ending with the first final result or at the limit; the report is that of the last attempt |
| Reliability.Coordinator.RunAll | src/reliability.rs:298-301 | the journal grows by one retry run per backend, in order and whatever the earlier ones did |
| Reliability.Coordinator.RunOnce | src/reliability.rs:290-325 | the journal grows by a failed or refused acquisition alone, or by acquisition, all retry runs, and only then the release; the disk and the summary flags follow |
| ReliabilityLaws.RetryableCycleHasError | src/reliability.rs:363-375 | over real cycles a retry is called for exactly when the report carries an error |
| ReliabilityLaws.FailedBackendKeepsEvidence | src/reliability.rs:327-360 | over real cycles a failed backend keeps its last report and that report's error |
| ReliabilityLaws.NoOpIsTrueExactly | src/reliability.rs:303-317 | with valid watermarks, every round over any real backends that is reported as no-op executed nothing, exactly when all of them are in dry mode |
| ReliabilityLaws.SuccessfulNoOpIsTrueExactly | src/reliability.rs:303-317 | the same for rounds in which some backend succeeded: exactly in dry mode or without retries, because only last attempts are looked at |
| ReliabilityLaws.FailedRunMayHaveDeleted | src/reliability.rs:303-317 | the failing inputs: every attempt deletes the one candidate and then fails to measure, and the summary reads no-op |
| ReliabilityLaws.SuccessfulRunMayHaveDeleted | src/reliability.rs:303-317 | a first attempt deletes and fails, a second finds usage below the watermark, and the successful backend reads no-op |
| Reliability.FileInstanceLock.TryAcquire | src/reliability.rs:122-143 | an existing file yields no guard, another I/O failure an error, otherwise the file is created and owned |
| Reliability.FileInstanceLock.Drop | src/reliability.rs:116-120 | dropping the guard removes the file at the path, or, if the removal fails, leaves it without saying so |
| InstanceLock.LockIsExclusive | src/reliability.rs:116-143 | over every interleaving, failing releases, panics and crashes included: at most one live guard, a file exactly while a live or crashed owner remains or a release has failed, and a release, orderly or by a panic, removes the owner's own file |
| InstanceLock.CyclesNeverOverlap | src/reliability.rs:116-143 | in every schedule of the lock protocol, between two cycle starts the first cycle has ended, in order or by a panic |
| Coordinators.SystemRunIsSchedule | src/reliability.rs:290-301 | any interleaving of the journals of processes that perform coordinator rounds until they panic or crash, over one disk, is a schedule of the lock protocol |
| Coordinators.CoordinatorsNeverOverlap | src/reliability.rs:290-301 | in any such interleaving no two coordinators' backend cycles overlap |
| Coordinators.CyclesRunLocked | src/reliability.rs:290-301 | a backend cycle begins and ends only while the lock file on the disk is its own process's |
| InstanceLock.LostFileBlocksForever | src/reliability.rs:116-143 | after a crash with the guard held or a failed release, by a panic too, no process ever acquires the lock again |
| InstanceLock.FreeLockIsAcquired | src/reliability.rs:122-143 | an attempt succeeds exactly when no owner, live or crashed, and no abandoned file remains |
| OrderedMap.LookupInsert | src/observability.rs:82-102 | inserting changes the value of its own key and no other |
| OrderedMap.InsertKeepsSorted | src/observability.rs:82-102 | inserting keeps the map sorted and free of repeated keys |
| JsonLine.ToKvMap | src/observability.rs:82-102 | the loop builds the core fields and then adds only details whose keys are free |
| JsonLine.FieldsAreExact | src/observability.rs:82-102 | core keys hold exactly the record's core values, absent ones stay absent, every other key is looked up in the details |
| JsonLine.CoreFieldsAreSpelled | src/observability.rs:24-102 | each core field and each of its values as they are spelled |
| JsonLine.DetailsNeverTouchCore | src/observability.rs:74-102 | no sequence of added details changes a core field |
| JsonLine.EscapeJson | src/observability.rs:386-404 | the loop escapes character by character |
| JsonLine.ToJsonLine | src/observability.rs:105-116 | prints the members of the map in order as one object |
| JsonLine.LineRoundTrip | src/observability.rs:105-116 | decoding a printed line by RFC 8259, section 7 gives back exactly the fields |
| JsonLine.LineIsOneLine | src/observability.rs:386-404 | a printed line holds no character below U+0020 |
| Toml.StripComment | src/config.rs:352-382 | cuts at the first hash outside every string |
| Toml.ParseString | src/config.rs:411-453 | the loop reads a quoted string, escapes included, or fails |
| Toml.EscapesMean | src/config.rs:423-437 | a backslash before n, r or t means newline, carriage return or tab, before anything else that character |
| Toml.ParseValue | src/config.rs:384-409 | reads a string, boolean, array or 64-bit integer, or fails |
| Toml.TruthInAnyCase | src/config.rs:384-409 | truth values are read in any letter case |
| Toml.ParseElements | src/config.rs:463-510 | cuts at commas outside strings and parses each non-blank piece; one bad piece fails the array |
| Toml.TrailingCommaIsIgnored | src/config.rs:463-510 | a comma behind the last element changes nothing |
| Toml.ParseLine | src/config.rs:294-338 | one line is nothing, a section header, an assignment or malformed |
| Toml.ParseTomlSubset | src/config.rs:290-350 | reads lines in order under the current section, stopping at the first error with its line number |
| Toml.NoKeyTwice | src/config.rs:316-348 | what is read has every key once, section included, with the value of its line |
| TomlRoundTrip.ValueRoundTrip | src/config.rs:384-510 | parsing undoes printing for every string content, number, boolean and flat array, with any space between brackets, elements and commas |
| TomlRoundTrip.LineReads | src/config.rs:294-338 | a printed line is read as what it says, whatever the space before, inside and after it and whatever its comment contains |
| TomlRoundTrip.DocumentRoundTrip | src/config.rs:290-350 | a printed document parses to what its lines mean, sections and first error included |
| Config.FindSingle | src/config.rs:656-675 | finds the value under the one alias present, and fails when two are |
| Config.FromEntriesIsExact | src/config.rs:89-188 | entries are accepted as a configuration exactly when they represent it and it is valid |
| Config.EmptyTextIsDefault | src/config.rs:49-68 | an empty text means the documented defaults |
| Config.DocumentIsReadExactly | src/config.rs:71-75 | any document with sections, aliases and comments parses to exactly the valid configuration it represents |
| ConfigRoundTrip.ConfigRoundTrips | src/config.rs:71-230 | in any layout (sections, aliases, order, spacing, comments, fields left out) a printed configuration is read back as itself exactly when it is valid, the numbers written are below 2^63 and the fields left out have their defaults |
| ConfigRoundTrip.SectionedConfigRoundTrips | src/config.rs:71-230 | in the sections of the shipped configuration file every configuration is read back as itself exactly when it is valid and its open-ended numbers are below 2^63 |
| ConfigRoundTrip.OtherLayoutsRoundTrip | src/config.rs:89-188 | the same for every plain name and for the other sections a field may stand in, so every name is spelled out |
| EndToEnd.CacheReclaimIsBounded | src/docker_backend.rs:334-383 | a cache discovered, planned and pruned gives up at most its planned size, which is within the discovered size and the cap |
| EndToEnd.RoundTakesCap | src/docker_backend.rs:334-383 | one round on a lone cache, discovered at one time and pruned by the adapter at that time or later, leaves its size less the cap |
| EndToEnd.NextRoundExists | src/planner.rs:104-121 | as long as the cache is eligible and not empty there is a next round, at any pair of times |
| EndToEnd.DrainTakesCeilingRounds | src/planner.rs:104-121 | such rounds, at whatever times, empty a cache of S bytes under a cap of C after exactly ceil(S/C) of them |
| EndToEnd.DrainEmptiesCache | src/planner.rs:104-121 | and for every eligible cache and every ceil(S/C) pairs of times of a clock that is not set back such a run to zero exists |
| EndToEnd.ExecutedResourceWasFree | src/scheduler.rs:210-252 | every resource a run asks to delete was free in the listing behind the latest discovery of that run |
| EndToEnd.RunSparesBusyResources | src/scheduler.rs:210-252 | scheduler and adapter together: whatever a run removes was used by no container at that moment and is the resource of an eligible action planned for the latest discovery |
| EndToEnd.LoadedConfigIsValid | src/config.rs:71-75 | any text that is accepted yields a configuration with ordered watermarks and a positive interval |
| EndToEnd.LoadedTargetIsReal | src/scheduler.rs:177-208 | for a loaded configuration, handed over as in `src/main.rs:189-201`, a reached target means at least one round and a percent brought from the high watermark down to the target |
| EndToEnd.LoadedLimitsHold | src/main.rs:189-201 | the lists, age, gigabytes and mode written in a configuration hold for every plan made under it |

## Left out

- Process spawning, `df`, PowerShell, socket discovery, file reading, clocks and sleeping: answers of arbitrary oracles and recorded logs.
- Parsing of inspect output, sizes in human units (floating point) and `created` strings beyond the date: adapters start from parsed records.
- Wording of error messages and `Display`, `src/main.rs` beyond handing over the configuration, metrics, preflight checks and report timestamps: plumbing. Error variants and the backend they name are kept.
- Redaction keywords: log details are held as stored, after redaction.
- Config.FromEntriesIsExact: states what is accepted, not which of several errors is reported first or the key it names.
- Scheduler.CleanupScheduler.RunOnce: usize counters are unbounded naturals, and the reclaimed-bytes counter wraps modulo 2^64 as in a release build; a debug build would panic there.
- Scheduler.CleanupScheduler.RunForTicks: `RunTick`, `RunRounds`, `RunRound` and the methods below them cut one loop of the source into pieces; a tick reports a value and has no error of its own.
- TomlRoundTrip.ValueRoundTrip: arrays inside arrays are not printed, because the parser cuts at the commas of an inner array; no configuration field takes one.
- BuildCache.PruneStaysWithinPlan: that a prune told to keep k bytes reclaims at most the rest is an assumption about the engine.
- ContainerRuntime.ProofOfSafetyIsTrue: a premise is that the engine does not change between guard and removal; what happens in that window is up to the engine.
- Coordinators.CoordinatorsNeverOverlap: is about the cycles of coordinators, not about workers given up on, which the code detaches (`Executor.AbandonedWorkerMayFinish`).
- Reliability.Coordinator.RunOnce: describes calls that return. A panic that unwinds through it is an act of `Coordinators` and a move of `InstanceLock`.
- EndToEnd.RoundTakesCap: assumes a clock that is not set back between discovery and prune.
- InstanceLock.LockIsExclusive: nobody but the daemons touches the lock file; an administrator who deletes it is not modelled.
- Discovery.RunningIsSparedExactly: the other half is stated for deletable containers of at most 2^64-1 bytes in all; beyond that an unfitting size can hide the repeated one from every configuration.
- SchedulerLaws.ReclaimIsBounded: the cap is per plan and starts afresh each round, so the bound is one cap per iteration.
- Jitter in the backoff and the consecutive-failure mode are in the documents but not in the code.
- Packaging scripts, installer and continuous integration.
