/** The retry loop, the lock file and the coordinator of src/reliability.rs. Whatever one
    process does to its surroundings is logged in one journal, in order. */
module Reliability {
  import opened Wrappers
  import opened Domain
  import opened Scheduler
  import opened Backoff
  import InstanceLock

  type CycleResult = Result<RunReport, CleanupError>

  predicate ShouldRetry(report: RunReport) {
    || report.actionFailures > 0
    || report.stopReason in {ExecutionFailuresDetected, HealthCheckFailed, UsageCollectionFailed, CandidateDiscoveryFailed}
  }

  predicate Retryable(result: CycleResult) {
    result.Err? || ShouldRetry(result.value)
  }

  function ErrorOf(result: CycleResult): Option<CleanupError> {
    match result
    case Ok(report) => report.lastError
    case Err(error) => Some(error)
  }

  function ReportOf(result: CycleResult): Option<RunReport> {
    match result
    case Ok(report) => Some(report)
    case Err(_) => None
  }

  datatype BackendReport = BackendReport(
    backend: BackendKind, attempts: nat, success: bool,
    finalReport: Option<RunReport>, lastError: Option<CleanupError>)

  datatype RunSummary = RunSummary(
    lockAcquired: bool, backendReports: seq<BackendReport>, allBackendsFailed: bool, noOp: bool)

  // ---------- the surroundings of one process ----------

  datatype Entry =
    | AcquireFailed
    | AcquireRefused
    | Acquired
    | CycleBegan(runner: nat)
    | CycleEnded(runner: nat, result: CycleResult)
    | Slept(duration: Duration)
    | Released
    | ReleaseFailed

  class Journal {
    var log: seq<Entry>

    constructor ()
      ensures log == []
    {
      log := [];
    }
  }

  /** A backend with its scheduler, and a number to tell it by; its result may depend on
      anything done so far. */
  class CycleRunner {
    const id: nat
    const kind: BackendKind
    const behaviour: seq<Entry> -> CycleResult

    constructor (id: nat, kind: BackendKind, behaviour: seq<Entry> -> CycleResult)
      ensures this.id == id && this.kind == kind && this.behaviour == behaviour
    {
      this.id, this.kind, this.behaviour := id, kind, behaviour;
    }

    method RunCycle(journal: Journal) returns (r: CycleResult)
      modifies journal
      ensures journal.log == old(journal.log) + CycleLog(id, r)
    {
      journal.log := journal.log + [CycleBegan(id)];
      r := behaviour(journal.log);
      journal.log := journal.log + [CycleEnded(id, r)];
    }
  }

  class ThreadSleeper {
    constructor () {}

    method Sleep(journal: Journal, d: Duration)
      modifies journal
      ensures journal.log == old(journal.log) + [Slept(d)]
    {
      journal.log := journal.log + [Slept(d)];
    }
  }

  class FileInstanceLock {
    var disk: InstanceLock.Disk

    constructor (disk: InstanceLock.Disk)
      ensures this.disk == disk
    {
      this.disk := disk;
    }

    /** An existing file yields no guard; any other I/O failure is an error. */
    method TryAcquire(journal: Journal, ioFailure: bool) returns (r: Result<Option<nat>, CleanupError>)
      modifies this, journal
      ensures ioFailure ==>
        r.Err? && disk == old(disk) && journal.log == old(journal.log) + [AcquireFailed]
      ensures !ioFailure ==>
        && r == Ok(InstanceLock.Create(old(disk)).guard) && disk == InstanceLock.Create(old(disk)).disk
        && journal.log == old(journal.log) + [if r.value.Some? then Acquired else AcquireRefused]
    {
      if ioFailure {
        journal.log := journal.log + [AcquireFailed];
        return Err(ExecutionError(Custom("runtime"), "failed to acquire single-instance lock"));
      }
      if disk.file.Some? {
        journal.log := journal.log + [AcquireRefused];
        return Ok(None);
      }
      journal.log := journal.log + [Acquired];
      r := Ok(Some(disk.created));
      disk := InstanceLock.Disk(Some(disk.created), disk.created + 1);
    }

    /** The guard's drop. A failing removal goes unnoticed, and the file stays. */
    method Drop(journal: Journal, removeFails: bool)
      modifies this, journal
      ensures disk == if removeFails then old(disk) else InstanceLock.Remove(old(disk))
      ensures journal.log == old(journal.log) + [if removeFails then ReleaseFailed else Released]
    {
      if removeFails {
        journal.log := journal.log + [ReleaseFailed];
        return;
      }
      disk := disk.(file := None);
      journal.log := journal.log + [Released];
    }
  }

  // ---------- what the journal holds ----------

  function CycleLog(runner: nat, result: CycleResult): seq<Entry> {
    [CycleBegan(runner), CycleEnded(runner, result)]
  }

  /** Cycle, wait, cycle, and so on: one wait between neighbouring attempts, following the
      backoff sequence, and none behind the last. */
  function RetryLog(p: RetryPolicy, runner: nat, results: seq<CycleResult>): seq<Entry> {
    if results == [] then []
    else
      var n := |results| - 1;
      RetryLog(p, runner, results[..n])
      + (if n == 0 then [] else [Slept(BackoffForRetry(p, n - 1))])
      + CycleLog(runner, results[n])
  }

  /** The retry runs of all backends, in order. */
  function BackendsLog(p: RetryPolicy, backends: seq<nat>, runs: seq<seq<CycleResult>>): seq<Entry>
    requires |backends| == |runs|
  {
    if runs == [] then []
    else
      var n := |runs| - 1;
      BackendsLog(p, backends[..n], runs[..n]) + RetryLog(p, backends[n], runs[n])
  }

  function LockedLog(p: RetryPolicy, backends: seq<nat>, runs: seq<seq<CycleResult>>, removeFails: bool)
    : seq<Entry>
    requires |backends| == |runs|
  {
    [Acquired] + BackendsLog(p, backends, runs) + [if removeFails then ReleaseFailed else Released]
  }

  /** What one coordinator round may leave in the journal. */
  ghost predicate IsRound(t: seq<Entry>) {
    || t == [AcquireFailed]
    || t == [AcquireRefused]
    || exists p, backends: seq<nat>, runs: seq<seq<CycleResult>>, removeFails ::
         |backends| == |runs| && t == LockedLog(p, backends, runs, removeFails)
  }

  /** `results` are the cycles one backend was given: all but the last are retryable, and
      the last one is final or exhausts the attempts. */
  predicate IsRetryRun(p: RetryPolicy, kind: BackendKind, results: seq<CycleResult>, report: BackendReport) {
    && 1 <= |results| <= (if p.maxAttempts == 0 then 1 else p.maxAttempts)
    && (forall i :: 0 <= i < |results| - 1 ==> Retryable(results[i]))
    && (report.success <==> !Retryable(results[|results| - 1]))
    && (!report.success ==> |results| == if p.maxAttempts == 0 then 1 else p.maxAttempts)
    && report.backend == kind
    && report.attempts == |results|
    && report.finalReport == ReportOf(results[|results| - 1])
    && report.lastError == if report.success then None else ErrorOf(results[|results| - 1])
  }

  function Ids(backends: seq<CycleRunner>): seq<nat> {
    seq(|backends|, i requires 0 <= i < |backends| => backends[i].id)
  }

  predicate AreRetryRuns(p: RetryPolicy, backends: seq<CycleRunner>, runs: seq<seq<CycleResult>>, reports: seq<BackendReport>) {
    && |reports| == |runs| == |backends|
    && forall i :: 0 <= i < |backends| ==> IsRetryRun(p, backends[i].kind, runs[i], reports[i])
  }

  predicate NotStarted(report: BackendReport) {
    if report.finalReport.Some? then !report.finalReport.value.cleanupStarted else true
  }

  predicate NoOp(reports: seq<BackendReport>) {
    || (forall i :: 0 <= i < |reports| ==> !reports[i].success)
    || (forall i :: 0 <= i < |reports| ==> NotStarted(reports[i]))
  }

  lemma RetryMore(p: RetryPolicy, runner: nat, results: seq<CycleResult>, r: CycleResult)
    ensures RetryLog(p, runner, results + [r])
            == RetryLog(p, runner, results)
               + (if results == [] then [] else [Slept(BackoffForRetry(p, |results| - 1))])
               + CycleLog(runner, r)
  {
    assert (results + [r])[..|results|] == results;
  }

  lemma BackendsMore(p: RetryPolicy, backends: seq<nat>, runs: seq<seq<CycleResult>>, i: nat, run: seq<CycleResult>)
    requires i == |runs| < |backends|
    ensures BackendsLog(p, backends[..i + 1], runs + [run])
            == BackendsLog(p, backends[..i], runs) + RetryLog(p, backends[i], run)
  {
    assert (runs + [run])[..i] == runs && backends[..i + 1][..i] == backends[..i];
  }

  // ---------- the coordinator ----------

  class Coordinator {
    const retryPolicy: RetryPolicy
    const sleeper: ThreadSleeper
    const lock: FileInstanceLock

    constructor (retryPolicy: RetryPolicy, sleeper: ThreadSleeper, lock: FileInstanceLock)
      ensures this.retryPolicy == retryPolicy && this.sleeper == sleeper && this.lock == lock
    {
      this.retryPolicy, this.sleeper, this.lock := retryPolicy, sleeper, lock;
    }

    method RunBackendWithRetry(backend: CycleRunner, journal: Journal)
      returns (report: BackendReport, ghost results: seq<CycleResult>)
      modifies journal
      ensures IsRetryRun(retryPolicy, backend.kind, results, report)
      ensures journal.log == old(journal.log) + RetryLog(retryPolicy, backend.id, results)
    {
      hide BackoffForRetry, ShouldRetry, CycleLog;
      var maxAttempts := MaxAttempts(retryPolicy);
      var attempts: nat := 0;
      var lastError: Option<CleanupError> := None;
      var lastReport: Option<RunReport> := None;
      results := [];

      while attempts < maxAttempts
        invariant attempts == |results| <= maxAttempts
        invariant journal.log
                  == old(journal.log) + RetryLog(retryPolicy, backend.id, results)
                     + (if 0 < attempts < maxAttempts then [Slept(BackoffForRetry(retryPolicy, attempts - 1))] else [])
        invariant forall i :: 0 <= i < |results| ==> Retryable(results[i])
        invariant results != [] ==>
          lastReport == ReportOf(results[|results| - 1]) && lastError == ErrorOf(results[|results| - 1])
      {
        attempts := attempts + 1;
        var result := backend.RunCycle(journal);
        RetryMore(retryPolicy, backend.id, results, result);
        assert journal.log == old(journal.log) + RetryLog(retryPolicy, backend.id, results + [result]);
        results := results + [result];
        match result {
          case Ok(cycle) =>
            if !ShouldRetry(cycle) {
              return BackendReport(backend.kind, attempts, true, Some(cycle), None), results;
            }
            lastError, lastReport := cycle.lastError, Some(cycle);
          case Err(error) =>
            lastError, lastReport := Some(error), None;
        }
        if attempts < maxAttempts {
          sleeper.Sleep(journal, BackoffForRetry(retryPolicy, attempts - 1));
        }
      }
      report := BackendReport(backend.kind, attempts, false, lastReport, lastError);
    }

    /** The backends in order, whatever the earlier ones did. */
    method RunAll(backends: seq<CycleRunner>, journal: Journal)
      returns (reports: seq<BackendReport>, ghost runs: seq<seq<CycleResult>>)
      modifies journal
      ensures AreRetryRuns(retryPolicy, backends, runs, reports)
      ensures journal.log == old(journal.log) + BackendsLog(retryPolicy, Ids(backends), runs)
    {
      hide IsRetryRun, RetryLog;
      reports, runs := [], [];
      for i := 0 to |backends|
        invariant AreRetryRuns(retryPolicy, backends[..i], runs, reports)
        invariant journal.log == old(journal.log) + BackendsLog(retryPolicy, Ids(backends)[..i], runs)
      {
        var report;
        ghost var run;
        report, run := RunBackendWithRetry(backends[i], journal);
        BackendsMore(retryPolicy, Ids(backends), runs, i, run);
        reports, runs := reports + [report], runs + [run];
      }
      assert backends[..|backends|] == backends && Ids(backends)[..|backends|] == Ids(backends);
    }

    method Summarize(reports: seq<BackendReport>) returns (summary: RunSummary)
      ensures summary.lockAcquired && summary.backendReports == reports
      ensures summary.allBackendsFailed == forall i :: 0 <= i < |reports| ==> !reports[i].success
      ensures summary.noOp == NoOp(reports)
    {
      var allFailed := forall i :: 0 <= i < |reports| ==> !reports[i].success;
      var noOp := |reports| == 0 || allFailed
        || forall i :: 0 <= i < |reports| ==> NotStarted(reports[i]);
      summary := RunSummary(true, reports, allFailed, noOp);
    }

    /** The journal in full. A failed or refused acquisition is all that happens; otherwise
        the lock is taken, every backend gets its retry run in order and whatever the others
        did, and only then the lock is given back, which may fail. */
    method RunOnce(backends: seq<CycleRunner>, journal: Journal, ioFailure: bool, removeFails: bool)
      returns (r: Result<RunSummary, CleanupError>, ghost runs: seq<seq<CycleResult>>)
      modifies lock, journal
      ensures old(journal.log) <= journal.log && IsRound(journal.log[|old(journal.log)|..])
      ensures ioFailure ==>
        r.Err? && lock.disk == old(lock.disk) && journal.log == old(journal.log) + [AcquireFailed]
      ensures !ioFailure && old(lock.disk).file.Some? ==>
        && r == Ok(RunSummary(false, [], true, true)) && lock.disk == old(lock.disk)
        && journal.log == old(journal.log) + [AcquireRefused]
      ensures !ioFailure && old(lock.disk).file.None? ==>
        && r.Ok? && r.value.lockAcquired
        && AreRetryRuns(retryPolicy, backends, runs, r.value.backendReports)
        && journal.log == old(journal.log) + LockedLog(retryPolicy, Ids(backends), runs, removeFails)
        && lock.disk == (var held := InstanceLock.Create(old(lock.disk)).disk;
                         if removeFails then held else InstanceLock.Remove(held))
        && r.value.allBackendsFailed
           == (forall i :: 0 <= i < |backends| ==> !r.value.backendReports[i].success)
        && r.value.noOp == NoOp(r.value.backendReports)
    {
      hide IsRetryRun, BackendsLog, NoOp;
      runs := [];
      var acquired := lock.TryAcquire(journal, ioFailure);
      if acquired.Err? {
        assert journal.log[|old(journal.log)|..] == [AcquireFailed];
        return Err(acquired.error), runs;
      }
      if acquired.value.None? {
        assert journal.log[|old(journal.log)|..] == [AcquireRefused];
        return Ok(RunSummary(false, [], true, true)), runs;
      }
      var reports;
      reports, runs := RunAll(backends, journal);
      var summary := Summarize(reports);
      lock.Drop(journal, removeFails);
      assert journal.log[|old(journal.log)|..] == LockedLog(retryPolicy, Ids(backends), runs, removeFails);
      r := Ok(summary);
    }
  }
}
