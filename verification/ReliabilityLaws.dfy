/** What a retry run says about the real scheduler cycles it is made of. */
module ReliabilityLaws {
  import opened Wrappers
  import opened Domain
  import opened Scheduler
  import opened Backoff
  import opened Reliability
  import Backend
  import Executor
  import Planner
  import SchedulerLaws

  predicate IsSchedulerResult(g: Settings, t: seq<Backend.Event>, result: CycleResult) {
    result.Ok? && IsCycle(g, t, result.value)
  }

  /** A scheduler cycle that calls for a retry always says why. */
  lemma RetryableCycleHasError(g: Settings, t: seq<Backend.Event>, report: RunReport)
    requires g.limit >= 1 && IsCycle(g, t, report)
    ensures ShouldRetry(report) <==> report.lastError.Some?
  {
    SchedulerLaws.RunIsAccounted(g, t, report);
    SchedulerLaws.StopReasonIsJustified(g, t, report);
  }

  /** So a backend given up on keeps its last report and the error that report carries. */
  lemma FailedBackendKeepsEvidence(
      p: RetryPolicy, g: Settings, results: seq<CycleResult>, traces: seq<seq<Backend.Event>>, report: BackendReport)
    requires g.limit >= 1 && IsRetryRun(p, g.kind, results, report)
    requires |traces| == |results|
    requires forall i :: 0 <= i < |results| ==> IsSchedulerResult(g, traces[i], results[i])
    ensures report.finalReport.Some?
    ensures report.success <==> report.finalReport.value.lastError.None?
    ensures report.lastError == report.finalReport.value.lastError
  {
    var last := |results| - 1;
    RetryableCycleHasError(g, traces[last], results[last].value);
  }

  /** The attempts of one backend, each a complete cycle of its scheduler. */
  predicate IsRealRetryRun(
      p: RetryPolicy, g: Settings, results: seq<CycleResult>, traces: seq<seq<Backend.Event>>, report: BackendReport)
  {
    && |traces| == |results| && IsRetryRun(p, g.kind, results, report)
    && forall i :: 0 <= i < |results| ==> IsSchedulerResult(g, traces[i], results[i])
  }

  /** No attempt asked the backend to delete anything. */
  predicate Untouched(traces: seq<seq<Backend.Event>>) {
    forall i :: 0 <= i < |traces| ==> SchedulerLaws.ExecuteCalls(traces[i]) == 0
  }

  /** The guardrails of a loaded configuration. */
  predicate HasValidWatermarks(config: CleanupConfig) {
    config.targetWatermarkPercent < config.highWatermarkPercent <= 100
  }

  /** What one backend got in a round of the coordinator. */
  datatype RetryRun = RetryRun(results: seq<CycleResult>, traces: seq<seq<Backend.Event>>, report: BackendReport)

  predicate IsReal(p: RetryPolicy, g: Settings, r: RetryRun) {
    IsRealRetryRun(p, g, r.results, r.traces, r.report)
  }

  /** A round over real schedulers, one for each backend. */
  predicate IsRealRound(p: RetryPolicy, gs: seq<Settings>, round: seq<RetryRun>) {
    |round| == |gs| && forall i :: 0 <= i < |gs| ==> IsReal(p, gs[i], round[i])
  }

  function Reports(round: seq<RetryRun>): seq<BackendReport> {
    seq(|round|, i requires 0 <= i < |round| => round[i].report)
  }

  predicate AllUntouched(round: seq<RetryRun>) {
    forall i :: 0 <= i < |round| ==> Untouched(round[i].traces)
  }

  predicate AnySuccess(round: seq<RetryRun>) {
    exists i | 0 <= i < |round| :: round[i].report.success
  }

  predicate AreValid(gs: seq<Settings>) {
    forall i :: 0 <= i < |gs| ==> gs[i].limit >= 1 && HasValidWatermarks(gs[i].config)
  }

  predicate AllDry(gs: seq<Settings>) {
    forall i :: 0 <= i < |gs| ==> gs[i].config.dryRun
  }

  /** A summary over any backends that reads "no-op" can be trusted to mean that nothing was
      deleted exactly when all of them are in dry mode; otherwise some round contradicts it,
      whatever the policy. */
  lemma NoOpIsTrueExactly(p: RetryPolicy, gs: seq<Settings>)
    requires AreValid(gs)
    ensures (forall round :: IsRealRound(p, gs, round) && NoOp(Reports(round)) ==> AllUntouched(round)) <==> AllDry(gs)
  {
    hide IsReal, Untouched;
    if AllDry(gs) {
      forall round | IsRealRound(p, gs, round) ensures AllUntouched(round) {
        DryRoundIsUntouched(p, gs, round);
      }
    } else {
      var round := FailedRound(p, gs);
      assert IsRealRound(p, gs, round) && NoOp(Reports(round)) && !AllUntouched(round);
    }
  }

  /** The same as long as some backend succeeded in the end: exactly in dry mode or when there
      are no retries, because only last attempts are looked at. */
  lemma SuccessfulNoOpIsTrueExactly(p: RetryPolicy, gs: seq<Settings>)
    requires AreValid(gs)
    ensures (forall round :: IsRealRound(p, gs, round) && AnySuccess(round) && NoOp(Reports(round)) ==> AllUntouched(round))
            <==> AllDry(gs) || MaxAttempts(p) == 1
  {
    hide IsReal, Untouched;
    if AllDry(gs) {
      forall round | IsRealRound(p, gs, round) ensures AllUntouched(round) {
        DryRoundIsUntouched(p, gs, round);
      }
    } else if MaxAttempts(p) == 1 {
      forall round | IsRealRound(p, gs, round) && AnySuccess(round) && NoOp(Reports(round)) ensures AllUntouched(round) {
        SingleAttemptsAreUntouched(p, gs, round);
      }
    } else {
      var round := SuccessfulRound(p, gs);
      assert IsRealRound(p, gs, round) && AnySuccess(round) && NoOp(Reports(round)) && !AllUntouched(round);
    }
  }

  lemma DryRoundIsUntouched(p: RetryPolicy, gs: seq<Settings>, round: seq<RetryRun>)
    requires AllDry(gs) && IsRealRound(p, gs, round)
    ensures AllUntouched(round)
  {
    forall i | 0 <= i < |round| ensures Untouched(round[i].traces) {
      assert IsReal(p, gs[i], round[i]);
      DryRunsAreUntouched(p, gs[i], round[i].results, round[i].traces, round[i].report);
    }
  }

  lemma SingleAttemptsAreUntouched(p: RetryPolicy, gs: seq<Settings>, round: seq<RetryRun>)
    requires AreValid(gs) && MaxAttempts(p) == 1
    requires IsRealRound(p, gs, round) && AnySuccess(round) && NoOp(Reports(round))
    ensures AllUntouched(round)
  {
    var k :| 0 <= k < |round| && round[k].report.success;
    assert Reports(round)[k].success;
    forall i | 0 <= i < |round| ensures Untouched(round[i].traces) {
      var r := round[i];
      assert NotStarted(Reports(round)[i]);
      assert IsReal(p, gs[i], r);
      UnstartedCycleIsUntouched(gs[i], r.traces[0], r.results[0].value);
    }
  }

  lemma DryRunsAreUntouched(
      p: RetryPolicy, g: Settings, results: seq<CycleResult>, traces: seq<seq<Backend.Event>>, report: BackendReport)
    requires g.config.dryRun && IsRealRetryRun(p, g, results, traces, report)
    ensures Untouched(traces)
  {
    forall i | 0 <= i < |traces| ensures SchedulerLaws.ExecuteCalls(traces[i]) == 0 {
      SchedulerLaws.ExecuteCallsAreCounted(g, traces[i], results[i].value);
    }
  }

  lemma UnstartedCycleIsUntouched(g: Settings, t: seq<Backend.Event>, report: RunReport)
    requires g.limit >= 1 && IsCycle(g, t, report) && !report.cleanupStarted
    ensures SchedulerLaws.ExecuteCalls(t) == 0
  {
    SchedulerLaws.StopReasonIsJustified(g, t, report);
    SchedulerLaws.RunIsAccounted(g, t, report);
    SchedulerLaws.NothingFoundWithoutRounds(t);
    SchedulerLaws.ExecuteCallsAreCounted(g, t, report);
  }

  // ---------- the contradicting runs ----------

  predicate Contradicts(g: Settings, r: RetryRun) {
    !g.config.dryRun ==> !Untouched(r.traces)
  }

  /** Every backend fails, and every one in real mode has deleted something. */
  lemma {:induction false} FailedRound(p: RetryPolicy, gs: seq<Settings>) returns (round: seq<RetryRun>)
    requires AreValid(gs)
    ensures IsRealRound(p, gs, round)
    ensures forall i :: 0 <= i < |round| ==> !round[i].report.success && Contradicts(gs[i], round[i])
  {
    hide IsReal, Contradicts;
    if gs == [] {
      round := [];
    } else {
      var n := |gs| - 1;
      var front := FailedRound(p, gs[..n]);
      var last := FailedRun(p, gs[n]);
      round := front + [last];
      assert forall i :: 0 <= i < n ==> round[i] == front[i] && gs[..n][i] == gs[i];
    }
  }

  /** Every backend succeeds without work in its last attempt, and every one in real mode has
      deleted something before. */
  lemma {:induction false} SuccessfulRound(p: RetryPolicy, gs: seq<Settings>) returns (round: seq<RetryRun>)
    requires AreValid(gs) && MaxAttempts(p) >= 2
    ensures IsRealRound(p, gs, round)
    ensures forall i :: 0 <= i < |round| ==>
              round[i].report.success && NotStarted(round[i].report) && Contradicts(gs[i], round[i])
  {
    hide IsReal, Contradicts, NotStarted;
    if gs == [] {
      round := [];
    } else {
      var n := |gs| - 1;
      var front := SuccessfulRound(p, gs[..n]);
      var last := SuccessfulRun(p, gs[n]);
      round := front + [last];
      assert forall i :: 0 <= i < n ==> round[i] == front[i] && gs[..n][i] == gs[i];
    }
  }

  lemma FailedRun(p: RetryPolicy, g: Settings) returns (r: RetryRun)
    requires g.limit >= 1 && HasValidWatermarks(g.config)
    ensures IsReal(p, g, r) && !r.report.success && Contradicts(g, r)
  {
    if g.config.dryRun {
      var t, cycle := UnhealthyCycle(g);
      var attempts := MaxAttempts(p);
      r := RetryRun(seq(attempts, _ => Ok(cycle)), seq(attempts, _ => t),
                    BackendReport(g.kind, attempts, false, Some(cycle), cycle.lastError));
    } else {
      var c, u := Planner.Specimen(g.kind, Some(0)), UsageSnapshot(1, Some(1), Some(100));
      Planner.SpecimenIsEligible(g.config, g.kind, Some(0));
      var results, traces, report := FailedRunMayHaveDeleted(p, g, c, u, UsageError(g.kind, ""));
      r := RetryRun(results, traces, report);
    }
  }

  lemma SuccessfulRun(p: RetryPolicy, g: Settings) returns (r: RetryRun)
    requires g.limit >= 1 && HasValidWatermarks(g.config) && MaxAttempts(p) >= 2
    ensures IsReal(p, g, r) && r.report.success && NotStarted(r.report) && Contradicts(g, r)
  {
    if g.config.dryRun {
      var t, cycle := IdleCycle(g);
      r := RetryRun([Ok(cycle)], [t], BackendReport(g.kind, 1, true, Some(cycle), None));
    } else {
      var results, traces, report := SuccessfulRunMayHaveDeleted(p, g);
      r := RetryRun(results, traces, report);
      assert [report][0] == report;
    }
  }

  lemma UnhealthyCycle(g: Settings) returns (t: seq<Backend.Event>, report: RunReport)
    ensures IsCycle(g, t, report) && ShouldRetry(report)
  {
    var health := Backend.HealthChecked(Err(HealthCheckError(g.kind, "")));
    t := [health];
    RunNothing(g);
    RunMore(g, [], health);
    assert [] + [health] == t;
    report := Run(g, t).report;
  }

  predicate HasDeleted(kind: BackendKind, c: CandidateArtifact, t: seq<Backend.Event>) {
    exists i | 0 <= i < |t| ::
      t[i].Executed? && t[i].outcome == Backend.Returned(Ok(ExecutionResponse(kind, c, true, false)))
  }

  /** Every attempt deletes the one candidate, and then its second measurement fails. */
  lemma FailedRunMayHaveDeleted(
      p: RetryPolicy, g: Settings, c: CandidateArtifact, u: UsageSnapshot, error: CleanupError)
      returns (results: seq<CycleResult>, traces: seq<seq<Backend.Event>>, report: BackendReport)
    requires g.limit >= 1 && !g.config.dryRun
    requires u.PercentUsed().Some? && u.PercentUsed().value >= g.config.highWatermarkPercent
    requires u.PercentUsed().value > g.config.targetWatermarkPercent
    requires Planner.Eligible(g.config, g.kind, c)
    requires c.sizeBytes.Some? && c.sizeBytes.value <= Planner.DeleteCap(g.config)
    ensures IsRealRetryRun(p, g, results, traces, report)
    ensures !report.success && NoOp([report])
    ensures !Untouched(traces)
    ensures forall k :: 0 <= k < |traces| ==> HasDeleted(g.kind, c, traces[k])
  {
    hide Run, ShouldRetry, HasDeleted;
    var t, cycle := DeletingCycle(g, c, u, error);
    var attempts := MaxAttempts(p);
    results := seq(attempts, _ => Ok(cycle));
    traces := seq(attempts, _ => t);
    report := BackendReport(g.kind, attempts, false, Some(cycle), cycle.lastError);
    assert SchedulerLaws.ExecuteCalls(traces[0]) > 0;
    assert forall k :: 0 <= k < |traces| ==> traces[k] == t;
  }

  /** The first attempt deletes and fails; the second finds nothing left to do. */
  lemma SuccessfulRunMayHaveDeleted(p: RetryPolicy, g: Settings)
      returns (results: seq<CycleResult>, traces: seq<seq<Backend.Event>>, report: BackendReport)
    requires g.limit >= 1 && HasValidWatermarks(g.config) && !g.config.dryRun && MaxAttempts(p) >= 2
    ensures IsRealRetryRun(p, g, results, traces, report)
    ensures report.success && NoOp([report]) && report.finalReport.value.actionsPlanned == 0
    ensures !Untouched(traces)
  {
    hide Run, ShouldRetry;
    var c, u := Planner.Specimen(g.kind, Some(0)), UsageSnapshot(1, Some(1), Some(100));
    Planner.SpecimenIsEligible(g.config, g.kind, Some(0));
    var t, failed := DeletingCycle(g, c, u, UsageError(g.kind, ""));
    var quiet, done := IdleCycle(g);
    results, traces := [Ok(failed), Ok(done)], [t, quiet];
    report := BackendReport(g.kind, 2, true, Some(done), None);
    assert SchedulerLaws.ExecuteCalls(traces[0]) > 0;
  }

  lemma IdleCycle(g: Settings) returns (t: seq<Backend.Event>, report: RunReport)
    requires HasValidWatermarks(g.config)
    ensures IsCycle(g, t, report) && !ShouldRetry(report) && !report.cleanupStarted && report.actionsPlanned == 0
  {
    var health, usage := Backend.HealthChecked(Ok(true)), Backend.UsageCollected(Ok(UsageSnapshot(0, Some(1), Some(0))));
    t := [health] + [usage];
    RunNothing(g);
    RunMore(g, [], health);
    RunMore(g, [health], usage);
    assert [] + [health] == [health];
    report := Run(g, t).report;
  }

  lemma DeletingCycle(g: Settings, c: CandidateArtifact, u: UsageSnapshot, error: CleanupError)
      returns (t: seq<Backend.Event>, report: RunReport)
    requires g.limit >= 1 && !g.config.dryRun
    requires u.PercentUsed().Some? && u.PercentUsed().value >= g.config.highWatermarkPercent
    requires u.PercentUsed().value > g.config.targetWatermarkPercent
    requires Planner.Eligible(g.config, g.kind, c)
    requires c.sizeBytes.Some? && c.sizeBytes.value <= Planner.DeleteCap(g.config)
    ensures IsCycle(g, t, report) && ShouldRetry(report)
    ensures SchedulerLaws.ExecuteCalls(t) > 0
    ensures HasDeleted(g.kind, c, t)
  {
    hide Run, Step, Planner.PlanOf, Planner.Eligible, OnPlan;
    var action := PlannedAction(c, false);
    var outcome := Backend.Returned(Ok(ExecutionResponse(g.kind, c, true, false)));
    var before := OpenedTrace(u, c);
    var executed, failed := Backend.Executed(action, outcome), Backend.UsageCollected(Err(error));
    t := before + [executed] + [failed];
    Planner.LoneCandidateIsPlanned(g.config, g.kind, c);
    var s := RoundIsOpen(g, u, c);
    LoneBatchRuns(g, s, action, outcome);
    RunMore(g, before, executed);
    RunMore(g, before + [executed], failed);
    MeasurementFails(g, Run(g, before + [executed]), error);
    report := Run(g, t).report;
    assert t[3] == executed;
    SchedulerLaws.NoCallsCounted(t);
  }

  function OpenedTrace(u: UsageSnapshot, c: CandidateArtifact): (t: seq<Backend.Event>)
    ensures |t| == 3
  {
    [Backend.HealthChecked(Ok(true)), Backend.UsageCollected(Ok(u)), Backend.Discovered(u, Ok([c]))]
  }

  lemma RoundIsOpen(g: Settings, u: UsageSnapshot, c: CandidateArtifact) returns (s: Cycle)
    requires u.PercentUsed().Some? && u.PercentUsed().value >= g.config.highWatermarkPercent
    requires u.PercentUsed().value > g.config.targetWatermarkPercent
    ensures Run(g, OpenedTrace(u, c)) == OnPlan(s, Planner.PlanOf(g.config, g.kind, [c]))
  {
    hide Run, Planner.PlanOf, OnPlan;
    var t := OpenedTrace(u, c);
    RunNothing(g);
    RunMore(g, [], t[0]);
    RunMore(g, [t[0]], t[1]);
    RunMore(g, [t[0], t[1]], t[2]);
    assert t[..0] + [t[0]] == [t[0]] && [t[0]] + [t[1]] == [t[0], t[1]] && [t[0], t[1]] + [t[2]] == t;
    s := Run(g, [t[0], t[1]]);
  }

  lemma LoneBatchRuns(g: Settings, s: Cycle, action: PlannedAction, outcome: Backend.WorkerOutcome)
    requires !action.dryRun && !Executor.Fails(outcome)
    requires Planner.PlanOf(g.config, g.kind, [action.candidate]).actions == [action] && !g.config.dryRun
    ensures Step(g, OnPlan(s, Planner.PlanOf(g.config, g.kind, [action.candidate])), Backend.Executed(action, outcome))
            .phase.AwaitUsage?
  {
    hide Executor.RealActions, Executor.BatchReport;
    LoneActionSettles(g, action, outcome);
    assert [] + [outcome] == [outcome];
  }

  lemma MeasurementFails(g: Settings, s: Cycle, error: CleanupError)
    requires s.phase.AwaitUsage?
    ensures
      var after := Step(g, s, Backend.UsageCollected(Err(error)));
      after.phase.Stopped? && ShouldRetry(after.report)
  {
  }

  lemma RunNothing(g: Settings)
    ensures Run(g, []) == Start(g)
  {
  }

  lemma LoneActionSettles(g: Settings, action: PlannedAction, outcome: Backend.WorkerOutcome)
    requires !action.dryRun && !Executor.Fails(outcome)
    ensures Executor.RealActions(false, [action]) == [action]
    ensures Executor.BatchReport(g.kind, false, [action], [outcome]).failures == []
  {
    Executor.AllReal([action]);
    Executor.BatchIsComplete(g.kind, false, [action], [outcome]);
  }
}
