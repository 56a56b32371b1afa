/** The watermark loop of src/scheduler.rs: `RunOnce` against an adversarial backend, and
    the automaton that accepts the call sequences it produces. */
module Scheduler {
  import opened Wrappers
  import opened Domain
  import opened Backend
  import Planner
  import Executor

  datatype StopReason =
    | BackendUnhealthy
    | HealthCheckFailed
    | UsageCollectionFailed
    | UsagePercentUnknown
    | BelowHighWatermark
    | TargetWatermarkReached
    | CandidateDiscoveryFailed
    | ExecutionFailuresDetected
    | NoActionableCandidates
    | DeletionCapHit
    | IterationLimitReached

  datatype RunReport = RunReport(
    backend: BackendKind,
    dryRun: bool,
    cleanupStarted: bool,
    iterations: nat,
    actionsPlanned: nat,
    actionsCompleted: nat,
    reclaimedEstimatedBytes: u64,
    actionFailures: nat,
    skippedCandidates: nat,
    initialUsage: Option<UsageSnapshot>,
    finalUsage: Option<UsageSnapshot>,
    stopReason: StopReason,
    lastError: Option<CleanupError>)

  function NewReport(kind: BackendKind, dryRun: bool): RunReport {
    RunReport(kind, dryRun, false, 0, 0, 0, 0, 0, 0, None, None, BelowHighWatermark, None)
  }

  /** Sum of the sizes the backend claims to have deleted. */
  function ReclaimedBytes(completed: seq<ExecutionResponse>): nat {
    if completed == [] then 0
    else
      var last := completed[|completed| - 1];
      ReclaimedBytes(completed[..|completed| - 1])
      + (if last.executed && last.candidate.sizeBytes.Some? then last.candidate.sizeBytes.value else 0)
  }

  /** The u64 counter of a release build. */
  function Wrap(n: nat): u64 {
    n % (U64_MAX + 1)
  }

  function WrappingAdd(a: u64, b: nat): u64 {
    Wrap((a as int) + b)
  }

  predicate HasCapSkip(skipped: seq<SkippedCandidate>) {
    exists i | 0 <= i < |skipped| :: skipped[i].reason == DeletionCapReached
  }

  function NoActionStopReason(skipped: seq<SkippedCandidate>): StopReason {
    if HasCapSkip(skipped) then DeletionCapHit else NoActionableCandidates
  }

  // ---------- the automaton ----------

  datatype Phase =
    | AwaitFirstHealth
    | AwaitFirstUsage
    | AwaitHealth
    | AwaitDiscovery
    | Batch(plan: ActionPlan, outcomes: seq<WorkerOutcome>)
    | AwaitUsage
    | Stopped
    | Refused

  datatype Cycle = Cycle(phase: Phase, report: RunReport, usage: Option<UsageSnapshot>, percent: u8)

  datatype Settings = Settings(config: CleanupConfig, kind: BackendKind, limit: nat)

  function Start(g: Settings): Cycle {
    Cycle(AwaitFirstHealth, NewReport(g.kind, g.config.dryRun), None, 0)
  }

  function Stop(s: Cycle, reason: StopReason, error: Option<CleanupError>): Cycle {
    s.(phase := Stopped,
       report := s.report.(stopReason := reason, lastError := error, finalUsage := s.usage))
  }

  /** Begins a round unless the target is already met. */
  function BeginRound(g: Settings, s: Cycle): Cycle {
    if s.percent <= g.config.targetWatermarkPercent then Stop(s, TargetWatermarkReached, None)
    else s.(phase := AwaitDiscovery, report := s.report.(iterations := s.report.iterations + 1))
  }

  function OnHealth(g: Settings, s: Cycle, health: Result<bool, CleanupError>): Cycle {
    match health
    case Err(error) => Stop(s, HealthCheckFailed, Some(error))
    case Ok(healthy) =>
      if !healthy then Stop(s, BackendUnhealthy, None)
      else if s.phase.AwaitFirstHealth? then s.(phase := AwaitFirstUsage)
      else BeginRound(g, s)
  }

  function OnFirstUsage(g: Settings, s: Cycle, usage: Result<UsageSnapshot, CleanupError>): Cycle {
    match usage
    case Err(error) => Stop(s, UsageCollectionFailed, Some(error))
    case Ok(u) =>
      var s1 := s.(usage := Some(u), report := s.report.(initialUsage := Some(u)));
      match u.PercentUsed()
      case None => Stop(s1, UsagePercentUnknown, None)
      case Some(p) =>
        if p < g.config.highWatermarkPercent then Stop(s1, BelowHighWatermark, None)
        else BeginRound(g, s1.(percent := p, report := s1.report.(cleanupStarted := true)))
  }

  function OnUsage(g: Settings, s: Cycle, usage: Result<UsageSnapshot, CleanupError>): Cycle {
    match usage
    case Err(error) => Stop(s, UsageCollectionFailed, Some(error))
    case Ok(u) =>
      var s1 := s.(usage := Some(u));
      match u.PercentUsed()
      case None => Stop(s1, UsagePercentUnknown, None)
      case Some(p) =>
        AfterRound(g, s1.(percent := p))
  }

  function AfterRound(g: Settings, s: Cycle): Cycle {
    if s.report.iterations >= g.limit then Stop(s, IterationLimitReached, None)
    else s.(phase := AwaitHealth)
  }

  function CountPlan(s: Cycle, plan: ActionPlan): Cycle {
    s.(report := s.report.(
         actionsPlanned := s.report.actionsPlanned + |plan.actions|,
         skippedCandidates := s.report.skippedCandidates + |plan.skipped|))
  }

  function OnPlan(s: Cycle, plan: ActionPlan): Cycle {
    if plan.actions == [] then Stop(CountPlan(s, plan), NoActionStopReason(plan.skipped), None)
    else OnOutcome(CountPlan(s, plan), plan, [])
  }

  /** The batch so far; once every real action has its outcome the report is folded in. */
  function OnOutcome(s: Cycle, plan: ActionPlan, outcomes: seq<WorkerOutcome>): Cycle {
    if |outcomes| == |Executor.RealActions(plan.dryRun, plan.actions)| then
      OnBatch(s, Executor.BatchReport(plan.backend, plan.dryRun, plan.actions, outcomes))
    else
      s.(phase := Batch(plan, outcomes))
  }

  function CountBatch(s: Cycle, r: Executor.ExecutionReport): Cycle {
    s.(report := s.report.(
         reclaimedEstimatedBytes := WrappingAdd(s.report.reclaimedEstimatedBytes, ReclaimedBytes(r.completed)),
         actionsCompleted := s.report.actionsCompleted + |r.completed|,
         actionFailures := s.report.actionFailures + |r.failures|))
  }

  function OnBatch(s: Cycle, r: Executor.ExecutionReport): Cycle {
    if r.failures != [] then Stop(CountBatch(s, r), ExecutionFailuresDetected, Some(r.failures[0].error))
    else CountBatch(s, r).(phase := AwaitUsage)
  }

  function OnDiscovery(g: Settings, s: Cycle, found: Result<seq<CandidateArtifact>, CleanupError>): Cycle {
    match found
    case Err(error) => Stop(s, CandidateDiscoveryFailed, Some(error))
    case Ok(cs) => OnPlan(s, Planner.PlanOf(g.config, g.kind, cs))
  }

  /** The next action to be executed is fixed by the plan. */
  predicate IsNextAction(s: Cycle, action: PlannedAction) {
    && s.phase.Batch?
    && var started := Executor.RealActions(s.phase.plan.dryRun, s.phase.plan.actions);
       |s.phase.outcomes| < |started| && started[|s.phase.outcomes|] == action
  }

  function Step(g: Settings, s: Cycle, e: Event): Cycle {
    match e
    case HealthChecked(health) =>
      if s.phase.AwaitFirstHealth? || s.phase.AwaitHealth? then OnHealth(g, s, health)
      else s.(phase := Refused)
    case UsageCollected(usage) =>
      if s.phase.AwaitFirstUsage? then OnFirstUsage(g, s, usage)
      else if s.phase.AwaitUsage? then OnUsage(g, s, usage)
      else s.(phase := Refused)
    case Discovered(given, found) =>
      if s.phase.AwaitDiscovery? && s.usage == Some(given) then OnDiscovery(g, s, found)
      else s.(phase := Refused)
    case Executed(action, outcome) =>
      if IsNextAction(s, action) then OnOutcome(s, s.phase.plan, s.phase.outcomes + [outcome])
      else s.(phase := Refused)
    case Slept(_) => s.(phase := Refused)
  }

  function Run(g: Settings, t: seq<Event>): Cycle {
    if t == [] then Start(g) else Step(g, Run(g, t[..|t| - 1]), t[|t| - 1])
  }

  /** The whole call sequence `t` is one complete cycle that ends with `report`. */
  predicate IsCycle(g: Settings, t: seq<Event>, report: RunReport) {
    Run(g, t).phase.Stopped? && Run(g, t).report == report
  }

  lemma RunMore(g: Settings, t: seq<Event>, e: Event)
    ensures Run(g, t + [e]) == Step(g, Run(g, t), e)
  {
    assert (t + [e])[..|t|] == t;
  }

  lemma {:induction false} RunBatch(g: Settings, t: seq<Event>, s: Cycle, plan: ActionPlan, outcomes: seq<WorkerOutcome>)
    requires |outcomes| <= |Executor.RealActions(plan.dryRun, plan.actions)|
    requires Run(g, t) == OnOutcome(s, plan, [])
    ensures Run(g, t + Executor.ExecutionEvents(Executor.RealActions(plan.dryRun, plan.actions), outcomes))
            == OnOutcome(s, plan, outcomes)
  {
    var started := Executor.RealActions(plan.dryRun, plan.actions);
    if outcomes == [] {
      assert t + Executor.ExecutionEvents(started, outcomes) == t;
    } else {
      var n := |outcomes| - 1;
      var before, last := outcomes[..n], outcomes[n];
      RunBatch(g, t, s, plan, before);
      EventsMore(t, started, outcomes);
      assert before + [last] == outcomes;
      RunOutcome(g, t + Executor.ExecutionEvents(started, before), s, plan, before, last);
    }
  }

  lemma RunWholeBatch(g: Settings, t: seq<Event>, s: Cycle, plan: ActionPlan, outcomes: seq<WorkerOutcome>)
    requires |outcomes| == |Executor.RealActions(plan.dryRun, plan.actions)|
    requires Run(g, t) == OnOutcome(s, plan, [])
    ensures Run(g, t + Executor.ExecutionEvents(Executor.RealActions(plan.dryRun, plan.actions), outcomes))
            == OnBatch(s, Executor.BatchReport(plan.backend, plan.dryRun, plan.actions, outcomes))
  {
    hide Run;
    RunBatch(g, t, s, plan, outcomes);
  }

  lemma EventsMore(t: seq<Event>, actions: seq<PlannedAction>, outcomes: seq<WorkerOutcome>)
    requires 0 < |outcomes| <= |actions|
    ensures
      var n := |outcomes| - 1;
      t + Executor.ExecutionEvents(actions, outcomes)
      == (t + Executor.ExecutionEvents(actions, outcomes[..n])) + [Executed(actions[n], outcomes[n])]
  {
  }

  lemma RunOutcome(g: Settings, t: seq<Event>, s: Cycle, plan: ActionPlan, outcomes: seq<WorkerOutcome>, o: WorkerOutcome)
    requires |outcomes| < |Executor.RealActions(plan.dryRun, plan.actions)|
    requires Run(g, t) == OnOutcome(s, plan, outcomes)
    ensures Run(g, t + [Executed(Executor.RealActions(plan.dryRun, plan.actions)[|outcomes|], o)])
            == OnOutcome(s, plan, outcomes + [o])
  {
    var e := Executed(Executor.RealActions(plan.dryRun, plan.actions)[|outcomes|], o);
    RunMore(g, t, e);
    StepOutcome(g, s, plan, outcomes, e);
  }

  lemma StepOutcome(g: Settings, s: Cycle, plan: ActionPlan, outcomes: seq<WorkerOutcome>, e: Event)
    requires |outcomes| < |Executor.RealActions(plan.dryRun, plan.actions)|
    requires e.Executed? && e.action == Executor.RealActions(plan.dryRun, plan.actions)[|outcomes|]
    ensures Step(g, s.(phase := Batch(plan, outcomes)), e) == OnOutcome(s, plan, outcomes + [e.outcome])
  {
  }

  /** One interval of sleep between neighbouring cycles. */
  function TicksLog(intervalSecs: u64, cycles: seq<seq<Event>>): seq<Event> {
    if cycles == [] then []
    else
      var n := |cycles| - 1;
      TicksLog(intervalSecs, cycles[..n]) + (if n == 0 then [] else [Slept(intervalSecs)]) + cycles[n]
  }

  lemma TicksMore(intervalSecs: u64, cycles: seq<seq<Event>>, cycle: seq<Event>)
    ensures TicksLog(intervalSecs, cycles + [cycle])
            == TicksLog(intervalSecs, cycles) + (if cycles == [] then [] else [Slept(intervalSecs)]) + cycle
  {
    assert (cycles + [cycle])[..|cycles|] == cycles;
  }

  /** No stop path has written to the report yet. */
  predicate Unfinished(report: RunReport) {
    report.finalUsage.None? && report.lastError.None? && report.stopReason == BelowHighWatermark
  }

  class CleanupScheduler {
    const config: CleanupConfig
    const planner: Planner.CleanupPlanner
    const executor: Executor.CleanupExecutor
    const maxCycleIterations: nat

    ghost predicate Valid() {
      maxCycleIterations >= 1
    }

    constructor (config: CleanupConfig, maxCycleIterations: nat)
      ensures Valid() && this.config == config
      ensures this.maxCycleIterations == if maxCycleIterations < 1 then 1 else maxCycleIterations
    {
      this.config := config;
      this.planner := new Planner.CleanupPlanner(config);
      this.executor := new Executor.CleanupExecutor();
      this.maxCycleIterations := if maxCycleIterations < 1 then 1 else maxCycleIterations;
    }

    ghost function SettingsFor(kind: BackendKind): Settings {
      Settings(config, kind, maxCycleIterations)
    }

    /** One tick: whatever the backend answers, the calls made are one complete accepted
        cycle and the report is the one that cycle determines. */
    method RunOnce(backend: BackendAdapter) returns (report: RunReport)
      requires Valid()
      requires backend.Faithful()
      modifies backend
      ensures backend.Faithful()
      ensures old(backend.trace) <= backend.trace
      ensures IsCycle(SettingsFor(backend.kind), backend.trace[|old(backend.trace)|..], report)
    {
      ghost var t;
      report, t := RunTick(backend, backend.trace);
      assert backend.trace[|old(backend.trace)|..] == t;
    }

    /** Repeated ticks, as one log: cycle, sleep, cycle, and so on, ending with a cycle. */
    method RunForTicks(backend: BackendAdapter, ticks: nat)
      returns (reports: seq<RunReport>, ghost cycles: seq<seq<Event>>)
      requires Valid()
      requires backend.Faithful()
      modifies backend
      ensures backend.Faithful()
      ensures |reports| == |cycles| == ticks
      ensures backend.trace == old(backend.trace) + TicksLog(config.intervalSecs, cycles)
      ensures forall i :: 0 <= i < ticks ==> IsCycle(SettingsFor(backend.kind), cycles[i], reports[i])
    {
      hide Answered, IsCycle;
      reports, cycles := [], [];
      for tick := 0 to ticks
        invariant |reports| == |cycles| == tick
        invariant backend.Faithful()
        invariant backend.trace
                  == old(backend.trace) + TicksLog(config.intervalSecs, cycles)
                     + (if 0 < tick < ticks then [Slept(config.intervalSecs)] else [])
        invariant forall i :: 0 <= i < tick ==> IsCycle(SettingsFor(backend.kind), cycles[i], reports[i])
      {
        ghost var before := backend.trace;
        var report := RunOnce(backend);
        ghost var cycle := backend.trace[|before|..];
        assert backend.trace == before + cycle;
        TicksMore(config.intervalSecs, cycles, cycle);
        assert backend.trace == old(backend.trace) + TicksLog(config.intervalSecs, cycles + [cycle]);
        reports, cycles := reports + [report], cycles + [cycle];
        if tick + 1 < ticks {
          backend.Sleep(config.intervalSecs);
        }
      }
    }

    method RunTick(backend: BackendAdapter, ghost base: seq<Event>) returns (report: RunReport, ghost t: seq<Event>)
      requires Valid() && backend.trace == base
      requires backend.Faithful()
      modifies backend
      ensures backend.Faithful()
      ensures backend.trace == base + t
      ensures IsCycle(SettingsFor(backend.kind), t, report)
    {
      ghost var g := SettingsFor(backend.kind);
      report := NewReport(backend.kind, config.dryRun);

      var health := backend.HealthCheck();
      t := [HealthChecked(health)];
      RunMore(g, [], HealthChecked(health));
      match health {
        case Err(error) =>
          report := report.(stopReason := HealthCheckFailed, lastError := Some(error));
          return;
        case Ok(healthy) =>
          if !healthy {
            report := report.(stopReason := BackendUnhealthy);
            return;
          }
      }

      var collected := backend.CollectUsage();
      RunMore(g, t, UsageCollected(collected));
      t := t + [UsageCollected(collected)];
      if collected.Err? {
        report := report.(stopReason := UsageCollectionFailed, lastError := Some(collected.error));
        return;
      }
      var usage := collected.value;
      report := report.(initialUsage := Some(usage));
      if usage.PercentUsed().None? {
        report := report.(stopReason := UsagePercentUnknown, finalUsage := Some(usage));
        return;
      }
      var usedPercent := usage.PercentUsed().value;
      if usedPercent < config.highWatermarkPercent {
        report := report.(stopReason := BelowHighWatermark, finalUsage := Some(usage));
        return;
      }
      report := report.(cleanupStarted := true);
      report, t := RunRounds(backend, report, usage, usedPercent, base, t);
    }

    /** The cleanup loop, from the point where the first round may begin. */
    method RunRounds(backend: BackendAdapter, started: RunReport, initial: UsageSnapshot, percent: u8,
                     ghost base: seq<Event>, ghost t0: seq<Event>)
      returns (report: RunReport, ghost t: seq<Event>)
      requires Valid() && Unfinished(started) && started.iterations == 0
      requires backend.trace == base + t0
      requires Run(SettingsFor(backend.kind), t0)
               == BeginRound(SettingsFor(backend.kind), Cycle(AwaitFirstUsage, started, Some(initial), percent))
      requires backend.Faithful()
      modifies backend
      ensures backend.Faithful()
      ensures backend.trace == base + t
      ensures IsCycle(SettingsFor(backend.kind), t, report)
    {
      hide Answered, Run;
      ghost var g := SettingsFor(backend.kind);
      var usage := initial;
      var usedPercent: u8 := percent;
      report, t := started, t0;
      for iteration := 0 to maxCycleIterations
        invariant backend.Faithful()
        invariant backend.trace == base + t
        invariant report.iterations == iteration && Unfinished(report)
        invariant iteration == 0 ==>
          Run(g, t) == BeginRound(g, Cycle(AwaitFirstUsage, report, Some(usage), usedPercent))
        invariant iteration > 0 ==>
          Run(g, t) == AfterRound(g, Cycle(AwaitUsage, report, Some(usage), usedPercent))
      {
        if iteration > 0 {
          var unhealthy: bool;
          unhealthy, report, t := RecheckHealth(backend, report, usage, usedPercent, base, t);
          if unhealthy {
            return;
          }
        }
        if usedPercent <= config.targetWatermarkPercent {
          report := report.(stopReason := TargetWatermarkReached, finalUsage := Some(usage));
          return;
        }
        report := report.(iterations := report.iterations + 1);

        var stopped: bool;
        stopped, report, usage, usedPercent, t := RunRound(backend, report, usage, usedPercent, base, t);
        if stopped {
          return;
        }
      }
      report := report.(stopReason := IterationLimitReached, finalUsage := Some(usage));
    }

    /** Health is validated again before every later round. */
    method RecheckHealth(backend: BackendAdapter, after: RunReport, usage: UsageSnapshot, percent: u8,
                         ghost base: seq<Event>, ghost t0: seq<Event>)
      returns (stopped: bool, report: RunReport, ghost t: seq<Event>)
      requires Unfinished(after)
      requires backend.trace == base + t0
      requires Run(SettingsFor(backend.kind), t0) == Cycle(AwaitHealth, after, Some(usage), percent)
      requires backend.Faithful()
      modifies backend
      ensures backend.Faithful()
      ensures backend.trace == base + t
      ensures stopped ==> IsCycle(SettingsFor(backend.kind), t, report)
      ensures !stopped ==>
        && report == after
        && Run(SettingsFor(backend.kind), t)
           == BeginRound(SettingsFor(backend.kind), Cycle(AwaitHealth, report, Some(usage), percent))
    {
      hide Answered, Run;
      report := after;
      var health := backend.HealthCheck();
      RunMore(SettingsFor(backend.kind), t0, HealthChecked(health));
      t := t0 + [HealthChecked(health)];
      match health {
        case Err(error) =>
          report := report.(stopReason := HealthCheckFailed, lastError := Some(error), finalUsage := Some(usage));
          stopped := true;
        case Ok(healthy) =>
          stopped := !healthy;
          if !healthy {
            report := report.(stopReason := BackendUnhealthy, finalUsage := Some(usage));
          }
      }
    }

    /** What a round leaves behind: a finished cycle, or one that may go on. */
    ghost predicate RoundDone(kind: BackendKind, t: seq<Event>, stopped: bool, before: RunReport,
                              report: RunReport, usage: UsageSnapshot, percent: u8) {
      var g := SettingsFor(kind);
      if stopped then
        IsCycle(g, t, report)
      else
        && Unfinished(report) && report.iterations == before.iterations
        && Run(g, t) == AfterRound(g, Cycle(AwaitUsage, report, Some(usage), percent))
    }

    /** Discover, plan, execute, measure again. */
    method RunRound(backend: BackendAdapter, begun: RunReport, before: UsageSnapshot, percent: u8,
                    ghost base: seq<Event>, ghost t0: seq<Event>)
      returns (stopped: bool, report: RunReport, usage: UsageSnapshot, usedPercent: u8, ghost t: seq<Event>)
      requires Unfinished(begun)
      requires backend.trace == base + t0
      requires Run(SettingsFor(backend.kind), t0) == Cycle(AwaitDiscovery, begun, Some(before), percent)
      requires backend.Faithful()
      modifies backend
      ensures backend.Faithful()
      ensures backend.trace == base + t
      ensures RoundDone(backend.kind, t, stopped, begun, report, usage, usedPercent)
    {
      hide Answered, Run, Planner.PlanOf, OnOutcome;
      report, usage, usedPercent := begun, before, percent;
      var found := backend.DiscoverCandidates(usage);
      RunMore(SettingsFor(backend.kind), t0, Discovered(usage, found));
      t := t0 + [Discovered(usage, found)];
      if found.Err? {
        report := report.(stopReason := CandidateDiscoveryFailed, lastError := Some(found.error), finalUsage := Some(usage));
        return true, report, usage, usedPercent, t;
      }

      var plan := planner.Plan(backend.kind, config, found.value);
      report := report.(
        actionsPlanned := report.actionsPlanned + |plan.actions|,
        skippedCandidates := report.skippedCandidates + |plan.skipped|);
      if plan.actions == [] {
        report := report.(stopReason := NoActionStopReason(plan.skipped), finalUsage := Some(usage));
        return true, report, usage, usedPercent, t;
      }
      stopped, report, usage, usedPercent, t := ExecuteAndMeasure(backend, plan, report, usage, usedPercent, base, t);
    }

    method ExecuteAndMeasure(backend: BackendAdapter, plan: ActionPlan, planned: RunReport, before: UsageSnapshot,
                             percent: u8, ghost base: seq<Event>, ghost t0: seq<Event>)
      returns (stopped: bool, report: RunReport, usage: UsageSnapshot, usedPercent: u8, ghost t: seq<Event>)
      requires Unfinished(planned)
      requires backend.trace == base + t0
      requires Run(SettingsFor(backend.kind), t0)
               == OnOutcome(Cycle(AwaitDiscovery, planned, Some(before), percent), plan, [])
      requires backend.Faithful()
      modifies backend
      ensures backend.Faithful()
      ensures backend.trace == base + t
      ensures RoundDone(backend.kind, t, stopped, planned, report, usage, usedPercent)
    {
      usage, usedPercent := before, percent;
      stopped, report, t := ExecuteBatch(backend, plan, planned, usage, usedPercent, base, t0);
      if !stopped {
        stopped, report, usage, usedPercent, t := Measure(backend, report, usage, usedPercent, base, t);
      }
    }

    method ExecuteBatch(backend: BackendAdapter, plan: ActionPlan, planned: RunReport, usage: UsageSnapshot,
                        percent: u8, ghost base: seq<Event>, ghost t0: seq<Event>)
      returns (stopped: bool, report: RunReport, ghost t: seq<Event>)
      requires Unfinished(planned)
      requires backend.trace == base + t0
      requires Run(SettingsFor(backend.kind), t0)
               == OnOutcome(Cycle(AwaitDiscovery, planned, Some(usage), percent), plan, [])
      requires backend.Faithful()
      modifies backend
      ensures backend.Faithful()
      ensures backend.trace == base + t
      ensures stopped ==> IsCycle(SettingsFor(backend.kind), t, report)
      ensures !stopped ==>
        && Unfinished(report) && report.iterations == planned.iterations
        && Run(SettingsFor(backend.kind), t) == Cycle(AwaitUsage, report, Some(usage), percent)
    {
      hide Answered, Run, OnOutcome, ReclaimedBytes, WrappingAdd, Executor.RealActions, Executor.BatchReport, Executor.ExecutionEvents;
      ghost var waiting := Cycle(AwaitDiscovery, planned, Some(usage), percent);
      var batch, outcomes := executor.ExecutePlan(backend, plan);
      t := t0 + Executor.ExecutionEvents(Executor.RealActions(plan.dryRun, plan.actions), outcomes);
      RunWholeBatch(SettingsFor(backend.kind), t0, waiting, plan, outcomes);
      report := planned.(
        reclaimedEstimatedBytes := WrappingAdd(planned.reclaimedEstimatedBytes, ReclaimedBytes(batch.completed)),
        actionsCompleted := planned.actionsCompleted + |batch.completed|,
        actionFailures := planned.actionFailures + |batch.failures|);
      stopped := batch.failures != [];
      if stopped {
        report := report.(stopReason := ExecutionFailuresDetected,
                          lastError := Some(batch.failures[0].error), finalUsage := Some(usage));
      }
    }

    method Measure(backend: BackendAdapter, executed: RunReport, before: UsageSnapshot, percent: u8,
                   ghost base: seq<Event>, ghost t0: seq<Event>)
      returns (stopped: bool, report: RunReport, usage: UsageSnapshot, usedPercent: u8, ghost t: seq<Event>)
      requires Unfinished(executed)
      requires backend.trace == base + t0
      requires Run(SettingsFor(backend.kind), t0) == Cycle(AwaitUsage, executed, Some(before), percent)
      requires backend.Faithful()
      modifies backend
      ensures backend.Faithful()
      ensures backend.trace == base + t
      ensures RoundDone(backend.kind, t, stopped, executed, report, usage, usedPercent)
    {
      hide Answered, Run;
      report, usage, usedPercent := executed, before, percent;
      var collected := backend.CollectUsage();
      RunMore(SettingsFor(backend.kind), t0, UsageCollected(collected));
      t := t0 + [UsageCollected(collected)];
      if collected.Err? {
        report := report.(stopReason := UsageCollectionFailed, lastError := Some(collected.error), finalUsage := Some(usage));
        return true, report, usage, usedPercent, t;
      }
      usage := collected.value;
      if usage.PercentUsed().None? {
        report := report.(stopReason := UsagePercentUnknown, finalUsage := Some(usage));
        return true, report, usage, usedPercent, t;
      }
      usedPercent := usage.PercentUsed().value;
      stopped := false;
    }
  }
}
