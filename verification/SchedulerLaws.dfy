/** What every accepted cycle guarantees, for every behaviour of the backend. */
module SchedulerLaws {
  import opened Wrappers
  import opened Domain
  import opened Backend
  import opened Scheduler
  import Planner
  import Executor

  predicate Alive(s: Cycle) {
    !s.phase.Stopped? && !s.phase.Refused?
  }

  function Last(t: seq<Event>): Event
    requires t != []
  {
    t[|t| - 1]
  }

  // ---------- observations on a call sequence ----------

  /** Candidates of the latest successful discovery. */
  function LastFound(t: seq<Event>): seq<CandidateArtifact> {
    if t == [] then []
    else
      match Last(t)
      case Discovered(_, Ok(cs)) => cs
      case _ => LastFound(t[..|t| - 1])
  }

  /** The latest snapshot successfully collected. */
  function LastUsage(t: seq<Event>): Option<UsageSnapshot> {
    if t == [] then None
    else
      match Last(t)
      case UsageCollected(Ok(u)) => Some(u)
      case _ => LastUsage(t[..|t| - 1])
  }

  function Rounds(t: seq<Event>): nat {
    if t == [] then 0 else Rounds(t[..|t| - 1]) + (if Last(t).Discovered? then 1 else 0)
  }

  function FoundCount(t: seq<Event>): nat {
    if t == [] then 0
    else
      FoundCount(t[..|t| - 1])
      + (match Last(t)
         case Discovered(_, Ok(cs)) => |cs|
         case _ => 0)
  }

  /** Bytes the backend claimed in its answer to one execute call. */
  function ClaimedBytes(o: WorkerOutcome): nat {
    if o.Returned? && o.result.Ok? && o.result.value.executed && o.result.value.candidate.sizeBytes.Some? then
      o.result.value.candidate.sizeBytes.value
    else 0
  }

  function TotalClaimed(t: seq<Event>): nat {
    if t == [] then 0
    else TotalClaimed(t[..|t| - 1]) + (if Last(t).Executed? then ClaimedBytes(Last(t).outcome) else 0)
  }

  function BatchClaimed(outcomes: seq<WorkerOutcome>): nat {
    if outcomes == [] then 0
    else BatchClaimed(outcomes[..|outcomes| - 1]) + ClaimedBytes(outcomes[|outcomes| - 1])
  }

  lemma Append(t: seq<Event>, e: Event)
    ensures (t + [e])[..|t|] == t && Last(t + [e]) == e
  {
  }

  // ---------- the batch in progress is the plan for the latest discovery ----------

  predicate BatchIsPlanned(g: Settings, t: seq<Event>, s: Cycle) {
    s.phase.Batch? ==>
      && s.phase.plan == Planner.PlanOf(g.config, g.kind, LastFound(t))
      && |s.phase.outcomes| < |Executor.RealActions(s.phase.plan.dryRun, s.phase.plan.actions)|
  }

  lemma {:induction false} RunningBatchIsPlanned(g: Settings, t: seq<Event>)
    ensures BatchIsPlanned(g, t, Run(g, t))
  {
    hide Step;
    if t != [] {
      RunningBatchIsPlanned(g, t[..|t| - 1]);
      StepPlansBatch(g, t[..|t| - 1], Run(g, t[..|t| - 1]), Last(t));
      assert t == t[..|t| - 1] + [Last(t)];
    }
  }

  lemma StepPlansBatch(g: Settings, t: seq<Event>, s: Cycle, e: Event)
    requires BatchIsPlanned(g, t, s)
    ensures BatchIsPlanned(g, t + [e], Step(g, s, e))
  {
    Append(t, e);
  }

  lemma {:induction false} RealActionsAreActions(dry: bool, actions: seq<PlannedAction>, k: nat)
    requires k < |Executor.RealActions(dry, actions)|
    ensures Executor.RealActions(dry, actions)[k] in actions
    ensures !dry && !Executor.RealActions(dry, actions)[k].dryRun
  {
    var front := actions[..|actions| - 1];
    if k < |Executor.RealActions(dry, front)| {
      RealActionsAreActions(dry, front, k);
    }
  }

  lemma {:induction false} NotRefusedBefore(g: Settings, t: seq<Event>, k: nat)
    requires k <= |t| && !Run(g, t).phase.Refused?
    ensures !Run(g, t[..k]).phase.Refused?
    ensures k < |t| ==> Alive(Run(g, t[..k]))
    decreases |t|
  {
    hide Step;
    if k == |t| {
      assert t[..k] == t;
    } else {
      var front := t[..|t| - 1];
      StepFromDead(g, Run(g, front), Last(t));
      NotRefusedBefore(g, front, k);
      assert front[..k] == t[..k];
    }
  }

  lemma StepFromDead(g: Settings, s: Cycle, e: Event)
    requires !Step(g, s, e).phase.Refused?
    ensures Alive(s)
  {
  }

  lemma PrefixStep(g: Settings, t: seq<Event>, i: nat)
    requires i < |t|
    ensures Run(g, t[..i + 1]) == Step(g, Run(g, t[..i]), t[i])
  {
    assert t[..i + 1] == t[..i] + [t[i]];
    RunMore(g, t[..i], t[i]);
  }

  /** Safety of a whole run: whatever the backend says, it is asked to delete nothing but
      actions of the plan for the latest discovery: eligible candidates, real mode only. */
  lemma OnlyPlannedActionsExecute(g: Settings, t: seq<Event>, report: RunReport, i: nat)
    requires IsCycle(g, t, report)
    requires i < |t| && t[i].Executed?
    ensures t[i].action in Planner.PlanOf(g.config, g.kind, LastFound(t[..i])).actions
    ensures Planner.Eligible(g.config, g.kind, t[i].action.candidate)
    ensures !g.config.dryRun && !t[i].action.dryRun
  {
    NotRefusedBefore(g, t, i + 1);
    PrefixStep(g, t, i);
    RunningBatchIsPlanned(g, t[..i]);
    var plan := Planner.PlanOf(g.config, g.kind, LastFound(t[..i]));
    var s := Run(g, t[..i]);
    ExecutedIsNext(g, s, t[i]);
    RealActionsAreActions(plan.dryRun, plan.actions, |s.phase.outcomes|);
    var k :| 0 <= k < |plan.actions| && plan.actions[k] == t[i].action;
    Planner.PlannedActionsAreEligible(g.config, g.kind, LastFound(t[..i]), k);
  }

  lemma ExecutedIsNext(g: Settings, s: Cycle, e: Event)
    requires e.Executed? && !Step(g, s, e).phase.Refused?
    ensures s.phase.Batch?
    ensures
      var started := Executor.RealActions(s.phase.plan.dryRun, s.phase.plan.actions);
      |s.phase.outcomes| < |started| && e.action == started[|s.phase.outcomes|]
  {
  }

  // ---------- the order of calls ----------

  /** The phase determines what the last call was. */
  predicate PhaseFits(g: Settings, t: seq<Event>, s: Cycle) {
    match s.phase
    case AwaitFirstHealth => t == []
    case AwaitFirstUsage => t == [HealthChecked(Ok(true))]
    case AwaitHealth => |t| > 2 && Last(t).UsageCollected?
    case AwaitDiscovery =>
      || (|t| == 2 && Last(t).UsageCollected?)
      || (|t| > 2 && Last(t) == HealthChecked(Ok(true)))
    case Batch(_, _) => |t| > 2 && (Last(t).Discovered? || Last(t).Executed?)
    case AwaitUsage => |t| > 2 && (Last(t).Executed? || (Last(t).Discovered? && g.config.dryRun))
    case _ => true
  }

  lemma {:induction false} RunFitsPhase(g: Settings, t: seq<Event>)
    ensures PhaseFits(g, t, Run(g, t))
  {
    hide Step;
    if t != [] {
      var front := t[..|t| - 1];
      RunFitsPhase(g, front);
      assert t == front + [Last(t)];
      StepFitsPhase(g, front, Run(g, front), Last(t));
    }
  }

  lemma StepFitsPhase(g: Settings, t: seq<Event>, s: Cycle, e: Event)
    requires PhaseFits(g, t, s)
    ensures PhaseFits(g, t + [e], Step(g, s, e))
  {
    Append(t, e);
    if s.phase.AwaitDiscovery? && e.Discovered? && e.found.Ok? {
      PlanHasRealActions(g, e.found.value);
    }
  }

  /** In real mode every planned action is a real one. */
  lemma PlanHasRealActions(g: Settings, cs: seq<CandidateArtifact>)
    ensures
      var plan := Planner.PlanOf(g.config, g.kind, cs);
      if g.config.dryRun then Executor.RealActions(plan.dryRun, plan.actions) == []
      else Executor.RealActions(plan.dryRun, plan.actions) == plan.actions
  {
    var plan := Planner.PlanOf(g.config, g.kind, cs);
    if g.config.dryRun {
      Executor.DryBatchTouchesNothing(g.kind, plan.actions);
    } else {
      forall i | 0 <= i < |plan.actions| ensures !plan.actions[i].dryRun {
        Planner.PlannedActionsAreEligible(g.config, g.kind, cs, i);
      }
      Executor.AllReal(plan.actions);
    }
  }

  /** May `next` be called right behind `e`, which is call number `at`? */
  predicate MayFollow(g: Settings, at: nat, e: Event, next: Event) {
    match next
    case HealthChecked(_) => at >= 2 && e.UsageCollected?
    case UsageCollected(_) =>
      if at == 0 then e == HealthChecked(Ok(true))
      else e.Executed? || (e.Discovered? && g.config.dryRun)
    case Discovered(_, _) => if at == 1 then e.UsageCollected? else e == HealthChecked(Ok(true))
    case Executed(_, _) => e.Discovered? || e.Executed?
    case Slept(_) => false
  }

  /** The answers after which no further call may come. */
  predicate Halts(g: Settings, e: Event) {
    match e
    case HealthChecked(health) => health != Ok(true)
    case UsageCollected(usage) => usage.Err? || usage.value.PercentUsed().None?
    case Discovered(_, found) => found.Err? || Planner.PlanOf(g.config, g.kind, found.value).actions == []
    case Executed(_, _) => false
    case Slept(_) => false
  }

  /** Call order: health, then usage, then rounds of discover, execute batch and usage, with
      a healthy answer directly in front of every later discovery. */
  lemma CallsAreOrdered(g: Settings, t: seq<Event>, report: RunReport, i: nat)
    requires IsCycle(g, t, report)
    requires i + 1 < |t|
    ensures MayFollow(g, i, t[i], t[i + 1])
  {
    NotRefusedBefore(g, t, i + 2);
    PrefixStep(g, t, i + 1);
    RunFitsPhase(g, t[..i + 1]);
    StepOrder(g, t[..i + 1], Run(g, t[..i + 1]), t[i + 1]);
  }

  lemma FirstCallIsHealth(g: Settings, t: seq<Event>, report: RunReport)
    requires IsCycle(g, t, report)
    ensures t != [] && t[0].HealthChecked?
  {
    NotRefusedBefore(g, t, 1);
    PrefixStep(g, t, 0);
    assert t[..0] == [];
  }

  /** Nothing at all follows an error, an unhealthy answer, an unknown percent or an
      empty plan. */
  lemma NothingFollowsAHalt(g: Settings, t: seq<Event>, report: RunReport, i: nat)
    requires IsCycle(g, t, report)
    requires i < |t| && Halts(g, t[i])
    ensures i == |t| - 1
  {
    if i + 1 < |t| {
      NotRefusedBefore(g, t, i + 1);
      PrefixStep(g, t, i);
      HaltingStops(g, Run(g, t[..i]), t[i]);
    }
  }

  lemma StepOrder(g: Settings, t: seq<Event>, s: Cycle, e: Event)
    requires t != [] && PhaseFits(g, t, s)
    requires !Step(g, s, e).phase.Refused?
    ensures MayFollow(g, |t| - 1, Last(t), e)
  {
  }

  lemma HaltingStops(g: Settings, s: Cycle, e: Event)
    requires Halts(g, e)
    ensures !Alive(Step(g, s, e))
  {
  }

  predicate HasFailure(s: Cycle) {
    s.phase.Batch? && exists k :: 0 <= k < |s.phase.outcomes| && Executor.Fails(s.phase.outcomes[k])
  }

  /** A failed action ends the cycle with its batch: only the rest of that batch follows. */
  lemma {:induction false} FailureEndsTheCycle(g: Settings, t: seq<Event>, report: RunReport, i: nat, j: nat)
    requires IsCycle(g, t, report)
    requires i < j < |t| && t[i].Executed? && Executor.Fails(t[i].outcome)
    ensures t[j].Executed?
  {
    FailureStays(g, t, i, j);
    NotRefusedBefore(g, t, j + 1);
    PrefixStep(g, t, j);
  }

  lemma {:induction false} FailureStays(g: Settings, t: seq<Event>, i: nat, j: nat)
    requires !Run(g, t).phase.Refused?
    requires i < j < |t| && t[i].Executed? && Executor.Fails(t[i].outcome)
    ensures HasFailure(Run(g, t[..j]))
    decreases j
  {
    hide Step;
    NotRefusedBefore(g, t, j);
    PrefixStep(g, t, j - 1);
    var s, e := Run(g, t[..j - 1]), t[j - 1];
    if j - 1 == i {
      ExecutedIsNext(g, s, e);
      FailureRecorded(g, s, e);
    } else {
      FailureStays(g, t, i, j - 1);
      FailureKept(g, s, e);
    }
  }

  lemma FailureRecorded(g: Settings, s: Cycle, e: Event)
    requires e.Executed? && Executor.Fails(e.outcome) && Alive(Step(g, s, e))
    ensures HasFailure(Step(g, s, e))
  {
    var outcomes := s.phase.outcomes + [e.outcome];
    assert Executor.Fails(outcomes[|s.phase.outcomes|]);
    BatchStopsOnFailure(s.phase.plan, outcomes);
  }

  lemma FailureKept(g: Settings, s: Cycle, e: Event)
    requires HasFailure(s) && Alive(Step(g, s, e))
    ensures HasFailure(Step(g, s, e))
  {
    var k :| 0 <= k < |s.phase.outcomes| && Executor.Fails(s.phase.outcomes[k]);
    var outcomes := s.phase.outcomes + [e.outcome];
    assert Executor.Fails(outcomes[k]);
    BatchStopsOnFailure(s.phase.plan, outcomes);
  }

  lemma BatchStopsOnFailure(plan: ActionPlan, outcomes: seq<WorkerOutcome>)
    ensures (|outcomes| == |Executor.RealActions(plan.dryRun, plan.actions)|
             && exists k :: 0 <= k < |outcomes| && Executor.Fails(outcomes[k]))
            ==> Executor.BatchReport(plan.backend, plan.dryRun, plan.actions, outcomes).failures != []
  {
    if |outcomes| == |Executor.RealActions(plan.dryRun, plan.actions)| {
      Executor.BatchIsComplete(plan.backend, plan.dryRun, plan.actions, outcomes);
    }
  }

  // ---------- accounting ----------

  predicate Accounts(g: Settings, t: seq<Event>, s: Cycle) {
    var r := s.report;
    && r.iterations == Rounds(t) + (if s.phase.AwaitDiscovery? then 1 else 0)
    && r.iterations <= g.limit
    && (s.phase.AwaitFirstHealth? || s.phase.AwaitFirstUsage? ==> r.iterations == 0)
    && (s.phase.AwaitHealth? ==> r.iterations < g.limit)
    && r.actionsPlanned
       == r.actionsCompleted + r.actionFailures + (if s.phase.Batch? then |s.phase.plan.actions| else 0)
    && r.actionsPlanned + r.skippedCandidates == FoundCount(t)
    && (r.actionFailures > 0 <==> s.phase.Stopped? && r.stopReason == ExecutionFailuresDetected)
  }

  lemma {:induction false} RunAccounts(g: Settings, t: seq<Event>)
    requires g.limit >= 1 && !Run(g, t).phase.Refused?
    ensures Accounts(g, t, Run(g, t))
  {
    hide Step;
    if t != [] {
      var front := t[..|t| - 1];
      NotRefusedBefore(g, t, |front|);
      RunAccounts(g, front);
      assert t == front + [Last(t)];
      StepAccounts(g, front, Run(g, front), Last(t));
    }
  }

  lemma StepAccounts(g: Settings, t: seq<Event>, s: Cycle, e: Event)
    requires g.limit >= 1 && Alive(s) && Accounts(g, t, s)
    requires !Step(g, s, e).phase.Refused?
    ensures Accounts(g, t + [e], Step(g, s, e))
  {
    Append(t, e);
    match e {
      case HealthChecked(_) => HealthAccounts(g, t, s, e);
      case UsageCollected(_) => UsageAccounts(g, t, s, e);
      case Discovered(_, found) =>
        if found.Ok? {
          Planner.PlanPartitionsInput(g.config, g.kind, found.value);
          PlanAccounts(g, t + [e], s, Planner.PlanOf(g.config, g.kind, found.value));
        }
      case Executed(_, outcome) =>
        OutcomeAccounts(g, t + [e], s, s.phase.plan, s.phase.outcomes + [outcome]);
    }
  }

  lemma HealthAccounts(g: Settings, t: seq<Event>, s: Cycle, e: Event)
    requires g.limit >= 1 && Alive(s) && Accounts(g, t, s)
    requires e.HealthChecked? && !Step(g, s, e).phase.Refused?
    ensures Accounts(g, t + [e], Step(g, s, e))
  {
    Append(t, e);
  }

  lemma UsageAccounts(g: Settings, t: seq<Event>, s: Cycle, e: Event)
    requires g.limit >= 1 && Alive(s) && Accounts(g, t, s)
    requires e.UsageCollected? && !Step(g, s, e).phase.Refused?
    ensures Accounts(g, t + [e], Step(g, s, e))
  {
    Append(t, e);
  }

  /** Everything balances but for one batch of planned actions still to be settled. */
  predicate AccountsBut(g: Settings, t: seq<Event>, r: RunReport, pending: nat) {
    && r.iterations == Rounds(t) <= g.limit
    && r.actionsPlanned == r.actionsCompleted + r.actionFailures + pending
    && r.actionsPlanned + r.skippedCandidates == FoundCount(t)
    && r.actionFailures == 0
  }

  lemma PlanAccounts(g: Settings, t: seq<Event>, s: Cycle, plan: ActionPlan)
    requires s.report.iterations == Rounds(t) <= g.limit
    requires s.report.actionsPlanned == s.report.actionsCompleted && s.report.actionFailures == 0
    requires s.report.actionsPlanned + s.report.skippedCandidates + |plan.actions| + |plan.skipped| == FoundCount(t)
    ensures Accounts(g, t, OnPlan(s, plan))
  {
    if plan.actions != [] {
      OutcomeAccounts(g, t, CountPlan(s, plan), plan, []);
    }
  }

  lemma OutcomeAccounts(g: Settings, t: seq<Event>, s: Cycle, plan: ActionPlan, outcomes: seq<WorkerOutcome>)
    requires AccountsBut(g, t, s.report, |plan.actions|)
    ensures Accounts(g, t, OnOutcome(s, plan, outcomes))
  {
    BatchCounts(plan, outcomes);
  }

  lemma BatchCounts(plan: ActionPlan, outcomes: seq<WorkerOutcome>)
    ensures |outcomes| == |Executor.RealActions(plan.dryRun, plan.actions)| ==>
      var r := Executor.BatchReport(plan.backend, plan.dryRun, plan.actions, outcomes);
      |r.completed| + |r.failures| == |plan.actions|
  {
    if |outcomes| == |Executor.RealActions(plan.dryRun, plan.actions)| {
      Executor.BatchIsComplete(plan.backend, plan.dryRun, plan.actions, outcomes);
    }
  }

  /** Every return balances: each planned action completed or failed, each candidate found
      in any round was planned or skipped, one iteration per discovery and never more than
      the limit, and failures exactly when the stop reason says so. */
  lemma RunIsAccounted(g: Settings, t: seq<Event>, report: RunReport)
    requires g.limit >= 1 && IsCycle(g, t, report)
    ensures report.actionsCompleted + report.actionFailures == report.actionsPlanned
    ensures report.actionsPlanned + report.skippedCandidates == FoundCount(t)
    ensures report.iterations == Rounds(t) <= g.limit
    ensures report.actionFailures > 0 <==> report.stopReason == ExecutionFailuresDetected
  {
    RunAccounts(g, t);
  }

  // ---------- usage and stop reasons ----------

  predicate TracksUsage(g: Settings, t: seq<Event>, s: Cycle) {
    var r := s.report;
    && s.usage == LastUsage(t)
    && (s.phase.AwaitHealth? || s.phase.AwaitDiscovery? || s.phase.Batch? || s.phase.AwaitUsage? ==>
          && s.usage.Some? && s.usage.value.PercentUsed() == Some(s.percent)
          && r.cleanupStarted)
    && (Alive(s) ==> r.lastError.None?)
    && (s.phase.AwaitHealth? || s.phase.AwaitDiscovery? || s.phase.Batch? || s.phase.AwaitUsage? ==> r.iterations >= 1)
    && (r.cleanupStarted ==>
          && |t| >= 2 && t[1].UsageCollected? && t[1].usage.Ok?
          && r.initialUsage == Some(t[1].usage.value)
          && t[1].usage.value.PercentUsed().Some?
          && t[1].usage.value.PercentUsed().value >= g.config.highWatermarkPercent)
    && (!r.cleanupStarted ==> r.iterations == 0)
  }

  /** The circumstances in which each stop reason is reported. They exclude one another, so
      they are also necessary. */
  predicate Justified(g: Settings, t: seq<Event>, r: RunReport) {
    && t != []
    && r.finalUsage == LastUsage(t)
    && match r.stopReason
       case BackendUnhealthy => Last(t) == HealthChecked(Ok(false)) && r.lastError.None?
       case HealthCheckFailed =>
         r.lastError.Some? && Last(t) == HealthChecked(Err(r.lastError.value))
       case UsageCollectionFailed =>
         r.lastError.Some? && Last(t) == UsageCollected(Err(r.lastError.value))
       case UsagePercentUnknown =>
         && r.lastError.None? && r.finalUsage.Some?
         && Last(t) == UsageCollected(Ok(r.finalUsage.value)) && r.finalUsage.value.PercentUsed().None?
       case BelowHighWatermark =>
         && |t| == 2 && !r.cleanupStarted && r.lastError.None? && r.finalUsage.Some?
         && r.finalUsage.value.PercentUsed().Some?
         && r.finalUsage.value.PercentUsed().value < g.config.highWatermarkPercent
       case TargetWatermarkReached =>
         && r.lastError.None? && r.finalUsage.Some?
         && r.finalUsage.value.PercentUsed().Some?
         && r.finalUsage.value.PercentUsed().value <= g.config.targetWatermarkPercent
         && (r.iterations >= 1 || g.config.targetWatermarkPercent >= g.config.highWatermarkPercent)
       case CandidateDiscoveryFailed =>
         r.lastError.Some? && Last(t).Discovered? && Last(t).found == Err(r.lastError.value)
       case ExecutionFailuresDetected => Last(t).Executed? && r.lastError.Some?
       case NoActionableCandidates =>
         && r.lastError.None? && Last(t).Discovered? && Last(t).found.Ok?
         && forall i :: 0 <= i < |Last(t).found.value| ==>
              !Planner.Eligible(g.config, g.kind, Last(t).found.value[i])
       case DeletionCapHit =>
         && r.lastError.None? && Last(t).Discovered? && Last(t).found.Ok?
         && Planner.PlanOf(g.config, g.kind, Last(t).found.value).actions == []
         && exists i :: 0 <= i < |Last(t).found.value|
              && Planner.Eligible(g.config, g.kind, Last(t).found.value[i])
       case IterationLimitReached =>
         r.lastError.None? && r.iterations >= g.limit && Last(t).UsageCollected?
  }

  predicate Sound(g: Settings, t: seq<Event>, s: Cycle) {
    && TracksUsage(g, t, s)
    && PhaseFits(g, t, s)
    && BatchIsPlanned(g, t, s)
    && (s.phase.Stopped? ==> Justified(g, t, s.report))
  }

  lemma {:induction false} RunIsSound(g: Settings, t: seq<Event>)
    requires !Run(g, t).phase.Refused?
    ensures Sound(g, t, Run(g, t))
  {
    hide Step;
    if t != [] {
      var front := t[..|t| - 1];
      NotRefusedBefore(g, t, |front|);
      RunIsSound(g, front);
      RunFitsPhase(g, t);
      RunningBatchIsPlanned(g, t);
      assert t == front + [Last(t)];
      var s, e := Run(g, front), Last(t);
      match e {
        case HealthChecked(_) => HealthIsSound(g, front, s, e);
        case UsageCollected(_) => UsageIsSound(g, front, s, e);
        case Discovered(_, _) => DiscoveryIsSound(g, front, s, e);
        case Executed(_, _) => ExecutionIsSound(g, front, s, e);
        case Slept(_) => SleepIsRefused(g, s, e);
      }
    }
  }

  lemma SleepIsRefused(g: Settings, s: Cycle, e: Event)
    requires e.Slept?
    ensures Step(g, s, e).phase.Refused?
  {
  }

  lemma HealthIsSound(g: Settings, t: seq<Event>, s: Cycle, e: Event)
    requires e.HealthChecked? && Alive(s) && Sound(g, t, s) && !Step(g, s, e).phase.Refused?
    ensures TracksUsage(g, t + [e], Step(g, s, e))
    ensures Step(g, s, e).phase.Stopped? ==> Justified(g, t + [e], Step(g, s, e).report)
  {
    Append(t, e);
  }

  lemma UsageIsSound(g: Settings, t: seq<Event>, s: Cycle, e: Event)
    requires e.UsageCollected? && Alive(s) && Sound(g, t, s) && !Step(g, s, e).phase.Refused?
    ensures TracksUsage(g, t + [e], Step(g, s, e))
    ensures Step(g, s, e).phase.Stopped? ==> Justified(g, t + [e], Step(g, s, e).report)
  {
    Append(t, e);
  }

  lemma DiscoveryIsSound(g: Settings, t: seq<Event>, s: Cycle, e: Event)
    requires e.Discovered? && Alive(s) && Sound(g, t, s) && !Step(g, s, e).phase.Refused?
    ensures TracksUsage(g, t + [e], Step(g, s, e))
    ensures Step(g, s, e).phase.Stopped? ==> Justified(g, t + [e], Step(g, s, e).report)
  {
    Append(t, e);
    if e.found.Ok? {
      var plan := Planner.PlanOf(g.config, g.kind, e.found.value);
      if plan.actions == [] {
        EmptyPlanIsSound(g, t, s, e, plan);
      } else {
        PlanHasRealActions(g, e.found.value);
        Executor.DryBatchTouchesNothing(g.kind, plan.actions);
        PlanGoesOn(g, t, s, e, plan);
      }
    }
  }

  lemma EmptyPlanIsSound(g: Settings, t: seq<Event>, s: Cycle, e: Event, plan: ActionPlan)
    requires e.Discovered? && e.found.Ok? && s.phase.AwaitDiscovery? && TracksUsage(g, t, s)
    requires plan == Planner.PlanOf(g.config, g.kind, e.found.value) && plan.actions == []
    ensures TracksUsage(g, t + [e], OnPlan(s, plan))
    ensures OnPlan(s, plan).phase.Stopped? && Justified(g, t + [e], OnPlan(s, plan).report)
  {
    Append(t, e);
    Planner.EmptyPlanReason(g.config, g.kind, e.found.value);
    var capped := exists k :: 0 <= k < |plan.skipped| && plan.skipped[k].reason == DeletionCapReached;
    assert capped == HasCapSkip(plan.skipped);
  }

  lemma PlanGoesOn(g: Settings, t: seq<Event>, s: Cycle, e: Event, plan: ActionPlan)
    requires e.Discovered? && e.found.Ok? && s.phase.AwaitDiscovery? && TracksUsage(g, t, s)
    requires plan.actions != []
    requires
      var started := Executor.RealActions(plan.dryRun, plan.actions);
      started == [] ==> Executor.BatchReport(plan.backend, plan.dryRun, plan.actions, []).failures == []
    requires s.report.iterations >= 1
    ensures TracksUsage(g, t + [e], OnPlan(s, plan))
    ensures !OnPlan(s, plan).phase.Stopped?
  {
    Append(t, e);
  }

  lemma ExecutionIsSound(g: Settings, t: seq<Event>, s: Cycle, e: Event)
    requires e.Executed? && Alive(s) && Sound(g, t, s) && !Step(g, s, e).phase.Refused?
    ensures TracksUsage(g, t + [e], Step(g, s, e))
    ensures Step(g, s, e).phase.Stopped? ==> Justified(g, t + [e], Step(g, s, e).report)
  {
    Append(t, e);
  }

  /** Every reported stop reason is justified by what the backend answered, cleanup starts
      only at or above the high watermark, and the final usage is the last one measured. */
  lemma StopReasonIsJustified(g: Settings, t: seq<Event>, report: RunReport)
    requires IsCycle(g, t, report)
    ensures Justified(g, t, report)
    ensures report.cleanupStarted ==>
      && |t| >= 2 && t[1].UsageCollected? && t[1].usage.Ok?
      && report.initialUsage == Some(t[1].usage.value)
      && t[1].usage.value.PercentUsed().Some?
      && t[1].usage.value.PercentUsed().value >= g.config.highWatermarkPercent
    ensures !report.cleanupStarted ==> report.iterations == 0
  {
    RunIsSound(g, t);
  }

  /** Under the validated watermark order, reporting the target as reached takes at least
      one round of work and a final measurement at or below the target. */
  lemma TargetReachedIsReal(g: Settings, t: seq<Event>, report: RunReport)
    requires g.config.targetWatermarkPercent < g.config.highWatermarkPercent
    requires IsCycle(g, t, report) && report.stopReason == TargetWatermarkReached
    ensures report.iterations >= 1 && report.cleanupStarted
    ensures report.initialUsage.Some? && report.initialUsage.value.PercentUsed().Some?
    ensures report.finalUsage.Some? && report.finalUsage.value.PercentUsed().Some?
    ensures report.finalUsage.value.PercentUsed().value <= g.config.targetWatermarkPercent
            < report.initialUsage.value.PercentUsed().value
  {
    StopReasonIsJustified(g, t, report);
  }

  // ---------- reclaimed bytes ----------

  predicate CountsBytes(t: seq<Event>, s: Cycle) {
    && (s.phase.Batch? ==> BatchClaimed(s.phase.outcomes) <= TotalClaimed(t))
    && s.report.reclaimedEstimatedBytes
       == Wrap(TotalClaimed(t) - (if s.phase.Batch? then BatchClaimed(s.phase.outcomes) else 0))
  }

  lemma {:induction false} BatchBytes(backend: BackendKind, dry: bool, actions: seq<PlannedAction>, outcomes: seq<WorkerOutcome>)
    requires |outcomes| == |Executor.RealActions(dry, actions)|
    ensures ReclaimedBytes(Executor.BatchReport(backend, dry, actions, outcomes).completed) == BatchClaimed(outcomes)
  {
    if actions != [] {
      var front := actions[..|actions| - 1];
      Executor.BatchReportStep(backend, dry, actions, outcomes);
      if dry || actions[|front|].dryRun {
        BatchBytes(backend, dry, front, outcomes);
        ReclaimedMore(Executor.BatchReport(backend, dry, front, outcomes).completed,
                      Executor.SyntheticResponse(backend, actions[|front|]));
      } else {
        var before, last := outcomes[..|outcomes| - 1], outcomes[|outcomes| - 1];
        BatchBytes(backend, dry, front, before);
        SettledBytes(Executor.BatchReport(backend, dry, front, before).completed,
                     Executor.BatchReport(backend, dry, actions, outcomes).completed, last);
      }
    }
  }

  lemma SettledBytes(before: seq<ExecutionResponse>, after: seq<ExecutionResponse>, o: WorkerOutcome)
    requires after == if Executor.Fails(o) then before else before + [o.result.value]
    ensures ReclaimedBytes(after) == ReclaimedBytes(before) + ClaimedBytes(o)
  {
    if !Executor.Fails(o) {
      ReclaimedMore(before, o.result.value);
    }
  }

  lemma ReclaimedMore(completed: seq<ExecutionResponse>, r: ExecutionResponse)
    ensures ReclaimedBytes(completed + [r])
            == ReclaimedBytes(completed)
               + (if r.executed && r.candidate.sizeBytes.Some? then r.candidate.sizeBytes.value else 0)
  {
    assert (completed + [r])[..|completed|] == completed;
  }

  lemma BatchClaimedMore(outcomes: seq<WorkerOutcome>, o: WorkerOutcome)
    ensures BatchClaimed(outcomes + [o]) == BatchClaimed(outcomes) + ClaimedBytes(o)
  {
    assert (outcomes + [o])[..|outcomes|] == outcomes;
  }

  lemma WrapSum(a: nat, b: nat)
    ensures WrappingAdd(Wrap(a), b) == Wrap(a + b)
  {
  }

  lemma StepCountsBytes(g: Settings, t: seq<Event>, s: Cycle, e: Event)
    requires CountsBytes(t, s) && Alive(s) && !Step(g, s, e).phase.Refused?
    ensures CountsBytes(t + [e], Step(g, s, e))
  {
    Append(t, e);
    if s.phase.Batch? {
      BatchClaimedMore(s.phase.outcomes, e.outcome);
      var earlier := TotalClaimed(t) - BatchClaimed(s.phase.outcomes);
      OutcomeCountsBytes(t + [e], s, s.phase.plan, s.phase.outcomes + [e.outcome], earlier);
    } else if s.phase.AwaitDiscovery? && e.found.Ok? {
      PlanCountsBytes(t + [e], s, Planner.PlanOf(g.config, g.kind, e.found.value));
    }
  }

  lemma PlanCountsBytes(t: seq<Event>, s: Cycle, plan: ActionPlan)
    requires s.report.reclaimedEstimatedBytes == Wrap(TotalClaimed(t))
    ensures CountsBytes(t, OnPlan(s, plan))
  {
    if plan.actions != [] {
      OutcomeCountsBytes(t, CountPlan(s, plan), plan, [], TotalClaimed(t));
    }
  }

  lemma OutcomeCountsBytes(t: seq<Event>, s: Cycle, plan: ActionPlan, outcomes: seq<WorkerOutcome>, earlier: nat)
    requires TotalClaimed(t) == earlier + BatchClaimed(outcomes)
    requires s.report.reclaimedEstimatedBytes == Wrap(earlier)
    ensures CountsBytes(t, OnOutcome(s, plan, outcomes))
  {
    hide ReclaimedBytes, BatchClaimed, TotalClaimed, Executor.BatchReport, Executor.RealActions, Wrap;
    if |outcomes| == |Executor.RealActions(plan.dryRun, plan.actions)| {
      BatchBytes(plan.backend, plan.dryRun, plan.actions, outcomes);
      FoldInBytes(s, Executor.BatchReport(plan.backend, plan.dryRun, plan.actions, outcomes), earlier,
                  BatchClaimed(outcomes));
    }
  }

  lemma FoldInBytes(s: Cycle, r: Executor.ExecutionReport, earlier: nat, batch: nat)
    requires s.report.reclaimedEstimatedBytes == Wrap(earlier)
    requires ReclaimedBytes(r.completed) == batch
    ensures !OnBatch(s, r).phase.Batch?
    ensures OnBatch(s, r).report.reclaimedEstimatedBytes == Wrap(earlier + batch)
  {
    WrapSum(earlier, batch);
  }

  lemma {:induction false} RunCountsBytes(g: Settings, t: seq<Event>)
    requires !Run(g, t).phase.Refused?
    ensures CountsBytes(t, Run(g, t))
  {
    hide Step;
    if t != [] {
      var front := t[..|t| - 1];
      NotRefusedBefore(g, t, |front|);
      RunCountsBytes(g, front);
      assert t == front + [Last(t)];
      StepCountsBytes(g, front, Run(g, front), Last(t));
    }
  }

  /** The backend answers each successful execute call with the candidate it was given. */
  predicate Echoes(t: seq<Event>) {
    forall i :: 0 <= i < |t| && t[i].Executed? && t[i].outcome.Returned? && t[i].outcome.result.Ok? ==>
      t[i].outcome.result.value.candidate == t[i].action.candidate
  }

  /** Bytes of the real actions already answered, given the budget law of the planner. */
  predicate ClaimsBounded(g: Settings, t: seq<Event>, s: Cycle) {
    if s.phase.Batch? then
      && Rounds(t) >= 1
      && |s.phase.outcomes| <= |Executor.RealActions(s.phase.plan.dryRun, s.phase.plan.actions)|
      && TotalClaimed(t)
         <= (Rounds(t) - 1) * Planner.DeleteCap(g.config)
            + Planner.KnownBytes(Executor.RealActions(s.phase.plan.dryRun, s.phase.plan.actions)[..|s.phase.outcomes|])
    else
      TotalClaimed(t) <= Rounds(t) * Planner.DeleteCap(g.config)
  }

  lemma KnownBytesAppend(actions: seq<PlannedAction>, a: PlannedAction)
    ensures Planner.KnownBytes(actions + [a]) == Planner.KnownBytes(actions) + ActionBytes(a)
  {
    Planner.BytesStep(actions, a, 0);
  }

  function ActionBytes(a: PlannedAction): nat {
    if a.candidate.sizeBytes.Some? then a.candidate.sizeBytes.value else 0
  }

  lemma {:induction false} PrefixBytes(actions: seq<PlannedAction>, k: nat)
    requires k <= |actions|
    ensures Planner.KnownBytes(actions[..k]) <= Planner.KnownBytes(actions)
    decreases |actions| - k
  {
    hide Planner.KnownBytes;
    if k == |actions| {
      assert actions[..k] == actions;
    } else {
      PrefixBytes(actions, k + 1);
      KnownBytesMore(actions, k);
    }
  }

  lemma {:induction false} AllRealBytes(dry: bool, actions: seq<PlannedAction>)
    ensures Planner.KnownBytes(Executor.RealActions(dry, actions)) <= Planner.KnownBytes(actions)
  {
    hide Planner.KnownBytes;
    if actions == [] {
      assert Executor.RealActions(dry, actions) == actions;
    } else {
      var front, last := actions[..|actions| - 1], actions[|actions| - 1];
      AllRealBytes(dry, front);
      assert dry || last.dryRun ==> Executor.RealActions(dry, actions) == Executor.RealActions(dry, front);
      assert actions == front + [last];
      KnownBytesAppend(front, last);
      KnownBytesAppend(Executor.RealActions(dry, front), last);
    }
  }

  lemma RealBytes(dry: bool, actions: seq<PlannedAction>, k: nat)
    requires k <= |Executor.RealActions(dry, actions)|
    ensures Planner.KnownBytes(Executor.RealActions(dry, actions)[..k]) <= Planner.KnownBytes(actions)
  {
    PrefixBytes(Executor.RealActions(dry, actions), k);
    AllRealBytes(dry, actions);
  }

  lemma StepBoundsClaims(g: Settings, t: seq<Event>, s: Cycle, e: Event)
    requires Alive(s) && !Step(g, s, e).phase.Refused?
    requires ClaimsBounded(g, t, s) && BatchIsPlanned(g, t, s)
    requires Echoes(t + [e])
    ensures ClaimsBounded(g, t + [e], Step(g, s, e))
  {
    hide Planner.DeleteCap, Planner.PlanOf, Planner.KnownBytes, OnOutcome, OnPlan, OnBatch;
    Append(t, e);
    if e.Executed? {
      ExecutedIsNext(g, s, e);
      Planner.PlanStaysWithinCap(g.config, g.kind, LastFound(t));
      assert (t + [e])[|t|] == e;
      OutcomeBoundsClaims(g, t, s, e);
    } else if e.Discovered? {
      OneRoundMore(Rounds(t) + 1, Planner.DeleteCap(g.config));
      if e.found.Ok? {
        PlanBoundsClaims(g, t + [e], s, Planner.PlanOf(g.config, g.kind, e.found.value));
      }
    }
  }

  lemma PlanBoundsClaims(g: Settings, t: seq<Event>, s: Cycle, plan: ActionPlan)
    requires Rounds(t) >= 1 && TotalClaimed(t) <= (Rounds(t) - 1) * Planner.DeleteCap(g.config)
    ensures ClaimsBounded(g, t, OnPlan(s, plan))
  {
    hide Planner.DeleteCap;
    OneRoundMore(Rounds(t), Planner.DeleteCap(g.config));
  }

  lemma OutcomeBoundsClaims(g: Settings, t: seq<Event>, s: Cycle, e: Event)
    requires s.phase.Batch? && e.Executed? && ClaimsBounded(g, t, s)
    requires Planner.KnownBytes(s.phase.plan.actions) <= Planner.DeleteCap(g.config)
    requires
      var started := Executor.RealActions(s.phase.plan.dryRun, s.phase.plan.actions);
      |s.phase.outcomes| < |started| && e.action == started[|s.phase.outcomes|]
    requires ClaimedBytes(e.outcome) <= ActionBytes(e.action)
    ensures ClaimsBounded(g, t + [e], OnOutcome(s, s.phase.plan, s.phase.outcomes + [e.outcome]))
  {
    hide Planner.KnownBytes, Executor.RealActions;
    Append(t, e);
    var plan, n := s.phase.plan, |s.phase.outcomes|;
    KnownBytesMore(Executor.RealActions(plan.dryRun, plan.actions), n);
    RealBytes(plan.dryRun, plan.actions, n + 1);
    OneRoundMore(Rounds(t), Planner.DeleteCap(g.config));
  }

  lemma KnownBytesMore(actions: seq<PlannedAction>, n: nat)
    requires n < |actions|
    ensures Planner.KnownBytes(actions[..n + 1]) == Planner.KnownBytes(actions[..n]) + ActionBytes(actions[n])
  {
    assert actions[..n + 1] == actions[..n] + [actions[n]];
    KnownBytesAppend(actions[..n], actions[n]);
  }

  lemma OneRoundMore(rounds: nat, cap: nat)
    requires rounds >= 1
    ensures (rounds - 1) * cap + cap == rounds * cap
  {
  }

  lemma {:induction false} RunBoundsClaims(g: Settings, t: seq<Event>)
    requires !Run(g, t).phase.Refused? && Echoes(t)
    ensures ClaimsBounded(g, t, Run(g, t))
  {
    hide Step;
    if t != [] {
      var front := t[..|t| - 1];
      NotRefusedBefore(g, t, |front|);
      assert t == front + [Last(t)];
      assert Echoes(front) by {
        assert forall i :: 0 <= i < |front| ==> front[i] == t[i];
      }
      RunBoundsClaims(g, front);
      RunningBatchIsPlanned(g, front);
      StepBoundsClaims(g, front, Run(g, front), Last(t));
    }
  }

  /** The reported counter is the sum of all claims, modulo 2^64; and against a backend that
      echoes the candidates it was given the true sum is at most one cap per iteration, so
      with room for that in 64 bits the counter is exact. */
  lemma ReclaimIsBounded(g: Settings, t: seq<Event>, report: RunReport)
    requires g.limit >= 1 && IsCycle(g, t, report)
    ensures report.reclaimedEstimatedBytes == Wrap(TotalClaimed(t))
    ensures Echoes(t) ==> TotalClaimed(t) <= report.iterations * Planner.DeleteCap(g.config)
    ensures Echoes(t) && report.iterations * Planner.DeleteCap(g.config) <= U64_MAX
            ==> report.reclaimedEstimatedBytes == TotalClaimed(t)
  {
    RunCountsBytes(g, t);
    EchoedClaims(g, t, report);
    SmallRemainder(TotalClaimed(t));
  }

  lemma EchoedClaims(g: Settings, t: seq<Event>, report: RunReport)
    requires g.limit >= 1 && IsCycle(g, t, report)
    ensures Echoes(t) ==> TotalClaimed(t) <= report.iterations * Planner.DeleteCap(g.config)
  {
    hide Planner.DeleteCap, Run;
    RunAccounts(g, t);
    if Echoes(t) {
      RunBoundsClaims(g, t);
    }
  }

  lemma SmallRemainder(n: nat)
    ensures n <= U64_MAX ==> Wrap(n) as int == n
  {
  }

  /** A dry-run cycle makes no execute call and reclaims nothing. */
  lemma DryRunIsHarmless(g: Settings, t: seq<Event>, report: RunReport)
    requires g.config.dryRun && IsCycle(g, t, report)
    ensures forall i :: 0 <= i < |t| ==> !t[i].Executed?
    ensures report.reclaimedEstimatedBytes == 0
  {
    forall i | 0 <= i < |t| ensures !t[i].Executed? {
      if t[i].Executed? {
        OnlyPlannedActionsExecute(g, t, report, i);
      }
    }
    RunCountsBytes(g, t);
    NoClaims(t);
  }

  lemma {:induction false} NoClaims(t: seq<Event>)
    requires forall i :: 0 <= i < |t| ==> !t[i].Executed?
    ensures TotalClaimed(t) == 0
  {
    if t != [] {
      NoClaims(t[..|t| - 1]);
    }
  }

  // ---------- one backend call per planned action ----------

  function ExecuteCalls(t: seq<Event>): nat {
    if t == [] then 0 else ExecuteCalls(t[..|t| - 1]) + (if Last(t).Executed? then 1 else 0)
  }

  /** In real mode the calls still to come are the rest of the running batch. */
  predicate CallsFit(t: seq<Event>, s: Cycle) {
    s.report.actionsPlanned
    == ExecuteCalls(t) + (if s.phase.Batch? then |s.phase.plan.actions| - |s.phase.outcomes| else 0)
  }

  lemma {:induction false} RunCallsFit(g: Settings, t: seq<Event>)
    requires !g.config.dryRun && !Run(g, t).phase.Refused?
    ensures CallsFit(t, Run(g, t))
  {
    hide Step;
    if t != [] {
      var front := t[..|t| - 1];
      StepFromDead(g, Run(g, front), Last(t));
      RunCallsFit(g, front);
      RunningBatchIsPlanned(g, front);
      StepCallsFit(g, front, Run(g, front), Last(t));
      assert t == front + [Last(t)];
    }
  }

  lemma StepCallsFit(g: Settings, t: seq<Event>, s: Cycle, e: Event)
    requires !g.config.dryRun && Alive(s) && BatchIsPlanned(g, t, s) && CallsFit(t, s)
    requires !Step(g, s, e).phase.Refused?
    ensures CallsFit(t + [e], Step(g, s, e))
  {
    hide OnPlan, OnOutcome, Executor.RealActions, Planner.PlanOf;
    Append(t, e);
    if e.Discovered? && e.found.Ok? {
      PlanHasRealActions(g, e.found.value);
      PlanCallsFit(t + [e], s, Planner.PlanOf(g.config, g.kind, e.found.value));
    } else if e.Executed? {
      PlanHasRealActions(g, LastFound(t));
      OutcomeCallsFit(t + [e], s, s.phase.plan, s.phase.outcomes + [e.outcome]);
    }
  }

  lemma PlanCallsFit(t: seq<Event>, s: Cycle, plan: ActionPlan)
    requires s.report.actionsPlanned == ExecuteCalls(t)
    requires Executor.RealActions(plan.dryRun, plan.actions) == plan.actions
    ensures CallsFit(t, OnPlan(s, plan))
  {
    hide OnOutcome;
    if plan.actions != [] {
      OutcomeCallsFit(t, CountPlan(s, plan), plan, []);
    }
  }

  lemma OutcomeCallsFit(t: seq<Event>, s: Cycle, plan: ActionPlan, outcomes: seq<WorkerOutcome>)
    requires Executor.RealActions(plan.dryRun, plan.actions) == plan.actions
    requires s.report.actionsPlanned == ExecuteCalls(t) + |plan.actions| - |outcomes|
    ensures CallsFit(t, OnOutcome(s, plan, outcomes))
  {
    hide Executor.BatchReport;
  }

  /** One execute call per planned action in real mode, none in dry mode; so a cycle leaves
      everything alone exactly when it planned nothing or was dry. */
  lemma ExecuteCallsAreCounted(g: Settings, t: seq<Event>, report: RunReport)
    requires IsCycle(g, t, report)
    ensures ExecuteCalls(t) == if g.config.dryRun then 0 else report.actionsPlanned
    ensures (forall i :: 0 <= i < |t| ==> !t[i].Executed?) <==> g.config.dryRun || report.actionsPlanned == 0
  {
    if g.config.dryRun {
      DryRunIsHarmless(g, t, report);
    } else {
      RunCallsFit(g, t);
    }
    NoCallsCounted(t);
  }

  lemma {:induction false} NoCallsCounted(t: seq<Event>)
    ensures ExecuteCalls(t) == 0 <==> forall i :: 0 <= i < |t| ==> !t[i].Executed?
  {
    if t != [] {
      var front := t[..|t| - 1];
      NoCallsCounted(front);
      assert forall i :: 0 <= i < |front| ==> front[i] == t[i];
    }
  }

  lemma {:induction false} NothingFoundWithoutRounds(t: seq<Event>)
    ensures Rounds(t) == 0 ==> FoundCount(t) == 0
  {
    if t != [] {
      NothingFoundWithoutRounds(t[..|t| - 1]);
    }
  }

  // ---------- accepted cycles are the ones that happen ----------

  lemma {:induction false} AnsweredBefore(b: Behaviour, t: seq<Event>, k: nat)
    requires Answered(b, t) && k < |t|
    ensures Answers(b, t[..k], t[k])
    decreases |t|
  {
    hide Answers;
    if k < |t| - 1 {
      AnsweredBefore(b, t[..|t| - 1], k);
      assert t[..|t| - 1][..k] == t[..k];
    }
  }

  /** In one state, to one answer: at most one event is accepted. */
  lemma NextEventIsFixed(g: Settings, b: Behaviour, before: seq<Event>, s: Cycle, e: Event, e': Event)
    requires Answers(b, before, e) && Answers(b, before, e')
    requires !Step(g, s, e).phase.Refused? && !Step(g, s, e').phase.Refused?
    ensures e == e'
  {
  }

  /** A cycle is fixed by the backend's behaviour: what the automaton accepts and the backend
      answers is one call sequence only. */
  lemma CyclesAreDetermined(g: Settings, b: Behaviour, base: seq<Event>, t: seq<Event>, t': seq<Event>,
                            report: RunReport, report': RunReport)
    requires IsCycle(g, t, report) && IsCycle(g, t', report')
    requires Answered(b, base + t) && Answered(b, base + t')
    ensures t == t' && report == report'
  {
    hide Run, Answered;
    var shorter := if |t| <= |t'| then |t| else |t'|;
    CommonPrefix(g, b, base, t, t', report, report', shorter);
    assert t[..|t|] == t && t'[..|t'|] == t';
    NoCycleInside(g, t, report, t', report');
    NoCycleInside(g, t', report', t, report);
  }

  lemma {:induction false} CommonPrefix(
      g: Settings, b: Behaviour, base: seq<Event>, t: seq<Event>, t': seq<Event>,
      report: RunReport, report': RunReport, k: nat)
    requires IsCycle(g, t, report) && IsCycle(g, t', report')
    requires Answered(b, base + t) && Answered(b, base + t')
    requires k <= |t| && k <= |t'|
    ensures t[..k] == t'[..k]
  {
    hide Step, Run, Answered, Answers;
    if k > 0 {
      var i := k - 1;
      CommonPrefix(g, b, base, t, t', report, report', i);
      AnsweredBefore(b, base + t, |base| + i);
      AnsweredBefore(b, base + t', |base| + i);
      assert (base + t)[..|base| + i] == base + t[..i];
      assert (base + t')[..|base| + i] == base + t'[..i];
      NotRefusedBefore(g, t, k);
      NotRefusedBefore(g, t', k);
      PrefixStep(g, t, i);
      PrefixStep(g, t', i);
      NextEventIsFixed(g, b, base + t[..i], Run(g, t[..i]), t[i], t'[i]);
      assert t[..k] == t[..i] + [t[i]] && t'[..k] == t'[..i] + [t'[i]];
    }
  }

  /** A complete cycle is no part of a longer one. */
  lemma NoCycleInside(g: Settings, t: seq<Event>, report: RunReport, longer: seq<Event>, report': RunReport)
    requires IsCycle(g, t, report) && IsCycle(g, longer, report')
    ensures |t| < |longer| ==> longer[..|t|] != t
  {
    if |t| < |longer| && longer[..|t|] == t {
      NotRefusedBefore(g, longer, |t|);
    }
  }

  /** The behaviour that answers the i-th call as in `t`, whatever the call. */
  function Replay(t: seq<Event>): Behaviour {
    Behaviour(
      before => if |before| < |t| && t[|before|].HealthChecked? then t[|before|].health else Ok(false),
      before => if |before| < |t| && t[|before|].UsageCollected? then t[|before|].usage else Ok(UsageSnapshot(0, None, None)),
      (before, given) => if |before| < |t| && t[|before|].Discovered? then t[|before|].found else Ok([]),
      (before, action) => if |before| < |t| && t[|before|].Executed? then t[|before|].outcome else TimedOut)
  }

  lemma {:induction false} ReplayAnswers(t: seq<Event>, k: nat)
    requires k <= |t|
    ensures Answered(Replay(t), t[..k])
  {
    if k > 0 {
      ReplayAnswers(t, k - 1);
      assert t[..k][..k - 1] == t[..k - 1];
    }
  }

  /** Every accepted cycle happens: run against the behaviour that replays its answers, the
      scheduler makes exactly these calls and returns exactly this report. So the laws about
      accepted cycles are about nothing less, and the counterexamples are real. */
  method RunReplay(g: Settings, t: seq<Event>, ghost report: RunReport) returns (backend: BackendAdapter, actual: RunReport)
    requires g.limit >= 1 && IsCycle(g, t, report)
    ensures backend.trace == t && actual == report
  {
    hide IsCycle, Answered;
    backend := new BackendAdapter(g.kind, Replay(t));
    var scheduler := new CleanupScheduler(g.config, g.limit);
    actual := scheduler.RunOnce(backend);
    assert backend.trace[0..] == backend.trace;
    assert scheduler.SettingsFor(g.kind) == g;
    ReplayAnswers(t, |t|);
    assert t[..|t|] == t && [] + t == t && [] + backend.trace == backend.trace;
    CyclesAreDetermined(g, Replay(t), [], t, backend.trace, report, actual);
  }

  // ---------- when the run goes on, read off the calls alone ----------

  /** What the execute calls since the latest discovery came to. */
  function OutcomesSince(t: seq<Event>): seq<WorkerOutcome> {
    if t == [] then []
    else if Last(t).Executed? then OutcomesSince(t[..|t| - 1]) + [Last(t).outcome]
    else []
  }

  /** The plan for the latest discovery, as far as it is to be carried out. */
  function PlannedNow(g: Settings, t: seq<Event>): seq<PlannedAction> {
    Planner.PlanOf(g.config, g.kind, LastFound(t)).actions
  }

  function LastPercent(t: seq<Event>): Option<u8> {
    if LastUsage(t).Some? then LastUsage(t).value.PercentUsed() else None
  }

  /** Does another call follow the calls `t`? A round begins only while the last percent
      measured is above the target, the first one only from the high watermark on; a batch
      runs to its end and is measured if nothing failed; after the last round allowed the
      run stops. */
  predicate GoesOn(g: Settings, t: seq<Event>) {
    t == [] ||
    match Last(t)
    case HealthChecked(health) =>
      && health == Ok(true)
      && (|t| == 1 || (LastPercent(t).Some? && LastPercent(t).value > g.config.targetWatermarkPercent))
    case UsageCollected(usage) =>
      && usage.Ok? && usage.value.PercentUsed().Some?
      && (if |t| == 2 then
            && usage.value.PercentUsed().value >= g.config.highWatermarkPercent
            && usage.value.PercentUsed().value > g.config.targetWatermarkPercent
          else Rounds(t) < g.limit)
    case Discovered(_, found) => found.Ok? && PlannedNow(g, t) != []
    case Executed(_, _) =>
      || |OutcomesSince(t)| < |PlannedNow(g, t)|
      || forall k :: 0 <= k < |OutcomesSince(t)| ==> !Executor.Fails(OutcomesSince(t)[k])
    case Slept(_) => false
  }

  predicate KnowsBatch(g: Settings, t: seq<Event>, s: Cycle) {
    s.phase.Batch? ==>
      && s.phase.plan == Planner.PlanOf(g.config, g.kind, LastFound(t))
      && s.phase.outcomes == OutcomesSince(t)
  }

  lemma {:induction false} RunKnowsBatch(g: Settings, t: seq<Event>)
    ensures KnowsBatch(g, t, Run(g, t))
  {
    hide Step;
    if t != [] {
      var front := t[..|t| - 1];
      RunKnowsBatch(g, front);
      StepKnowsBatch(g, front, Run(g, front), Last(t));
      assert t == front + [Last(t)];
    }
  }

  lemma StepKnowsBatch(g: Settings, t: seq<Event>, s: Cycle, e: Event)
    requires KnowsBatch(g, t, s)
    ensures KnowsBatch(g, t + [e], Step(g, s, e))
  {
    hide Planner.PlanOf, Executor.BatchReport, Executor.RealActions;
    Append(t, e);
  }

  /** Everything known of a state whose calls were all accepted. */
  predicate KnowsAll(g: Settings, t: seq<Event>, s: Cycle) {
    && Alive(s) && PhaseFits(g, t, s) && TracksUsage(g, t, s) && KnowsBatch(g, t, s) && BatchIsPlanned(g, t, s)
    && s.report.iterations == Rounds(t) + (if s.phase.AwaitDiscovery? then 1 else 0)
  }

  lemma AcceptedKnowsAll(g: Settings, t: seq<Event>)
    requires g.limit >= 1 && Alive(Run(g, t))
    ensures KnowsAll(g, t, Run(g, t))
  {
    hide Run, PhaseFits, TracksUsage, KnowsBatch, BatchIsPlanned;
    RunFitsPhase(g, t);
    RunIsSound(g, t);
    RunKnowsBatch(g, t);
    RunningBatchIsPlanned(g, t);
    RunAccounts(g, t);
  }

  /** One more call leaves the cycle open exactly if the calls say that it goes on. */
  lemma StepGoesOn(g: Settings, t: seq<Event>, s: Cycle, e: Event)
    requires g.limit >= 1 && KnowsAll(g, t, s) && !Step(g, s, e).phase.Refused?
    ensures Alive(Step(g, s, e)) <==> GoesOn(g, t + [e])
  {
    hide Planner.PlanOf, Executor.RealActions, Executor.BatchReport;
    Append(t, e);
    match e {
      case HealthChecked(_) => HealthGoesOn(g, t, s, e);
      case UsageCollected(_) => UsageGoesOn(g, t, s, e);
      case Discovered(_, _) => DiscoveryGoesOn(g, t, s, e);
      case Executed(_, _) => ExecutionGoesOn(g, t, s, e);
      case Slept(_) => SleepIsRefused(g, s, e);
    }
  }

  lemma HealthGoesOn(g: Settings, t: seq<Event>, s: Cycle, e: Event)
    requires KnowsAll(g, t, s) && e.HealthChecked? && !Step(g, s, e).phase.Refused?
    ensures Alive(Step(g, s, e)) <==> GoesOn(g, t + [e])
  {
    hide Planner.PlanOf, Executor.RealActions, Executor.BatchReport;
    Append(t, e);
  }

  lemma UsageGoesOn(g: Settings, t: seq<Event>, s: Cycle, e: Event)
    requires g.limit >= 1 && KnowsAll(g, t, s) && e.UsageCollected? && !Step(g, s, e).phase.Refused?
    ensures Alive(Step(g, s, e)) <==> GoesOn(g, t + [e])
  {
    hide Planner.PlanOf, Executor.RealActions, Executor.BatchReport;
    Append(t, e);
  }

  lemma DiscoveryGoesOn(g: Settings, t: seq<Event>, s: Cycle, e: Event)
    requires KnowsAll(g, t, s) && e.Discovered? && !Step(g, s, e).phase.Refused?
    ensures Alive(Step(g, s, e)) <==> GoesOn(g, t + [e])
  {
    hide Planner.PlanOf, Executor.RealActions, Executor.BatchReport;
    Append(t, e);
    if e.found.Ok? {
      PlanHasRealActions(g, e.found.value);
      EmptyBatchSucceeds(Planner.PlanOf(g.config, g.kind, e.found.value));
    }
  }

  lemma EmptyBatchSucceeds(plan: ActionPlan)
    ensures Executor.RealActions(plan.dryRun, plan.actions) == [] ==>
              Executor.BatchReport(plan.backend, plan.dryRun, plan.actions, []).failures == []
  {
    if Executor.RealActions(plan.dryRun, plan.actions) == [] {
      Executor.BatchIsComplete(plan.backend, plan.dryRun, plan.actions, []);
    }
  }

  lemma ExecutionGoesOn(g: Settings, t: seq<Event>, s: Cycle, e: Event)
    requires KnowsAll(g, t, s) && e.Executed? && !Step(g, s, e).phase.Refused?
    ensures Alive(Step(g, s, e)) <==> GoesOn(g, t + [e])
  {
    hide Planner.PlanOf, Executor.RealActions, Executor.BatchReport;
    Append(t, e);
    ExecutedIsNext(g, s, e);
    PlanHasRealActions(g, LastFound(t));
    var plan, outcomes := s.phase.plan, s.phase.outcomes + [e.outcome];
    if |outcomes| == |Executor.RealActions(plan.dryRun, plan.actions)| {
      Executor.BatchIsComplete(plan.backend, plan.dryRun, plan.actions, outcomes);
    }
  }

  /** The calls alone decide, without the automaton: a complete cycle has another call behind
      its first k ones exactly if they go on; and an execute call is for the planned action
      whose turn it is. */
  lemma CycleGoesOnExactly(g: Settings, t: seq<Event>, report: RunReport, k: nat)
    requires g.limit >= 1 && IsCycle(g, t, report) && k <= |t|
    ensures k < |t| <==> GoesOn(g, t[..k])
    ensures k < |t| && t[k].Executed? ==>
      && |OutcomesSince(t[..k])| < |PlannedNow(g, t[..k])|
      && t[k].action == PlannedNow(g, t[..k])[|OutcomesSince(t[..k])|]
  {
    hide Run, Step, GoesOn, KnowsAll, PlannedNow;
    if k == 0 {
      NothingYet(g, t, report);
    } else {
      var s := Run(g, t[..k - 1]);
      NotRefusedBefore(g, t, k - 1);
      NotRefusedBefore(g, t, k);
      AcceptedKnowsAll(g, t[..k - 1]);
      PrefixStep(g, t, k - 1);
      StepGoesOn(g, t[..k - 1], s, t[k - 1]);
      assert t[..k] == t[..k - 1] + [t[k - 1]];
      assert k == |t| ==> t[..k] == t;
    }
    if k < |t| && t[k].Executed? {
      NotRefusedBefore(g, t, k + 1);
      NotRefusedBefore(g, t, k);
      PrefixStep(g, t, k);
      TurnIsFixed(g, t[..k], t[k]);
    }
  }

  lemma NothingYet(g: Settings, t: seq<Event>, report: RunReport)
    requires IsCycle(g, t, report)
    ensures t != [] && GoesOn(g, [])
  {
  }

  lemma TurnIsFixed(g: Settings, t: seq<Event>, e: Event)
    requires e.Executed? && !Step(g, Run(g, t), e).phase.Refused?
    ensures |OutcomesSince(t)| < |PlannedNow(g, t)|
    ensures e.action == PlannedNow(g, t)[|OutcomesSince(t)|]
  {
    hide Run, Step, Planner.PlanOf, Executor.RealActions;
    ExecutedIsNext(g, Run(g, t), e);
    RunKnowsBatch(g, t);
    PlanHasRealActions(g, LastFound(t));
  }

  /** Deletion never goes on at or below the target: every discovery is made with the latest
      snapshot measured, and its percent is above the target. */
  lemma DiscoveryNeedsWork(g: Settings, t: seq<Event>, report: RunReport, i: nat)
    requires g.limit >= 1 && IsCycle(g, t, report)
    requires i < |t| && t[i].Discovered?
    ensures LastUsage(t[..i]) == Some(t[i].given)
    ensures t[i].given.PercentUsed().Some?
    ensures t[i].given.PercentUsed().value > g.config.targetWatermarkPercent
  {
    hide Run, Step;
    CycleGoesOnExactly(g, t, report, i);
    NotRefusedBefore(g, t, i + 1);
    NotRefusedBefore(g, t, i);
    PrefixStep(g, t, i);
    AcceptedKnowsAll(g, t[..i]);
    GivenIsLatest(g, Run(g, t[..i]), t[i]);
  }

  lemma GivenIsLatest(g: Settings, s: Cycle, e: Event)
    requires e.Discovered? && !Step(g, s, e).phase.Refused?
    ensures s.phase.AwaitDiscovery? && s.usage == Some(e.given)
  {
  }

  /** A healthy recheck behind a snapshot at or below the target is the last call, and the
      target is reported as reached; above the target a discovery follows. */
  lemma TargetStopsTheRun(g: Settings, t: seq<Event>, report: RunReport, i: nat)
    requires g.limit >= 1 && IsCycle(g, t, report)
    requires 2 <= i < |t| && t[i] == HealthChecked(Ok(true))
    ensures LastPercent(t[..i]).Some?
    ensures LastPercent(t[..i]).value <= g.config.targetWatermarkPercent ==>
      i == |t| - 1 && report.stopReason == TargetWatermarkReached
    ensures LastPercent(t[..i]).value > g.config.targetWatermarkPercent ==>
      i + 1 < |t| && t[i + 1].Discovered?
  {
    hide Run, Step;
    CycleGoesOnExactly(g, t, report, i + 1);
    NotRefusedBefore(g, t, i + 1);
    NotRefusedBefore(g, t, i);
    PrefixStep(g, t, i);
    AcceptedKnowsAll(g, t[..i]);
    assert t[..i + 1] == t[..i] + [t[i]];
    Append(t[..i], t[i]);
    RecheckDecides(g, t[..i], Run(g, t[..i]), t[i]);
    if i == |t| - 1 {
      assert t[..i + 1] == t;
    } else {
      CallsAreOrdered(g, t, report, i);
    }
  }

  lemma RecheckDecides(g: Settings, t: seq<Event>, s: Cycle, e: Event)
    requires |t| >= 2 && KnowsAll(g, t, s) && e == HealthChecked(Ok(true)) && !Step(g, s, e).phase.Refused?
    ensures LastPercent(t).Some? && LastPercent(t + [e]) == LastPercent(t)
    ensures LastPercent(t).value <= g.config.targetWatermarkPercent ==>
      Step(g, s, e).report.stopReason == TargetWatermarkReached
  {
    Append(t, e);
  }

  // ---------- the rest of the report ----------

  /** The report names its backend and mode, and its initial usage is the first measurement. */
  predicate NamesItsRun(g: Settings, t: seq<Event>, r: RunReport) {
    && r.backend == g.kind && r.dryRun == g.config.dryRun
    && (r.initialUsage.Some? <==> |t| >= 2 && t[1].UsageCollected? && t[1].usage.Ok?)
    && (r.initialUsage.Some? ==> r.initialUsage == Some(t[1].usage.value))
  }

  lemma {:induction false} RunNamesItself(g: Settings, t: seq<Event>)
    requires !Run(g, t).phase.Refused?
    ensures NamesItsRun(g, t, Run(g, t).report)
  {
    hide Step;
    if t != [] {
      var front := t[..|t| - 1];
      StepFromDead(g, Run(g, front), Last(t));
      RunNamesItself(g, front);
      RunFitsPhase(g, front);
      StepNamesRun(g, front, Run(g, front), Last(t));
      assert t == front + [Last(t)];
    }
  }

  lemma StepNamesRun(g: Settings, t: seq<Event>, s: Cycle, e: Event)
    requires NamesItsRun(g, t, s.report) && PhaseFits(g, t, s) && Alive(s) && !Step(g, s, e).phase.Refused?
    ensures NamesItsRun(g, t + [e], Step(g, s, e).report)
  {
    hide Planner.PlanOf, Executor.RealActions, Executor.BatchReport;
    Append(t, e);
    assert |t| >= 2 ==> (t + [e])[1] == t[1];
  }

  lemma ReportNamesItsRun(g: Settings, t: seq<Event>, report: RunReport)
    requires IsCycle(g, t, report)
    ensures report.backend == g.kind && report.dryRun == g.config.dryRun
    ensures report.initialUsage
            == if |t| >= 2 && t[1].UsageCollected? && t[1].usage.Ok? then Some(t[1].usage.value) else None
  {
    RunNamesItself(g, t);
  }

  /** A run ended by failures reports the error of the first action that failed. */
  lemma FirstFailureIsReported(g: Settings, t: seq<Event>, report: RunReport, k: nat)
    requires g.limit >= 1 && IsCycle(g, t, report) && report.stopReason == ExecutionFailuresDetected
    requires k < |OutcomesSince(t)| && Executor.Fails(OutcomesSince(t)[k])
    requires forall j :: 0 <= j < k ==> !Executor.Fails(OutcomesSince(t)[j])
    ensures report.lastError.Some?
    ensures match OutcomesSince(t)[k]
            case Returned(result) => report.lastError == Some(result.error)
            case _ => report.lastError.value.ExecutionError? && report.lastError.value.backend == g.kind
  {
    hide Run, Step, Justified;
    FirstCallIsHealth(g, t, report);
    var n := |t| - 1;
    FailuresEndWithABatch(g, t, report);
    NotRefusedBefore(g, t, n);
    PrefixStep(g, t, n);
    assert t[..n + 1] == t;
    AcceptedKnowsAll(g, t[..n]);
    assert t == t[..n] + [t[n]];
    LastBatchDecides(g, t[..n], Run(g, t[..n]), t[n], k);
  }

  lemma FailuresEndWithABatch(g: Settings, t: seq<Event>, report: RunReport)
    requires IsCycle(g, t, report) && report.stopReason == ExecutionFailuresDetected
    ensures t != [] && Last(t).Executed?
  {
    StopReasonIsJustified(g, t, report);
  }

  lemma LastBatchDecides(g: Settings, t: seq<Event>, s: Cycle, e: Event, k: nat)
    requires KnowsAll(g, t, s) && e.Executed? && Step(g, s, e).phase.Stopped?
    requires
      var outcomes := OutcomesSince(t) + [e.outcome];
      && k < |outcomes| && Executor.Fails(outcomes[k]) && forall j :: 0 <= j < k ==> !Executor.Fails(outcomes[j])
    ensures OutcomesSince(t + [e]) == OutcomesSince(t) + [e.outcome]
    ensures
      var error := Step(g, s, e).report.lastError;
      && error.Some?
      && match (OutcomesSince(t) + [e.outcome])[k]
         case Returned(result) => error == Some(result.error)
         case _ => error.value.ExecutionError? && error.value.backend == g.kind
  {
    hide Planner.PlanOf, Executor.RealActions, Executor.BatchReport;
    Append(t, e);
    ExecutedIsNext(g, s, e);
    PlanIsFor(g, LastFound(t));
    var plan := s.phase.plan;
    Executor.FirstFailureIsFirst(plan.backend, plan.dryRun, plan.actions, OutcomesSince(t) + [e.outcome], k);
  }

  lemma PlanIsFor(g: Settings, cs: seq<CandidateArtifact>)
    ensures Planner.PlanOf(g.config, g.kind, cs).backend == g.kind
  {
  }
}
