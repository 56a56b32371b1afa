/** Laws that span the pipeline: discovery, policy, planner, scheduler and execution. */
module EndToEnd {
  import opened Wrappers
  import opened Domain
  import opened Backend
  import opened Scheduler
  import BuildCache
  import Config
  import ContainerRuntime
  import Discovery
  import DockerBackend
  import Planner
  import PodmanBackend
  import Policy
  import SchedulerLaws
  import Text

  // ---------- the cache: from the table to the prune ----------

  lemma {:induction false} OneActionIsPartOfTheSum(actions: seq<PlannedAction>, k: nat)
    requires k < |actions| && actions[k].candidate.sizeBytes.Some?
    ensures actions[k].candidate.sizeBytes.value <= Planner.KnownBytes(actions)
  {
    if k < |actions| - 1 {
      OneActionIsPartOfTheSum(actions[..|actions| - 1], k);
    }
  }

  /** A cache discovered from a table, planned under any configuration and pruned under any
      command trace of the adapter gives up at most its planned size, which is positive and
      within both the discovered size and the delete cap; also when the cache has grown or
      shrunk in between, as long as its true size fits in 64 bits. */
  lemma CacheReclaimIsBounded(
      inv: Discovery.Inventory, config: CleanupConfig, cs: seq<CandidateArtifact>, k: nat,
      rows: seq<ContainerRuntime.CacheRow>, discoveredAt: u64,
      executedAt: u64, t: seq<ContainerRuntime.Exchange>, i: nat, reclaimed: nat)
    requires Discovery.IsDockerInventory(inv)
    requires BuildCache.IsDiscoveredCache(rows, discoveredAt, config.minUnusedAgeDays, inv.cache)
    requires forall j :: 0 <= j < |cs| ==> Discovery.ComesFrom(inv, config, cs[j])
    requires k < |Planner.PlanOf(config, Docker, cs).actions|
    requires Planner.PlanOf(config, Docker, cs).actions[k].candidate.resourceKind.BuildCache?
    requires DockerBackend.PrunesWithinBudget(Planner.PlanOf(config, Docker, cs).actions[k].candidate, executedAt, t)
    requires i < |t| && t[i].Pruned? && t[0].CacheListed? && t[0].rows.Ok?
    requires
      var planned := Planner.PlanOf(config, Docker, cs).actions[k].candidate;
      var prunable := DockerBackend.PrunableBytes(t[0].rows.value, executedAt, planned);
      prunable <= U64_MAX && BuildCache.MayReclaim(t[i].limit, prunable, reclaimed)
    ensures
      var planned := Planner.PlanOf(config, Docker, cs).actions[k].candidate;
      && inv.cache.Some? && inv.cache.value.sizeBytes.Some? && planned.sizeBytes.Some?
      && reclaimed <= planned.sizeBytes.value
      && 0 < planned.sizeBytes.value <= inv.cache.value.sizeBytes.value
      && planned.sizeBytes.value <= Planner.DeleteCap(config)
  {
    hide DockerBackend.PrunableBytes, BuildCache.MayReclaim, BuildCache.IsDiscoveredCache,
         DockerBackend.PrunesWithinBudget, Planner.DecisionOn;
    Discovery.PlanSparesBusyResources(inv, config, cs, Docker, k);
    forall j | 0 <= j < |cs| && cs[j].resourceKind.BuildCache? ensures cs[j] == inv.cache.value {
      assert Discovery.ComesFrom(inv, config, cs[j]);
    }
    BuildCache.PlannedCacheHasBudget(config, rows, discoveredAt, config.minUnusedAgeDays, inv.cache.value, cs, k);
    var planned := Planner.PlanOf(config, Docker, cs).actions[k].candidate;
    DockerBackend.PruneReclaimsAtMostPlanned(planned, executedAt, t, i, reclaimed);
    OneActionIsPartOfTheSum(Planner.PlanOf(config, Docker, cs).actions, k);
    Planner.PlanStaysWithinCap(config, Docker, cs);
  }

  // ---------- draining a lone cache ----------

  /** A discovery at one time and the execution it leads to, at the same time or later. */
  datatype Round = Round(
    seen: u64, done: u64, candidate: CandidateArtifact, response: ExecutionResponse,
    commands: seq<ContainerRuntime.Exchange>)

  /** One round on a table of one row: discovered, planned and pruned by the adapter's own
      commands, with an engine that keeps exactly the bytes it is told to keep. */
  predicate IsRound(config: CleanupConfig, before: ContainerRuntime.CacheRow, r: Round, after: ContainerRuntime.CacheRow) {
    && r.seen <= r.done
    && BuildCache.IsDiscoveredCache([before], r.seen, config.minUnusedAgeDays, Some(r.candidate))
    && var actions, t := Planner.PlanOf(config, Docker, [r.candidate]).actions, r.commands;
       && |actions| == 1
       && DockerBackend.IsExecution(Docker, actions[0], false, r.done, Ok(r.response), t)
       && t != [] && t[0] == ContainerRuntime.CacheListed(Ok([before]))
       && t[|t| - 1].Pruned?
       && after == before.(size := Some(BuildCache.KeptBytes(t[|t| - 1].limit)))
  }

  /** The cache as each round of a drain leaves it. */
  predicate IsDrain(config: CleanupConfig, rows: seq<ContainerRuntime.CacheRow>, rounds: seq<Round>) {
    && |rows| == |rounds| + 1
    && forall i :: 0 <= i < |rounds| ==> IsRound(config, rows[i], rounds[i], rows[i + 1])
  }

  lemma OneEligibleRow(row: ContainerRuntime.CacheRow, now: u64, minAge: u64)
    ensures BuildCache.EligibleRows([row], now, minAge) == if BuildCache.IsEligible(row, now, minAge) then [row] else []
    ensures row.size.Some? ==> BuildCache.TrueBytes([row]) == row.size.value
  {
    assert [row][..0] == [];
  }

  /** Every round takes one cap off the cache, or what is left of it. */
  lemma RoundTakesCap(
      config: CleanupConfig, before: ContainerRuntime.CacheRow, r: Round, after: ContainerRuntime.CacheRow)
    requires !config.dryRun && Planner.DeleteCap(config) > 0 && before.size.Some?
    requires IsRound(config, before, r, after)
    ensures before.size.value > 0
    ensures after.size == Some(SaturatingSub(before.size.value, Planner.DeleteCap(config)))
  {
    hide BuildCache.EligibleRows, BuildCache.TrueBytes, BuildCache.AgeOf, Planner.PlanOf, BuildCache.KnownAges;
    Planner.PlannedActionsAreEligible(config, Docker, [r.candidate], 0);
    var action := Planner.PlanOf(config, Docker, [r.candidate]).actions[0];
    Policy.SizeIsIrrelevant(config, r.candidate, action.candidate.sizeBytes);
    Policy.AcceptanceIsExact(config, r.candidate);
    BuildCache.ThresholdSelectsAll([before], r.seen, config.minUnusedAgeDays, r.candidate);
    BuildCache.LoneCacheIsPlanned(config, r.candidate);
    OneEligibleRow(before, r.seen, config.minUnusedAgeDays);
    OneEligibleRow(before, r.seen, r.candidate.ageDays.value);
    OneEligibleRow(before, r.done, r.candidate.ageDays.value);
    BuildCache.AgesNeverShrink(before, r.seen, r.done);
    PruneKeepsBudget(action.candidate, r.done, r.commands, before, r.response);
  }

  lemma PruneKeepsBudget(
      planned: CandidateArtifact, now: u64, t: seq<ContainerRuntime.Exchange>, row: ContainerRuntime.CacheRow,
      response: ExecutionResponse)
    requires t != [] && t[0] == ContainerRuntime.CacheListed(Ok([row])) && t[|t| - 1].Pruned? && row.size.Some?
    requires planned.sizeBytes.Some? && planned.sizeBytes.value > 0
    requires DockerBackend.PrunesWithinBudget(planned, now, t)
    requires DockerBackend.PrunableBytes([row], now, planned) == row.size.value
    ensures BuildCache.KeptBytes(t[|t| - 1].limit) == SaturatingSub(row.size.value, planned.sizeBytes.value)
  {
    hide DockerBackend.PrunableBytes;
  }

  /** And there is always a next round while anything eligible is left. */
  lemma NextRoundExists(config: CleanupConfig, seen: u64, done: u64, row: ContainerRuntime.CacheRow)
      returns (r: Round, after: ContainerRuntime.CacheRow)
    requires !config.dryRun && Planner.DeleteCap(config) > 0 && seen <= done
    requires BuildCache.IsEligible(row, seen, config.minUnusedAgeDays)
    requires row.size.Some? && row.size.value > 0
    ensures IsRound(config, row, r, after) && r.seen == seen && r.done == done
    ensures BuildCache.IsEligible(after, done, config.minUnusedAgeDays)
  {
    hide BuildCache.AgeOf, Planner.PlanOf;
    var minAge := config.minUnusedAgeDays;
    var age := BuildCache.AgeOf(row, seen).value;
    BuildCache.AgesNeverShrink(row, seen, done);
    OneEligibleRow(row, seen, minAge);
    OneEligibleRow(row, done, age);
    OneKnownAge(row, seen);
    var candidate := BuildCache.CacheCandidate(row.size.value, Some(age), true);
    Policy.AcceptanceIsExact(config, candidate);
    BuildCache.LoneCacheIsPlanned(config, candidate);
    var planned := Planner.PlanOf(config, Docker, [candidate]).actions[0].candidate;
    var budget := BuildCache.KeepBudget(row.size.value, planned.sizeBytes.value);
    var limit := if budget.Some? then ContainerRuntime.MaxUsedSpace(budget.value) else ContainerRuntime.Unlimited;
    var t := [ContainerRuntime.CacheListed(Ok([row])),
              ContainerRuntime.Pruned(DockerBackend.UntilHours(planned), limit, None)];
    r := Round(seen, done, candidate, ExecutionResponse(Docker, planned, true, false), t);
    after := row.(size := Some(BuildCache.KeptBytes(limit)));
    SameAge(row, after, done);
  }

  lemma OneKnownAge(row: ContainerRuntime.CacheRow, now: u64)
    requires row.size.Some? && BuildCache.AgeOf(row, now).Some?
    ensures BuildCache.KnownAges([row], now) == [BuildCache.AgeOf(row, now).value]
  {
    assert [row][..0] == [];
  }

  lemma SameAge(row: ContainerRuntime.CacheRow, after: ContainerRuntime.CacheRow, now: u64)
    requires after == row.(size := after.size)
    ensures BuildCache.AgeOf(after, now) == BuildCache.AgeOf(row, now)
  {
  }

  function CeilingOf(size: nat, cap: nat): nat
    requires cap > 0
  {
    (size + cap - 1) / cap
  }

  lemma CapByCap(size: u64, cap: u64)
    requires cap > 0
    ensures CeilingOf(size, cap) == if size == 0 then 0 else 1 + CeilingOf(SaturatingSub(size, cap), cap)
  {
    BuildCache.CeilingRounds(size, cap);
    BuildCache.CeilingRounds(0, cap);
  }

  /** Bounded progress: rounds of discovery, planning and pruning, at whatever times, empty a
      cache of S bytes under a cap of C after exactly ceil(S / C) of them. */
  lemma {:induction false} DrainTakesCeilingRounds(
      config: CleanupConfig, rows: seq<ContainerRuntime.CacheRow>, rounds: seq<Round>)
    requires !config.dryRun && Planner.DeleteCap(config) > 0
    requires IsDrain(config, rows, rounds)
    requires rows[0].size.Some? && rows[|rows| - 1].size == Some(0)
    ensures |rounds| == CeilingOf(rows[0].size.value, Planner.DeleteCap(config))
    decreases |rows|
  {
    hide IsRound, CeilingOf, Planner.DeleteCap;
    CapByCap(rows[0].size.value, Planner.DeleteCap(config));
    if |rows| > 1 {
      RoundTakesCap(config, rows[0], rounds[0], rows[1]);
      DrainTakesCeilingRounds(config, rows[1..], rounds[1..]);
    }
  }

  /** Readings of a clock that is not set back: for each round its discovery and its
      execution. */
  predicate IsClock(times: seq<(u64, u64)>) {
    forall i :: 0 <= i < |times| ==>
      times[i].0 <= times[i].1 && (i + 1 < |times| ==> times[i].1 <= times[i + 1].0)
  }

  /** Such a drain exists from every eligible cache and at all times: ceil(S / C) rounds,
      whenever they take place, can bring it to zero. */
  lemma {:induction false} DrainEmptiesCache(config: CleanupConfig, times: seq<(u64, u64)>, row: ContainerRuntime.CacheRow)
      returns (rows: seq<ContainerRuntime.CacheRow>, rounds: seq<Round>)
    requires !config.dryRun && Planner.DeleteCap(config) > 0 && row.size.Some? && IsClock(times)
    requires |times| == CeilingOf(row.size.value, Planner.DeleteCap(config))
    requires times != [] ==> BuildCache.IsEligible(row, times[0].0, config.minUnusedAgeDays)
    ensures IsDrain(config, rows, rounds) && |rows| == |rounds| + 1
    ensures rows[0] == row && rows[|rows| - 1].size == Some(0)
    ensures |rounds| == |times|
    ensures forall i :: 0 <= i < |times| ==> (rounds[i].seen, rounds[i].done) == times[i]
    decreases |times|
  {
    hide IsRound, IsDrain, IsClock, CeilingOf, Planner.DeleteCap, BuildCache.IsEligible;
    CapByCap(row.size.value, Planner.DeleteCap(config));
    if times == [] {
      rows, rounds := [row], [];
      NoRounds(config, row);
    } else {
      ClockReads(times);
      ClockGoesOn(times);
      var r, after := NextRoundExists(config, times[0].0, times[0].1, row);
      RoundTakesCap(config, row, r, after);
      if |times| > 1 {
        StaysEligible(after, times[0].1, times[1].0, config.minUnusedAgeDays);
      }
      var laterRows, laterRounds := DrainEmptiesCache(config, times[1..], after);
      DrainMore(config, row, r, laterRows, laterRounds);
      rows, rounds := [row] + laterRows, [r] + laterRounds;
      forall i | 0 <= i < |times| ensures (rounds[i].seen, rounds[i].done) == times[i] {
        if i > 0 {
          assert rounds[i] == laterRounds[i - 1] && times[i] == times[1..][i - 1];
        }
      }
    }
  }

  lemma DrainMore(config: CleanupConfig, row: ContainerRuntime.CacheRow, r: Round,
                  rows: seq<ContainerRuntime.CacheRow>, rounds: seq<Round>)
    requires IsDrain(config, rows, rounds) && IsRound(config, row, r, rows[0])
    ensures IsDrain(config, [row] + rows, [r] + rounds)
  {
    hide IsRound;
    var allRows, allRounds := [row] + rows, [r] + rounds;
    forall i | 0 <= i < |allRounds| ensures IsRound(config, allRows[i], allRounds[i], allRows[i + 1]) {
      if i > 0 {
        assert IsRound(config, rows[i - 1], rounds[i - 1], rows[i - 1 + 1]);
      }
    }
  }

  lemma NoRounds(config: CleanupConfig, row: ContainerRuntime.CacheRow)
    ensures IsDrain(config, [row], [])
  {
  }

  lemma ClockReads(times: seq<(u64, u64)>)
    requires IsClock(times) && times != []
    ensures times[0].0 <= times[0].1 && (|times| > 1 ==> times[0].1 <= times[1].0)
  {
  }

  lemma ClockGoesOn(times: seq<(u64, u64)>)
    requires IsClock(times) && times != []
    ensures IsClock(times[1..])
  {
    forall i | 0 <= i < |times[1..]|
      ensures times[1..][i].0 <= times[1..][i].1 && (i + 1 < |times[1..]| ==> times[1..][i].1 <= times[1..][i + 1].0)
    {
      assert times[1..][i] == times[i + 1];
    }
  }

  lemma StaysEligible(row: ContainerRuntime.CacheRow, now: u64, later: u64, minAge: u64)
    requires now <= later && BuildCache.IsEligible(row, now, minAge)
    ensures BuildCache.IsEligible(row, later, minAge)
  {
    BuildCache.AgesNeverShrink(row, now, later);
  }

  // ---------- executed actions: from the listing to the delete ----------

  /** Every successful discovery of the run was built from some inventory. */
  predicate DiscoversFrom(t: seq<Event>, config: CleanupConfig, invs: seq<Discovery.Inventory>) {
    && |invs| == |t|
    && forall j :: 0 <= j < |t| && t[j].Discovered? && t[j].found.Ok? ==>
         forall k :: 0 <= k < |t[j].found.value| ==>
           Discovery.ComesFrom(invs[j], config, t[j].found.value[k])
  }

  lemma {:induction false} LatestDiscovery(t: seq<Event>) returns (j: nat)
    requires SchedulerLaws.LastFound(t) != []
    ensures j < |t| && t[j].Discovered? && t[j].found == Ok(SchedulerLaws.LastFound(t))
    ensures forall k :: j < k < |t| ==> !(t[k].Discovered? && t[k].found.Ok?)
  {
    var last := t[|t| - 1];
    if last.Discovered? && last.found.Ok? {
      j := |t| - 1;
    } else {
      j := LatestDiscovery(t[..|t| - 1]);
    }
  }

  /** Whatever a backend answers, each resource the scheduler asks it to delete was free in
      the listing behind the latest discovery of that very run. */
  lemma ExecutedResourceWasFree(
      g: Settings, t: seq<Event>, report: RunReport, invs: seq<Discovery.Inventory>, i: nat) returns (j: nat)
    requires IsCycle(g, t, report) && DiscoversFrom(t, g.config, invs)
    requires i < |t| && t[i].Executed?
    ensures j < i && t[j].Discovered? && t[j].found.Ok?
    ensures forall k :: j < k < i ==> !(t[k].Discovered? && t[k].found.Ok?)
    ensures
      var c, containers := t[i].action.candidate, invs[j].containers;
      match c.resourceKind
      case Container =>
        exists k :: 0 <= k < |containers|
          && containers[k].id == c.identifier && containers[k].running == Some(false)
      case Image =>
        forall k :: 0 <= k < |containers| ==>
          ContainerRuntime.NormalizeImageId(containers[k].imageId)
          != ContainerRuntime.NormalizeImageId(c.identifier)
      case Volume => forall k :: 0 <= k < |containers| ==> c.identifier !in containers[k].mountNames
      case BuildCache => invs[j].cache.Some?
      case UnknownKind(_) => false
  {
    hide Run, IsCycle, Planner.Eligible;
    SchedulerLaws.OnlyPlannedActionsExecute(g, t, report, i);
    var cs := SchedulerLaws.LastFound(t[..i]);
    j := LatestDiscovery(t[..i]);
    assert t[..i][j] == t[j];
    assert forall k :: 0 <= k < |cs| ==> Discovery.ComesFrom(invs[j], g.config, cs[k]);
    var n :| 0 <= n < |Planner.PlanOf(g.config, g.kind, cs).actions|
             && Planner.PlanOf(g.config, g.kind, cs).actions[n] == t[i].action;
    Discovery.PlanSparesBusyResources(invs[j], g.config, cs, g.kind, n);
    forall k | j < k < i ensures !(t[k].Discovered? && t[k].found.Ok?) {
      assert t[..i][k] == t[k];
    }
  }

  // ---------- a whole run over an adapter ----------

  /** The command trace behind an execute call, in either adapter. */
  predicate IsExecutedBy(kind: BackendKind, action: PlannedAction, now: u64,
                         r: Result<ExecutionResponse, CleanupError>, commands: seq<ContainerRuntime.Exchange>) {
    if kind == Docker then DockerBackend.IsExecution(kind, action, false, now, r, commands)
    else PodmanBackend.IsExecution(kind, action, false, r, commands)
  }

  /** Each execute call of the run went through the adapter at a time when nothing else
      changed the engine; between calls the engine may change in any way. */
  predicate RunsOver(g: Settings, t: seq<Event>, nows: seq<u64>, results: seq<Result<ExecutionResponse, CleanupError>>,
                     commands: seq<seq<ContainerRuntime.Exchange>>, engines: seq<seq<ContainerRuntime.LiveContainer>>) {
    && |nows| == |results| == |commands| == |engines| == |t|
    && forall i :: 0 <= i < |t| && t[i].Executed? ==>
         && IsExecutedBy(g.kind, t[i].action, nows[i], results[i], commands[i])
         && forall k :: 0 <= k < |commands[i]| ==> ContainerRuntime.Truthful(engines[i], commands[i][k])
  }

  /** Scheduler and adapter together: whatever a run removes was at that moment in use by no
      container, and is the very resource of an eligible action planned for the latest
      discovery. In dry mode nothing is removed. */
  lemma RunSparesBusyResources(
      g: Settings, t: seq<Event>, report: RunReport, nows: seq<u64>, results: seq<Result<ExecutionResponse, CleanupError>>,
      commands: seq<seq<ContainerRuntime.Exchange>>, engines: seq<seq<ContainerRuntime.LiveContainer>>, i: nat, k: nat)
    requires IsCycle(g, t, report) && RunsOver(g, t, nows, results, commands, engines)
    requires i < |t| && t[i].Executed? && k < |commands[i]| && commands[i][k].Removed?
    ensures !ContainerRuntime.InUse(engines[i], commands[i][k].kind, commands[i][k].target)
    ensures commands[i][k].kind == t[i].action.candidate.resourceKind
    ensures commands[i][k].target == t[i].action.candidate.identifier
    ensures t[i].action in Planner.PlanOf(g.config, g.kind, SchedulerLaws.LastFound(t[..i])).actions
    ensures Planner.Eligible(g.config, g.kind, t[i].action.candidate) && !g.config.dryRun
  {
    hide IsCycle, ContainerRuntime.InUse, ContainerRuntime.ProvesSafe, ContainerRuntime.Truthful,
         ContainerRuntime.Obstructed, Planner.PlanOf, Planner.Eligible;
    SchedulerLaws.OnlyPlannedActionsExecute(g, t, report, i);
    var c := t[i].action.candidate;
    assert !ContainerRuntime.NoRemoval(commands[i]);
    assert ContainerRuntime.RemovesOnceProven(g.kind == Docker, c.resourceKind, c.identifier, commands[i]);
    ContainerRuntime.RemovalSparesBusyResources(g.kind == Docker, engines[i], c.resourceKind, c.identifier, commands[i], k);
    OnlyLastIsRemoval(g.kind == Docker, c.resourceKind, c.identifier, commands[i], k);
  }

  lemma OnlyLastIsRemoval(lenient: bool, kind: ResourceKind, id: string, t: seq<ContainerRuntime.Exchange>, k: nat)
    requires ContainerRuntime.RemovesOnceProven(lenient, kind, id, t) && k < |t| && t[k].Removed?
    ensures t[k].kind == kind && t[k].target == id
  {
    var front := t[..|t| - 1];
    assert forall j :: 0 <= j < |front| ==> front[j] == t[j];
  }

  // ---------- from the configuration text to the run ----------

  /** What the daemon hands to the scheduler. */
  function CleanupConfigOf(c: Config.Config): CleanupConfig {
    CleanupConfig(c.intervalSecs, c.highWatermarkPercent, c.targetWatermarkPercent, c.minUnusedAgeDays,
                  c.maxDeletePerRunGb, c.dryRun, c.protectedImages, c.protectedVolumes, c.protectedLabels)
  }

  /** For a configuration read from any text, a run that reports its target reached has
      worked at least one round and has brought the percent from the high watermark or
      above down to the target. */
  lemma LoadedTargetIsReal(input: string, c: Config.Config, g: Settings, t: seq<Event>, report: RunReport)
    requires Config.ParseStr(input) == Ok(c) && g.config == CleanupConfigOf(c)
    requires IsCycle(g, t, report) && report.stopReason == TargetWatermarkReached
    ensures report.iterations >= 1 && report.cleanupStarted
    ensures report.initialUsage.Some? && report.initialUsage.value.PercentUsed().Some?
    ensures report.finalUsage.Some? && report.finalUsage.value.PercentUsed().Some?
    ensures report.finalUsage.value.PercentUsed().value <= c.targetWatermarkPercent
            < c.highWatermarkPercent <= report.initialUsage.value.PercentUsed().value
  {
    hide IsCycle;
    LoadedConfigIsValid(input, c);
    SchedulerLaws.TargetReachedIsReal(g, t, report);
    SchedulerLaws.StopReasonIsJustified(g, t, report);
  }

  /** Whatever text is accepted, its watermarks are in order and its interval is positive. */
  lemma LoadedConfigIsValid(input: string, c: Config.Config)
    requires Config.ParseStr(input) == Ok(c)
    ensures Config.IsValid(c)
    ensures 0 <= c.targetWatermarkPercent < c.highWatermarkPercent <= 100 && c.intervalSecs > 0
    ensures c.dockerHost.None? || c.dockerContext.None?
    ensures c.dockerHost.Some? ==> Text.Trim(c.dockerHost.value) != ""
    ensures c.dockerContext.Some? ==> Text.Trim(c.dockerContext.value) != ""
  {
    hide Config.FromEntries;
    var entries := Config.EntriesBehind(input, c);
    Config.FromEntriesIsExact(entries, c);
  }

  /** The limits written in a configuration hold for every plan made under it: its lists
      protect, its age counts, its gigabytes cap, its mode is the plan's. */
  lemma LoadedLimitsHold(input: string, c: Config.Config, backend: BackendKind, cs: seq<CandidateArtifact>, k: nat)
    requires Config.ParseStr(input) == Ok(c)
    requires k < |Planner.PlanOf(CleanupConfigOf(c), backend, cs).actions|
    ensures
      var actions := Planner.PlanOf(CleanupConfigOf(c), backend, cs).actions;
      var a := actions[k].candidate;
      && (a.resourceKind.Image? ==>
            !Policy.Lists(c.protectedImages, a.identifier)
            && (a.displayName.Some? ==> !Policy.Lists(c.protectedImages, a.displayName.value)))
      && (a.resourceKind.Volume? ==>
            !Policy.Lists(c.protectedVolumes, a.identifier)
            && (a.displayName.Some? ==> !Policy.Lists(c.protectedVolumes, a.displayName.value)))
      && (forall tag :: tag in a.labels ==> !Policy.Lists(c.protectedLabels, tag))
      && a.ageDays.Some? && a.ageDays.value >= c.minUnusedAgeDays
      && actions[k].dryRun == c.dryRun
      && Planner.KnownBytes(actions) <= (c.maxDeletePerRunGb as int) * 1_073_741_824
  {
    hide Policy.Lists;
    var config := CleanupConfigOf(c);
    Planner.PlannedActionsAreEligible(config, backend, cs, k);
    Policy.AcceptanceByName(config, Planner.PlanOf(config, backend, cs).actions[k].candidate);
    Planner.PlanStaysWithinCap(config, backend, cs);
  }
}
