/** Execution in src/docker_backend.rs: the guards, the fallback reference scan, the prune
    and the delete, each against a recorded command runner. */
module DockerBackend {
  import opened Wrappers
  import opened Domain
  import opened ContainerRuntime
  import BuildCache
  import Text

  predicate IsMissingDeleteTarget(kind: ResourceKind, message: string) {
    match kind
    case Container => Text.Contains(message, "No such container")
    case Image => Text.Contains(message, "No such image")
    case Volume => Text.Contains(message, "No such volume")
    case _ => false
  }

  /** Removed, or already gone. */
  predicate RemovalSettled(kind: ResourceKind, failure: Option<string>) {
    failure.None? || IsMissingDeleteTarget(kind, failure.value)
  }

  predicate IsUnknownMaxUsedSpaceFlag(message: string) {
    Text.Contains(message, "unknown flag: --max-used-space")
  }

  /** The prunes in `t`: at most two, each with a limit for the planned bytes, the second
      only after the engine rejected the first one's flag. */
  predicate PrunesWithinBudget(candidate: CandidateArtifact, now: u64, t: seq<Exchange>) {
    forall i :: 0 <= i < |t| && t[i].Pruned? ==>
      && t[i].untilHours == UntilHours(candidate)
      && (i + 1 < |t| ==> t[i].outcome.Some?)
      && (if candidate.sizeBytes.Some? && candidate.sizeBytes.value > 0 then
            && t[0].CacheListed? && t[0].rows.Ok?
            && (forall j :: 0 <= j < |t[0].rows.value| ==>
                  BuildCache.IsReadable(t[0].rows.value[j], now, MinAge(candidate)))
            && BuildCache.IsBudgetLimit(
                 t[i].limit,
                 BuildCache.KeepBudget(
                   BuildCache.Saturated(PrunableBytes(t[0].rows.value, now, candidate)),
                   candidate.sizeBytes.value))
          else t[i].limit.Unlimited?)
  }

  /** Only a rejected flag leads to the fallback prune, with the same budget. */
  predicate IsFallback(first: Exchange, second: Exchange) {
    && first.Pruned? && first.outcome.Some? && IsUnknownMaxUsedSpaceFlag(first.outcome.value)
    && first.limit.MaxUsedSpace? && second.Pruned? && second.limit == KeepStorage(first.limit.bytes)
  }

  /** How a prune ends: by its last command's success, or because that command failed with
      no fallback left, or because the cache could not be read in full. */
  predicate PruneEnds(candidate: CandidateArtifact, now: u64, t: seq<Exchange>, ok: bool) {
    && t != []
    && (forall i :: 0 <= i < |t| && t[i].Pruned? && t[i].limit.KeepStorage? ==> i > 0 && IsFallback(t[i - 1], t[i]))
    && var last := t[|t| - 1];
       || (last.CacheListed? && !ok
           && (last.rows.Err?
               || exists i :: 0 <= i < |last.rows.value|
                    && !BuildCache.IsReadable(last.rows.value[i], now, MinAge(candidate))))
       || (last.Pruned? && ok == last.outcome.None?
           && (last.limit.MaxUsedSpace? && last.outcome.Some? ==>
                 !IsUnknownMaxUsedSpaceFlag(last.outcome.value)))
  }

  function MinAge(candidate: CandidateArtifact): u64 {
    if candidate.ageDays.Some? then candidate.ageDays.value else 0
  }

  function UntilHours(candidate: CandidateArtifact): Option<u64> {
    if MinAge(candidate) > 0 then Some(SaturatingMul(MinAge(candidate), 24)) else None
  }

  /** Exact bytes of the rows a prune for this candidate may touch. */
  function PrunableBytes(rows: seq<CacheRow>, now: u64, candidate: CandidateArtifact): nat {
    BuildCache.TrueBytes(BuildCache.EligibleRows(rows, now, MinAge(candidate)))
  }

  /** Every command trace of an execution. A dry run issues no command at all. Otherwise a
      container, image or volume is removed exactly when the guard's answers prove it safe
      and refused exactly when one of them is an obstacle; a removal is the last command
      and for this resource only. The cache is pruned only within its budget. */
  predicate IsExecution(
      backend: BackendKind, action: PlannedAction, dryRunMode: bool, now: u64,
      r: Result<ExecutionResponse, CleanupError>, t: seq<Exchange>)
  {
    if backend != Docker then t == [] && r == Err(UnsupportedBackend(backend))
    else if dryRunMode || action.dryRun then t == [] && r == Ok(ExecutionResponse(Docker, action.candidate, false, true))
    else
      var kind, id := action.candidate.resourceKind, action.candidate.identifier;
      && (r.Ok? ==> r.value == ExecutionResponse(Docker, action.candidate, true, false))
      && match kind
         case UnknownKind(_) => t == [] && r.Err?
         case BuildCache =>
           && NoRemoval(t) && PrunesWithinBudget(action.candidate, now, t)
           && (if id == BuildCache.CACHE_ID then PruneEnds(action.candidate, now, t, r.Ok?) else t == [] && r.Err?)
         case _ =>
           if NoRemoval(t) then
             NoMutation(t) && Obstructed(true, kind, id, t) && r.Err?
           else
             && RemovesOnceProven(true, kind, id, t)
             && (r.Ok? <==> RemovalSettled(kind, t[|t| - 1].outcome))
  }

  class Adapter {
    const runner: CommandRunner

    constructor (runner: CommandRunner)
      ensures this.runner == runner
    {
      this.runner := runner;
    }

    method EnsureContainerNotRunning(id: string) returns (r: Option<CleanupError>, ghost t: seq<Exchange>)
      modifies runner
      ensures runner.log == old(runner.log) + t
      ensures NoMutation(t)
      ensures r.None? <==> ProvesStopped(true, id, t)
      ensures r.Some? ==> Obstructed(true, Container, id, t)
      ensures |t| == 1 && t[0].ContainerInspected? && t[0].id == id
      ensures r.Some? ==> (r.value.SafetyViolation? <==> t[0].metadata.Ok?)
    {
      var inspect := runner.InspectContainer(id);
      t := [ContainerInspected(id, inspect)];
      match inspect {
        case Err(message) =>
          if IsMissingContainer(message) {
            return None, t;
          }
          return Some(ExecutionError(Docker, message)), t;
        case Ok(container) =>
          match container.running {
            case Some(running) =>
              r := if running then Some(CleanupError.SafetyViolation("refusing to delete running container")) else None;
            case None =>
              r := Some(CleanupError.SafetyViolation("running-state metadata is ambiguous"));
          }
      }
    }

    method EnsureImageNotReferenced(image: string) returns (r: Option<CleanupError>, ghost t: seq<Exchange>)
      modifies runner
      ensures runner.log == old(runner.log) + t
      ensures NoMutation(t)
      ensures r.None? <==> ProvesUnreferenced(true, image, t)
      ensures r.Some? ==> Obstructed(true, Image, image, t)
    {
      hide NormalizeImageId, IsUnsupportedImageIdTemplate, IsMissingContainer, ContainerClearsImage, ScanClearsImage;
      var listed := runner.ListImagesInUse();
      t := [ImagesInUseListed(listed)];
      var target := NormalizeImageId(image);
      var referenced: set<string>;
      if listed.Ok? {
        referenced := set k | 0 <= k < |listed.value| :: NormalizeImageId(listed.value[k]);
        assert target !in referenced <==> ListClears(image, listed.value);
      } else {
        if !IsUnsupportedImageIdTemplate(listed.error) {
          return Some(ExecutionError(Docker, listed.error)), t;
        }
        var error: Option<CleanupError>;
        ghost var scan: seq<Exchange>;
        error, referenced, scan := CollectReferencesPerContainer(image);
        FallbackDecides(image, t[0], scan);
        t := t + scan;
        if error.Some? {
          return error, t;
        }
      }
      r := if target in referenced then Some(CleanupError.SafetyViolation("refusing to delete referenced image"))
           else None;
    }

    /** The fallback: list the containers, then ask each one for its image. Fails closed on
        an unreadable reference; skips a container that has gone. `image` is only there for
        the contract. */
    method CollectReferencesPerContainer(ghost image: string)
      returns (error: Option<CleanupError>, referenced: set<string>, ghost t: seq<Exchange>)
      modifies runner
      ensures runner.log == old(runner.log) + t
      ensures NoMutation(t) && t != [] && t[0].ContainersListed?
      ensures (error.None? && NormalizeImageId(image) !in referenced)
              <==> ScanClearsImage(true, image, t)
      ensures !ScanClearsImage(true, image, t) ==> Obstructed(true, Image, image, t)
    {
      referenced := {};
      var listed := runner.ListContainers();
      t := [ContainersListed(listed)];
      if listed.Err? {
        return Some(ExecutionError(Docker, listed.error)), referenced, t;
      }
      var ids := listed.value;
      for i := 0 to |ids|
        invariant runner.log == old(runner.log) + t
        invariant |t| == 1 + i && t[0] == ContainersListed(Ok(ids)) && NoMutation(t)
        invariant forall k :: 0 <= k < i ==> AsksForImage(ids[k], t[1 + k])
        invariant NormalizeImageId(image) !in referenced
                  <==> forall k :: 0 <= k < i ==> ContainerClearsImage(true, image, ids[k], t[1 + k])
      {
        var answer := runner.InspectContainerImage(ids[i]);
        ghost var before := t;
        t := t + [ContainerImageInspected(ids[i], answer)];
        assert forall k :: 0 <= k < |before| ==> t[k] == before[k];
        match answer {
          case Err(message) =>
            if IsMissingContainer(message) {
              continue;
            }
            assert !ContainerClearsImage(true, image, ids[i], t[1 + i]);
            return Some(ExecutionError(Docker, message)), referenced, t;
          case Ok(reference) =>
            if reference.None? {
              assert !ContainerClearsImage(true, image, ids[i], t[1 + i]);
              return Some(ExecutionError(Docker, "empty image reference output")), referenced, t;
            }
            referenced := referenced + {NormalizeImageId(reference.value)};
        }
      }
      error := None;
    }

    /** Lists the containers and inspects each; one that vanished in between is skipped. */
    method CollectContainerMetadata(ghost volume: string)
      returns (error: Option<string>, containers: seq<ContainerMetadata>, ghost t: seq<Exchange>)
      modifies runner
      ensures runner.log == old(runner.log) + t
      ensures NoMutation(t) && t != [] && t[0].ContainersListed?
      ensures containers == MetadataIn(t)
      ensures (error.None? && forall k :: 0 <= k < |containers| ==> volume !in containers[k].mountNames)
              <==> ProvesUnattached(true, volume, t)
      ensures error.Some? ==> Obstructed(true, Volume, volume, t)
      ensures error.None? ==> InspectsAll(t)
    {
      hide MetadataIn, IsMissingContainer;
      containers := [];
      var listed := runner.ListContainers();
      t := [ContainersListed(listed)];
      MetadataMore([], t[0]);
      assert [] + t == t;
      if listed.Err? {
        return Some(listed.error), containers, t;
      }
      var ids := listed.value;
      for i := 0 to |ids|
        invariant runner.log == old(runner.log) + t && containers == MetadataIn(t)
        invariant |t| == 1 + i && t[0] == ContainersListed(Ok(ids)) && NoMutation(t)
        invariant forall k :: 0 <= k < i ==> Inspects(ids[k], t[1 + k])
        invariant (forall k :: 0 <= k < |containers| ==> volume !in containers[k].mountNames)
                  <==> forall k :: 0 <= k < i ==> ContainerClearsVolume(true, volume, ids[k], t[1 + k])
      {
        var inspect := runner.InspectContainer(ids[i]);
        ghost var before, known := t, containers;
        MetadataMore(t, ContainerInspected(ids[i], inspect));
        t := t + [ContainerInspected(ids[i], inspect)];
        assert forall k :: 0 <= k < |before| ==> t[k] == before[k];
        match inspect {
          case Ok(metadata) =>
            containers := containers + [metadata];
            assert containers[|known|] == metadata;
            assert forall k :: 0 <= k < |known| ==> containers[k] == known[k];
          case Err(message) =>
            if !IsMissingContainer(message) {
              assert !ContainerClearsVolume(true, volume, ids[i], t[1 + i]);
              return Some(message), containers, t;
            }
        }
      }
      error := None;
    }

    method EnsureVolumeNotAttached(volume: string) returns (r: Option<CleanupError>, ghost t: seq<Exchange>)
      modifies runner
      ensures runner.log == old(runner.log) + t
      ensures NoMutation(t)
      ensures r.None? <==> ProvesUnattached(true, volume, t)
      ensures r.Some? ==> Obstructed(true, Volume, volume, t)
    {
      var error, containers;
      error, containers, t := CollectContainerMetadata(volume);
      if error.Some? {
        return Some(ExecutionError(Docker, error.value)), t;
      }
      CompleteScanDecides(true, volume, t);
      var attached := exists k :: 0 <= k < |containers| && volume in containers[k].mountNames;
      r := if attached then Some(CleanupError.SafetyViolation("refusing to delete attached volume")) else None;
    }

    method PruneBuildCache(candidate: CandidateArtifact, now: u64)
      returns (r: Option<CleanupError>, ghost t: seq<Exchange>)
      modifies runner
      ensures runner.log == old(runner.log) + t
      ensures NoRemoval(t)
      ensures PrunesWithinBudget(candidate, now, t)
      ensures if candidate.identifier == BuildCache.CACHE_ID then PruneEnds(candidate, now, t, r.None?)
              else t == [] && r.Some?
    {
      hide BuildCache.EligibleRows, BuildCache.TrueBytes, Text.Contains;
      t := [];
      if candidate.identifier != BuildCache.CACHE_ID {
        return Some(ExecutionError(Docker, "unexpected build cache candidate identifier")), t;
      }
      var until := UntilHours(candidate);
      var budget: Option<u64> := None;
      if candidate.sizeBytes.Some? && candidate.sizeBytes.value > 0 {
        var listed := runner.ListCache();
        t := [CacheListed(listed)];
        if listed.Err? {
          return Some(ExecutionError(Docker, listed.error)), t;
        }
        var prunable := BuildCache.CollectPrunableBytes(listed.value, now, MinAge(candidate));
        if prunable.None? {
          return Some(ExecutionError(Docker, "failed to compute build cache prune budget")), t;
        }
        if prunable.value > candidate.sizeBytes.value {
          budget := Some(SaturatingSub(prunable.value, candidate.sizeBytes.value));
        }
      }

      var limit := if budget.Some? then MaxUsedSpace(budget.value) else Unlimited;
      var failure := runner.Prune(until, limit);
      t := t + [Pruned(until, limit, failure)];
      if failure.None? {
        return None, t;
      }
      if budget.Some? && IsUnknownMaxUsedSpaceFlag(failure.value) {
        var fallback := runner.Prune(until, KeepStorage(budget.value));
        t := t + [Pruned(until, KeepStorage(budget.value), fallback)];
        if fallback.None? {
          return None, t;
        }
        return Some(ExecutionError(Docker, fallback.value)), t;
      }
      return Some(ExecutionError(Docker, failure.value)), t;
    }

    /** One remove command; a target already gone counts as deleted. */
    method DeleteResource(kind: ResourceKind, id: string) returns (r: Option<CleanupError>, ghost t: seq<Exchange>)
      requires kind.Container? || kind.Image? || kind.Volume?
      modifies runner
      ensures runner.log == old(runner.log) + t
      ensures |t| == 1 && t[0].Removed? && t[0].kind == kind && t[0].target == id
      ensures r.None? <==> RemovalSettled(kind, t[0].outcome)
    {
      var failure := runner.Remove(kind, id);
      t := [Removed(kind, id, failure)];
      r := if failure.None? || IsMissingDeleteTarget(kind, failure.value) then None
           else Some(ExecutionError(Docker, failure.value));
    }

    /** The guard that fits the resource. */
    method EnsureSafe(kind: ResourceKind, id: string) returns (r: Option<CleanupError>, ghost t: seq<Exchange>)
      requires kind.Container? || kind.Image? || kind.Volume?
      modifies runner
      ensures runner.log == old(runner.log) + t
      ensures NoMutation(t)
      ensures r.None? <==> ProvesSafe(true, kind, id, t)
      ensures r.Some? ==> Obstructed(true, kind, id, t)
    {
      hide ProvesStopped, ProvesUnreferenced, ProvesUnattached, Obstructed;
      match kind {
        case Container => r, t := EnsureContainerNotRunning(id);
        case Image => r, t := EnsureImageNotReferenced(id);
        case Volume => r, t := EnsureVolumeNotAttached(id);
      }
    }

    /** The guard, then, if it found nothing, the delete. */
    method DeleteWhenSafe(kind: ResourceKind, id: string) returns (r: Option<CleanupError>, ghost t: seq<Exchange>)
      requires kind.Container? || kind.Image? || kind.Volume?
      modifies runner
      ensures runner.log == old(runner.log) + t
      ensures if NoRemoval(t) then NoMutation(t) && Obstructed(true, kind, id, t) && r.Some?
              else RemovesOnceProven(true, kind, id, t) && (r.None? <==> RemovalSettled(kind, t[|t| - 1].outcome))
    {
      hide ProvesSafe, Obstructed, RemovesOnceProven, RemovalSettled;
      r, t := EnsureSafe(kind, id);
      if r.None? {
        ghost var guard, removal := t, [];
        r, removal := DeleteResource(kind, id);
        RemovalAfterGuard(true, kind, id, guard, removal);
        t := guard + removal;
        assert t[|t| - 1] == removal[0];
      }
    }

    method Execute(backend: BackendKind, action: PlannedAction, dryRunMode: bool, now: u64)
      returns (r: Result<ExecutionResponse, CleanupError>, ghost t: seq<Exchange>)
      modifies runner
      ensures runner.log == old(runner.log) + t
      ensures IsExecution(backend, action, dryRunMode, now, r, t)
    {
      hide ProvesStopped, ProvesUnreferenced, ProvesUnattached, Obstructed, PrunesWithinBudget, PruneEnds,
           RemovesOnceProven, RemovalSettled;
      t := [];
      if backend != Docker {
        return Err(UnsupportedBackend(backend)), t;
      }
      if dryRunMode || action.dryRun {
        return Ok(ExecutionResponse(Docker, action.candidate, false, true)), t;
      }
      var kind, id := action.candidate.resourceKind, action.candidate.identifier;
      var error: Option<CleanupError>;
      match kind {
        case BuildCache => error, t := PruneBuildCache(action.candidate, now);
        case UnknownKind(_) => error := Some(ExecutionError(Docker, "cannot execute unknown resource kind"));
        case _ => error, t := DeleteWhenSafe(kind, id);
      }
      if error.Some? {
        return Err(error.value), t;
      }
      r := Ok(ExecutionResponse(Docker, action.candidate, true, false));
    }
  }

  /** Reclaim bound, end to end: in any trace of an execution each prune, fallback included,
      may reclaim at most what the planner put into the action, and only the last command
      can have reclaimed anything. */
  lemma PruneReclaimsAtMostPlanned(
      candidate: CandidateArtifact, now: u64, t: seq<Exchange>, i: nat, reclaimed: nat)
    requires PrunesWithinBudget(candidate, now, t)
    requires candidate.sizeBytes.Some? && candidate.sizeBytes.value > 0
    requires i < |t| && t[i].Pruned?
    requires t[0].CacheListed? && t[0].rows.Ok?
    requires PrunableBytes(t[0].rows.value, now, candidate) <= U64_MAX
    requires BuildCache.MayReclaim(t[i].limit, PrunableBytes(t[0].rows.value, now, candidate), reclaimed)
    ensures reclaimed <= candidate.sizeBytes.value
    ensures i + 1 < |t| ==> t[i].outcome.Some?
  {
    BuildCache.PruneStaysWithinPlan(
      PrunableBytes(t[0].rows.value, now, candidate), candidate.sizeBytes.value, t[i].limit);
  }

  // ---------- how old the pruned entries are ----------

  const SECONDS_PER_HOUR := 3600

  /** The engine's filter: only entries at least this many full hours old. */
  predicate Admits(untilHours: Option<u64>, entrySeconds: nat) {
    untilHours.Some? ==> entrySeconds >= untilHours.value * SECONDS_PER_HOUR
  }

  /** Every prune of an execution, fallback included, carries the planned age in hours, 24 to
      the day, and no filter only for an age of zero or none. */
  lemma PruneFilterIsExact(
      action: PlannedAction, now: u64, r: Result<ExecutionResponse, CleanupError>, t: seq<Exchange>, i: nat)
    requires IsExecution(Docker, action, false, now, r, t) && !action.dryRun
    requires i < |t| && t[i].Pruned?
    ensures
      var age: int := if action.candidate.ageDays.Some? then action.candidate.ageDays.value else 0;
      t[i].untilHours == (if age == 0 then None else if 24 * age <= U64_MAX then Some(24 * age) else Some(U64_MAX))
  {
    OnlyCachesArePruned(action, now, r, t, i);
  }

  lemma OnlyCachesArePruned(
      action: PlannedAction, now: u64, r: Result<ExecutionResponse, CleanupError>, t: seq<Exchange>, i: nat)
    requires IsExecution(Docker, action, false, now, r, t) && !action.dryRun
    requires i < |t| && t[i].Pruned?
    ensures action.candidate.resourceKind.BuildCache? && PrunesWithinBudget(action.candidate, now, t)
  {
    hide ProvesSafe, Obstructed, PrunesWithinBudget, PruneEnds;
    var front := t[..|t| - 1];
    assert forall j :: 0 <= j < |front| ==> front[j] == t[j];
  }

  /** So whatever a prune may touch has reached the planned age in full days: exactly as long
      as that age has a number of hours in 64 bits, as every age read from a clock has. */
  lemma PrunedEntriesAreOld(
      action: PlannedAction, now: u64, r: Result<ExecutionResponse, CleanupError>, t: seq<Exchange>, i: nat)
    requires IsExecution(Docker, action, false, now, r, t) && !action.dryRun
    requires i < |t| && t[i].Pruned? && action.candidate.ageDays.Some?
    ensures
      var age: int := action.candidate.ageDays.value;
      (forall seconds: nat :: Admits(t[i].untilHours, seconds) ==> seconds >= age * 86_400) <==> 24 * age <= U64_MAX
  {
    PruneFilterIsExact(action, now, r, t, i);
    var age: int := action.candidate.ageDays.value;
    if 24 * age > U64_MAX {
      var seconds: nat := U64_MAX * SECONDS_PER_HOUR;
      assert Admits(t[i].untilHours, seconds) && seconds < age * 86_400;
    }
  }

  /** A table with a named row that leaves open whether it is in use, how old it is or, if it
      is old enough to go, how large, stops the prune of a cache of known size. */
  lemma UnreadableTableStopsPrune(
      action: PlannedAction, now: u64, r: Result<ExecutionResponse, CleanupError>, t: seq<Exchange>, row: CacheRow)
    requires IsExecution(Docker, action, false, now, r, t) && !action.dryRun
    requires action.candidate.sizeBytes.Some? && action.candidate.sizeBytes.value > 0
    requires t != [] && t[0].CacheListed? && t[0].rows.Ok? && row in t[0].rows.value && row.identifier != ""
    requires
      var age := BuildCache.AgeOf(row, now);
      || row.inUse.None?
      || (row.inUse == Some(false) && age.None?)
      || (row.inUse == Some(false) && row.size.None?
          && age.value >= if action.candidate.ageDays.Some? then action.candidate.ageDays.value else 0)
    ensures forall i :: 0 <= i < |t| ==> !t[i].Pruned?
  {
    hide BuildCache.AgeOf;
    if i :| 0 <= i < |t| && t[i].Pruned? {
      OnlyCachesArePruned(action, now, r, t, i);
    }
  }

  // ---------- which messages mean what ----------

  /** The texts by which the engine's answers are told apart, wherever they stand in the
      message; a daemon that cannot be reached or denies access says none of them. */
  lemma MessagesAreTold(before: string, behind: string)
    ensures IsMissingContainer(before + "No such container" + behind)
    ensures IsMissingDeleteTarget(Container, before + "No such container" + behind)
    ensures IsMissingDeleteTarget(Image, before + "No such image" + behind)
    ensures IsMissingDeleteTarget(Volume, before + "No such volume" + behind)
    ensures IsUnknownMaxUsedSpaceFlag(before + "unknown flag: --max-used-space" + behind)
    ensures !IsMissingContainer("permission denied") && !IsUnknownMaxUsedSpaceFlag("permission denied")
    ensures forall kind :: !IsMissingDeleteTarget(kind, "permission denied")
  {
    StandsBetween(before, "No such container", behind);
    StandsBetween(before, "No such image", behind);
    StandsBetween(before, "No such volume", behind);
    StandsBetween(before, "unknown flag: --max-used-space", behind);
    NothingMissing();
  }

  lemma NothingMissing()
    ensures !Text.Contains("permission denied", "No such container")
    ensures !Text.Contains("permission denied", "No such image")
    ensures !Text.Contains("permission denied", "No such volume")
    ensures !Text.Contains("permission denied", "unknown flag: --max-used-space")
  {
    var s := "permission denied";
    assert |s| == 17;
    forall i: nat ensures !Text.OccursAt(s, "No such image", i) && !Text.OccursAt(s, "No such volume", i) {
      assert i + 13 <= 17 ==> s[i..i + 13][0] == s[i];
      assert i + 14 <= 17 ==> s[i..i + 14][0] == s[i];
      assert i < 5 ==> s[i] in {'p', 'e', 'r', 'm', 'i'};
    }
    forall i: nat ensures !Text.OccursAt(s, "No such container", i) {
      assert i + 17 <= 17 ==> s[i..i + 17][0] == s[i] && i == 0;
    }
  }
}
