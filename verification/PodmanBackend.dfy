/** Execution in src/podman_backend.rs: the same guards as Docker's without its tolerance
    for vanished containers, its fallback scan or its build-cache support. */
module PodmanBackend {
  import opened Wrappers
  import opened Domain
  import opened ContainerRuntime

  /** Every command trace of an execution: dry runs and unsupported kinds issue no command;
      otherwise a resource is removed exactly when the guard's answers prove it safe and
      refused exactly when one of them is an obstacle, and success is a clean removal. */
  predicate IsExecution(
      backend: BackendKind, action: PlannedAction, dryRunMode: bool,
      r: Result<ExecutionResponse, CleanupError>, t: seq<Exchange>)
  {
    if backend != Podman then t == [] && r == Err(UnsupportedBackend(backend))
    else if dryRunMode || action.dryRun then t == [] && r == Ok(ExecutionResponse(Podman, action.candidate, false, true))
    else
      var kind, id := action.candidate.resourceKind, action.candidate.identifier;
      && (r.Ok? ==> r.value == ExecutionResponse(Podman, action.candidate, true, false))
      && (if kind.BuildCache? || kind.UnknownKind? then
            t == [] && r.Err?
          else if NoRemoval(t) then
            NoMutation(t) && Obstructed(false, kind, id, t) && r.Err?
          else
            && RemovesOnceProven(false, kind, id, t)
            && (r.Ok? <==> t[|t| - 1].outcome.None?))
  }

  class Adapter {
    const runner: CommandRunner

    constructor (runner: CommandRunner)
      ensures this.runner == runner
    {
      this.runner := runner;
    }

    method EnsureContainerNotRunning(id: string) returns (r: Option<CleanupError>, ghost t: seq<Exchange>)
      modifies runner
      ensures runner.log == old(runner.log) + t
      ensures NoMutation(t)
      ensures r.None? <==> ProvesStopped(false, id, t)
      ensures r.Some? ==> Obstructed(false, Container, id, t)
      ensures |t| == 1 && t[0].ContainerInspected? && t[0].id == id
      ensures r.Some? ==> (r.value.SafetyViolation? <==> t[0].metadata.Ok?)
    {
      var inspect := runner.InspectContainer(id);
      t := [ContainerInspected(id, inspect)];
      if inspect.Err? {
        return Some(ExecutionError(Podman, inspect.error)), t;
      }
      match inspect.value.running {
        case Some(running) =>
          r := if running then Some(CleanupError.SafetyViolation("refusing to delete running container")) else None;
        case None =>
          r := Some(CleanupError.SafetyViolation("running-state metadata is ambiguous"));
      }
    }

    method EnsureImageNotReferenced(image: string) returns (r: Option<CleanupError>, ghost t: seq<Exchange>)
      modifies runner
      ensures runner.log == old(runner.log) + t
      ensures NoMutation(t)
      ensures r.None? <==> ProvesUnreferenced(false, image, t)
      ensures r.Some? ==> Obstructed(false, Image, image, t)
    {
      var listed := runner.ListImagesInUse();
      t := [ImagesInUseListed(listed)];
      if listed.Err? {
        return Some(ExecutionError(Podman, listed.error)), t;
      }
      var target := NormalizeImageId(image);
      var referenced := exists k :: 0 <= k < |listed.value| && NormalizeImageId(listed.value[k]) == target;
      r := if referenced then Some(CleanupError.SafetyViolation("refusing to delete referenced image")) else None;
    }

    /** Lists the containers and inspects each; any failure ends the scan. */
    method CollectContainerMetadata(ghost volume: string)
      returns (error: Option<string>, containers: seq<ContainerMetadata>, ghost t: seq<Exchange>)
      modifies runner
      ensures runner.log == old(runner.log) + t
      ensures NoMutation(t) && t != [] && t[0].ContainersListed?
      ensures containers == MetadataIn(t)
      ensures (error.None? && forall k :: 0 <= k < |containers| ==> volume !in containers[k].mountNames)
              <==> ProvesUnattached(false, volume, t)
      ensures error.Some? ==> Obstructed(false, Volume, volume, t)
      ensures error.None? ==> InspectsAll(t)
    {
      hide MetadataIn, IsMissingContainer;
      containers := [];
      var listed := runner.ListContainers();
      t := [ContainersListed(listed)];
      MetadataMore([], t[0]);
      assert [] + t == t;
      if listed.Err? {
        return Some(listed.error), containers, t;
      }
      var ids := listed.value;
      for i := 0 to |ids|
        invariant runner.log == old(runner.log) + t && containers == MetadataIn(t)
        invariant |t| == 1 + i && |containers| == i && t[0] == ContainersListed(Ok(ids)) && NoMutation(t)
        invariant forall k :: 0 <= k < i ==>
          Inspects(ids[k], t[1 + k]) && t[1 + k].metadata == Ok(containers[k])
      {
        var inspect := runner.InspectContainer(ids[i]);
        MetadataMore(t, ContainerInspected(ids[i], inspect));
        t := t + [ContainerInspected(ids[i], inspect)];
        if inspect.Err? {
          assert !ContainerClearsVolume(false, volume, ids[i], t[1 + i]);
          return Some(inspect.error), containers, t;
        }
        containers := containers + [inspect.value];
      }
      error := None;
    }

    method EnsureVolumeNotAttached(volume: string) returns (r: Option<CleanupError>, ghost t: seq<Exchange>)
      modifies runner
      ensures runner.log == old(runner.log) + t
      ensures NoMutation(t)
      ensures r.None? <==> ProvesUnattached(false, volume, t)
      ensures r.Some? ==> Obstructed(false, Volume, volume, t)
    {
      var error, containers;
      error, containers, t := CollectContainerMetadata(volume);
      if error.Some? {
        return Some(ExecutionError(Podman, error.value)), t;
      }
      CompleteScanDecides(false, volume, t);
      var attached := exists k :: 0 <= k < |containers| && volume in containers[k].mountNames;
      r := if attached then Some(CleanupError.SafetyViolation("refusing to delete attached volume")) else None;
    }

    /** The guard that fits the resource. */
    method EnsureSafe(kind: ResourceKind, id: string) returns (r: Option<CleanupError>, ghost t: seq<Exchange>)
      requires kind.Container? || kind.Image? || kind.Volume?
      modifies runner
      ensures runner.log == old(runner.log) + t
      ensures NoMutation(t)
      ensures r.None? <==> ProvesSafe(false, kind, id, t)
      ensures r.Some? ==> Obstructed(false, kind, id, t)
    {
      hide ProvesStopped, ProvesUnreferenced, ProvesUnattached, Obstructed;
      match kind {
        case Container => r, t := EnsureContainerNotRunning(id);
        case Image => r, t := EnsureImageNotReferenced(id);
        case Volume => r, t := EnsureVolumeNotAttached(id);
      }
    }

    /** The guard, then, if it found nothing, the delete. */
    method DeleteWhenSafe(kind: ResourceKind, id: string) returns (r: Option<CleanupError>, ghost t: seq<Exchange>)
      requires kind.Container? || kind.Image? || kind.Volume?
      modifies runner
      ensures runner.log == old(runner.log) + t
      ensures if NoRemoval(t) then NoMutation(t) && Obstructed(false, kind, id, t) && r.Some?
              else RemovesOnceProven(false, kind, id, t) && (r.None? <==> t[|t| - 1].outcome.None?)
    {
      hide ProvesSafe, Obstructed, RemovesOnceProven;
      r, t := EnsureSafe(kind, id);
      if r.None? {
        ghost var guard := t;
        var failure := runner.Remove(kind, id);
        ghost var removal := Removed(kind, id, failure);
        RemovalAfterGuard(false, kind, id, guard, [removal]);
        t := guard + [removal];
        assert t[|t| - 1] == removal;
        r := if failure.None? then None else Some(ExecutionError(Podman, failure.value));
      }
    }

    method Execute(backend: BackendKind, action: PlannedAction, dryRunMode: bool)
      returns (r: Result<ExecutionResponse, CleanupError>, ghost t: seq<Exchange>)
      modifies runner
      ensures runner.log == old(runner.log) + t
      ensures IsExecution(backend, action, dryRunMode, r, t)
    {
      hide Obstructed, RemovesOnceProven;
      t := [];
      if backend != Podman {
        return Err(UnsupportedBackend(backend)), t;
      }
      if dryRunMode || action.dryRun {
        return Ok(ExecutionResponse(Podman, action.candidate, false, true)), t;
      }
      var error: Option<CleanupError>;
      match action.candidate.resourceKind {
        case BuildCache => error := Some(ExecutionError(Podman, "build cache cleanup is currently unsupported"));
        case UnknownKind(_) => error := Some(ExecutionError(Podman, "cannot execute unknown resource kind"));
        case kind => error, t := DeleteWhenSafe(kind, action.candidate.identifier);
      }
      if error.Some? {
        return Err(error.value), t;
      }
      r := Ok(ExecutionResponse(Podman, action.candidate, true, false));
    }
  }
}
