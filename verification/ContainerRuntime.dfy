/** What the Docker and Podman adapters see of a container engine: parsed command answers,
    an adversarial command runner that records every exchange, and what a recorded
    exchange proves about a resource. */
module ContainerRuntime {
  import opened Wrappers
  import opened Domain
  import Text

  datatype ContainerMetadata = ContainerMetadata(
    id: string,
    name: Option<string>,
    running: Option<bool>,
    imageId: string,
    sizeBytes: Option<u64>,
    ageDays: Option<u64>,
    labels: set<string>,
    mountNames: set<string>)

  /** One line of `docker system df -v` about the build cache. */
  datatype CacheRow = CacheRow(
    identifier: string, size: Option<u64>, inUse: Option<bool>, lastUsedAt: string, createdAt: string)

  datatype PruneLimit = Unlimited | MaxUsedSpace(bytes: u64) | KeepStorage(bytes: u64)

  /** A command and its answer; an error carries the message the adapters search. */
  datatype Exchange =
    | ContainerInspected(id: string, metadata: Result<ContainerMetadata, string>)
    | ContainersListed(ids: Result<seq<string>, string>)
    | ImagesInUseListed(images: Result<seq<string>, string>)
    | ContainerImageInspected(id: string, image: Result<Option<string>, string>)
    | CacheListed(rows: Result<seq<CacheRow>, string>)
    | Removed(kind: ResourceKind, target: string, outcome: Option<string>)
    | Pruned(untilHours: Option<u64>, limit: PruneLimit, outcome: Option<string>)

  datatype Engine = Engine(
    inspect: (seq<Exchange>, string) -> Result<ContainerMetadata, string>,
    list: seq<Exchange> -> Result<seq<string>, string>,
    listImages: seq<Exchange> -> Result<seq<string>, string>,
    inspectImage: (seq<Exchange>, string) -> Result<Option<string>, string>,
    listCache: seq<Exchange> -> Result<seq<CacheRow>, string>,
    remove: (seq<Exchange>, ResourceKind, string) -> Option<string>,
    prune: (seq<Exchange>, Option<u64>, PruneLimit) -> Option<string>)

  class CommandRunner {
    const engine: Engine
    var log: seq<Exchange>

    constructor (engine: Engine)
      ensures this.engine == engine && log == []
    {
      this.engine, log := engine, [];
    }

    method InspectContainer(id: string) returns (r: Result<ContainerMetadata, string>)
      modifies this
      ensures log == old(log) + [ContainerInspected(id, r)]
    {
      r := engine.inspect(log, id);
      log := log + [ContainerInspected(id, r)];
    }

    method ListContainers() returns (r: Result<seq<string>, string>)
      modifies this
      ensures log == old(log) + [ContainersListed(r)]
    {
      r := engine.list(log);
      log := log + [ContainersListed(r)];
    }

    method ListImagesInUse() returns (r: Result<seq<string>, string>)
      modifies this
      ensures log == old(log) + [ImagesInUseListed(r)]
    {
      r := engine.listImages(log);
      log := log + [ImagesInUseListed(r)];
    }

    method InspectContainerImage(id: string) returns (r: Result<Option<string>, string>)
      modifies this
      ensures log == old(log) + [ContainerImageInspected(id, r)]
    {
      r := engine.inspectImage(log, id);
      log := log + [ContainerImageInspected(id, r)];
    }

    method ListCache() returns (r: Result<seq<CacheRow>, string>)
      modifies this
      ensures log == old(log) + [CacheListed(r)]
    {
      r := engine.listCache(log);
      log := log + [CacheListed(r)];
    }

    /** None on success, the error message otherwise. */
    method Remove(kind: ResourceKind, target: string) returns (failure: Option<string>)
      modifies this
      ensures log == old(log) + [Removed(kind, target, failure)]
    {
      failure := engine.remove(log, kind, target);
      log := log + [Removed(kind, target, failure)];
    }

    method Prune(untilHours: Option<u64>, limit: PruneLimit) returns (failure: Option<string>)
      modifies this
      ensures log == old(log) + [Pruned(untilHours, limit, failure)]
    {
      failure := engine.prune(log, untilHours, limit);
      log := log + [Pruned(untilHours, limit, failure)];
    }
  }

  // ---------- names and messages ----------

  function NormalizeImageId(id: string): string {
    Text.TrimStartMatches(Text.Trim(id), "sha256:")
  }

  predicate IsMissingContainer(message: string) {
    Text.Contains(message, "No such container")
  }

  predicate IsUnsupportedImageIdTemplate(message: string) {
    && Text.Contains(message, "failed to execute template")
    && Text.Contains(message, "<.ImageID>")
    && Text.Contains(message, "can't evaluate field ImageID")
  }

  // ---------- what an exchange proves ----------

  /** `lenient` adapters (Docker) take a container that is gone for an answer; strict ones
      (Podman) do not. */
  predicate Gone(lenient: bool, failure: string) {
    lenient && IsMissingContainer(failure)
  }

  predicate ProvesStopped(lenient: bool, id: string, t: seq<Exchange>) {
    && |t| == 1 && t[0].ContainerInspected? && t[0].id == id
    && (if t[0].metadata.Ok? then t[0].metadata.value.running == Some(false)
        else Gone(lenient, t[0].metadata.error))
  }

  predicate ListClears(image: string, images: seq<string>) {
    forall k :: 0 <= k < |images| ==> NormalizeImageId(images[k]) != NormalizeImageId(image)
  }

  predicate ContainerClearsImage(lenient: bool, image: string, id: string, e: Exchange) {
    && e.ContainerImageInspected? && e.id == id
    && (if e.image.Ok? then e.image.value.Some? && NormalizeImageId(e.image.value.value) != NormalizeImageId(image)
        else Gone(lenient, e.image.error))
  }

  /** Either the list of images in use lacks the image, or (Docker's fallback) each listed
      container was asked and none uses it. */
  predicate ProvesUnreferenced(lenient: bool, image: string, t: seq<Exchange>) {
    || (|t| == 1 && t[0].ImagesInUseListed? && t[0].images.Ok? && ListClears(image, t[0].images.value))
    || (&& lenient && |t| >= 2
        && t[0].ImagesInUseListed? && t[0].images.Err? && IsUnsupportedImageIdTemplate(t[0].images.error)
        && t[1].ContainersListed? && t[1].ids.Ok?
        && |t| == 2 + |t[1].ids.value|
        && forall k :: 0 <= k < |t[1].ids.value| ==>
             ContainerClearsImage(lenient, image, t[1].ids.value[k], t[2 + k]))
  }

  predicate ContainerClearsVolume(lenient: bool, volume: string, id: string, e: Exchange) {
    && e.ContainerInspected? && e.id == id
    && (if e.metadata.Ok? then volume !in e.metadata.value.mountNames else Gone(lenient, e.metadata.error))
  }

  predicate ProvesUnattached(lenient: bool, volume: string, t: seq<Exchange>) {
    && |t| >= 1 && t[0].ContainersListed? && t[0].ids.Ok?
    && |t| == 1 + |t[0].ids.value|
    && forall k :: 0 <= k < |t[0].ids.value| ==> ContainerClearsVolume(lenient, volume, t[0].ids.value[k], t[1 + k])
  }

  /** The exchange `t` establishes that the resource may be deleted. */
  predicate ProvesSafe(lenient: bool, kind: ResourceKind, id: string, t: seq<Exchange>) {
    match kind
    case Container => ProvesStopped(lenient, id, t)
    case Image => ProvesUnreferenced(lenient, id, t)
    case Volume => ProvesUnattached(lenient, id, t)
    case _ => false
  }

  /** The answer `e` forbids the deletion: the resource is in use, or the question whether it
      is was left open. */
  predicate IsObstacle(lenient: bool, kind: ResourceKind, id: string, e: Exchange) {
    match kind
    case Container => e.ContainerInspected? && e.id == id && !ProvesStopped(lenient, id, [e])
    case Image =>
      || (e.ImagesInUseListed?
          && if e.images.Ok? then !ListClears(id, e.images.value)
             else !(lenient && IsUnsupportedImageIdTemplate(e.images.error)))
      || (e.ContainersListed? && e.ids.Err?)
      || (e.ContainerImageInspected? && !ContainerClearsImage(lenient, id, e.id, e))
    case Volume =>
      || (e.ContainersListed? && e.ids.Err?)
      || (e.ContainerInspected? && !ContainerClearsVolume(lenient, id, e.id, e))
    case _ => false
  }

  predicate Obstructed(lenient: bool, kind: ResourceKind, id: string, t: seq<Exchange>) {
    exists i | 0 <= i < |t| :: IsObstacle(lenient, kind, id, t[i])
  }

  /** Proof and obstacle exclude each other, so a guard whose answers amount to one or the
      other decides exactly. */
  lemma ProofHasNoObstacle(lenient: bool, kind: ResourceKind, id: string, t: seq<Exchange>)
    requires ProvesSafe(lenient, kind, id, t)
    ensures !Obstructed(lenient, kind, id, t)
  {
    forall i | 0 <= i < |t| ensures !IsObstacle(lenient, kind, id, t[i]) {
      match kind {
        case Image =>
          if i >= 2 {
            assert ContainerClearsImage(lenient, id, t[1].ids.value[i - 2], t[2 + (i - 2)]);
          }
        case Volume =>
          if i >= 1 {
            assert ContainerClearsVolume(lenient, id, t[0].ids.value[i - 1], t[1 + (i - 1)]);
          }
        case _ =>
      }
    }
  }

  predicate Inspects(id: string, e: Exchange) {
    e.ContainerInspected? && e.id == id
  }

  predicate AsksForImage(id: string, e: Exchange) {
    e.ContainerImageInspected? && e.id == id
  }

  /** What the successful inspections answered, in order. */
  function MetadataIn(t: seq<Exchange>): seq<ContainerMetadata> {
    if t == [] then []
    else
      var last := t[|t| - 1];
      MetadataIn(t[..|t| - 1])
      + (if last.ContainerInspected? && last.metadata.Ok? then [last.metadata.value] else [])
  }

  lemma MetadataMore(t: seq<Exchange>, e: Exchange)
    ensures MetadataIn([]) == []
    ensures MetadataIn(t + [e])
            == if e.ContainerInspected? && e.metadata.Ok? then MetadataIn(t) + [e.metadata.value] else MetadataIn(t)
  {
    assert (t + [e])[..|t|] == t;
  }

  /** Every listed container was inspected. */
  predicate InspectsAll(t: seq<Exchange>) {
    && t != [] && t[0].ContainersListed? && t[0].ids.Ok? && |t| == 1 + |t[0].ids.value|
    && forall k :: 0 <= k < |t[0].ids.value| ==> Inspects(t[0].ids.value[k], t[1 + k])
  }

  /** Every listed container was asked for its image. */
  predicate AsksAllForImage(t: seq<Exchange>) {
    && t != [] && t[0].ContainersListed? && t[0].ids.Ok? && |t| == 1 + |t[0].ids.value|
    && forall k :: 0 <= k < |t[0].ids.value| ==> AsksForImage(t[0].ids.value[k], t[1 + k])
  }

  lemma CompleteScanDecides(lenient: bool, id: string, t: seq<Exchange>)
    ensures InspectsAll(t) ==> ProvesUnattached(lenient, id, t) || Obstructed(lenient, Volume, id, t)
    ensures AsksAllForImage(t) ==> ScanClearsImage(lenient, id, t) || Obstructed(lenient, Image, id, t)
  {
    if InspectsAll(t) && !ProvesUnattached(lenient, id, t) {
      var k :| 0 <= k < |t[0].ids.value| && !ContainerClearsVolume(lenient, id, t[0].ids.value[k], t[1 + k]);
      assert IsObstacle(lenient, Volume, id, t[1 + k]);
    }
    if k :| AsksAllForImage(t) && 0 <= k < |t[0].ids.value|
            && !ContainerClearsImage(lenient, id, t[0].ids.value[k], t[1 + k]) {
      assert IsObstacle(lenient, Image, id, t[1 + k]);
    }
  }

  predicate ScanClearsImage(lenient: bool, image: string, scan: seq<Exchange>) {
    && AsksAllForImage(scan)
    && forall k :: 0 <= k < |scan[0].ids.value| ==>
         ContainerClearsImage(lenient, image, scan[0].ids.value[k], scan[1 + k])
  }

  /** Docker's fallback: behind the rejected listing the scan alone decides. */
  lemma FallbackDecides(image: string, listing: Exchange, scan: seq<Exchange>)
    requires listing.ImagesInUseListed? && listing.images.Err? && IsUnsupportedImageIdTemplate(listing.images.error)
    ensures ScanClearsImage(true, image, scan) <==> ProvesUnreferenced(true, image, [listing] + scan)
    ensures Obstructed(true, Image, image, scan) ==> Obstructed(true, Image, image, [listing] + scan)
  {
    hide NormalizeImageId, IsUnsupportedImageIdTemplate, IsMissingContainer;
    var t := [listing] + scan;
    assert forall k :: 0 <= k < |scan| ==> t[1 + k] == scan[k];
    if ProvesUnreferenced(true, image, t) {
      forall k | 0 <= k < |scan[0].ids.value|
        ensures ContainerClearsImage(true, image, scan[0].ids.value[k], scan[1 + k])
      {
        assert ContainerClearsImage(true, image, t[1].ids.value[k], t[2 + k]);
      }
    }
    if i :| 0 <= i < |scan| && IsObstacle(true, Image, image, scan[i]) {
      assert IsObstacle(true, Image, image, t[1 + i]);
    }
  }

  predicate NoRemoval(t: seq<Exchange>) {
    forall i :: 0 <= i < |t| ==> !t[i].Removed?
  }

  predicate NoMutation(t: seq<Exchange>) {
    forall i :: 0 <= i < |t| ==> !t[i].Removed? && !t[i].Pruned?
  }

  /** The only removal in `t` is its last command, aimed at this resource, directly behind
      guard answers that prove it safe. */
  predicate RemovesOnceProven(lenient: bool, kind: ResourceKind, id: string, t: seq<Exchange>) {
    && t != []
    && t[|t| - 1].Removed? && t[|t| - 1].kind == kind && t[|t| - 1].target == id
    && NoMutation(t[..|t| - 1])
    && ProvesSafe(lenient, kind, id, t[..|t| - 1])
  }

  lemma RemovalAfterGuard(
      lenient: bool, kind: ResourceKind, id: string, guard: seq<Exchange>, removal: seq<Exchange>)
    requires NoMutation(guard) && ProvesSafe(lenient, kind, id, guard)
    requires |removal| == 1 && removal[0].Removed? && removal[0].kind == kind && removal[0].target == id
    ensures RemovesOnceProven(lenient, kind, id, guard + removal)
    ensures !NoRemoval(guard + removal)
  {
    var t := guard + removal;
    assert t[..|t| - 1] == guard;
    assert t[|t| - 1].Removed?;
  }

  // ---------- an engine that does not change ----------

  datatype LiveContainer = LiveContainer(id: string, running: bool, image: string, mounts: set<string>)

  predicate InUse(engine: seq<LiveContainer>, kind: ResourceKind, id: string) {
    exists i | 0 <= i < |engine| :: UsedBy(engine[i], kind, id)
  }

  predicate UsedBy(c: LiveContainer, kind: ResourceKind, id: string) {
    match kind
    case Container => c.id == id && c.running
    case Image => NormalizeImageId(c.image) == NormalizeImageId(id)
    case Volume => id in c.mounts
    case _ => false
  }

  /** The answer is truthful about these containers. Commands may fail for any reason, but
      only a container that does not exist is reported as missing. */
  predicate Truthful(engine: seq<LiveContainer>, e: Exchange) {
    match e
    case ContainerInspected(id, Ok(m)) =>
      forall i :: 0 <= i < |engine| && engine[i].id == id ==>
        (m.running.None? || m.running.value == engine[i].running) && m.mountNames == engine[i].mounts
    case ContainerInspected(id, Err(message)) =>
      IsMissingContainer(message) ==> forall i :: 0 <= i < |engine| ==> engine[i].id != id
    case ContainersListed(Ok(ids)) => forall i :: 0 <= i < |engine| ==> engine[i].id in ids
    case ImagesInUseListed(Ok(images)) =>
      forall i :: 0 <= i < |engine| ==>
        exists k :: 0 <= k < |images| && NormalizeImageId(images[k]) == NormalizeImageId(engine[i].image)
    case ContainerImageInspected(id, Ok(Some(image))) =>
      forall i :: 0 <= i < |engine| && engine[i].id == id ==>
        NormalizeImageId(image) == NormalizeImageId(engine[i].image)
    case ContainerImageInspected(id, Err(message)) =>
      IsMissingContainer(message) ==> forall i :: 0 <= i < |engine| ==> engine[i].id != id
    case _ => true
  }

  /** Guard answers from an unchanging engine that prove a resource safe are right: nothing
      uses it. This covers the per-container fallback as well. */
  lemma ProofOfSafetyIsTrue(lenient: bool, engine: seq<LiveContainer>, kind: ResourceKind, id: string, t: seq<Exchange>)
    requires ProvesSafe(lenient, kind, id, t)
    requires forall i :: 0 <= i < |t| ==> Truthful(engine, t[i])
    ensures !InUse(engine, kind, id)
  {
    forall i | 0 <= i < |engine| ensures !UsedBy(engine[i], kind, id) {
      var c := engine[i];
      match kind {
        case Container => assert Truthful(engine, t[0]);
        case Image =>
          assert Truthful(engine, t[0]);
          if |t| > 1 {
            assert Truthful(engine, t[1]);
            var k :| 0 <= k < |t[1].ids.value| && t[1].ids.value[k] == c.id;
            assert ContainerClearsImage(lenient, id, c.id, t[2 + k]);
            assert Truthful(engine, t[2 + k]);
          }
        case Volume =>
          assert Truthful(engine, t[0]);
          var k :| 0 <= k < |t[0].ids.value| && t[0].ids.value[k] == c.id;
          assert ContainerClearsVolume(lenient, id, c.id, t[1 + k]);
          assert Truthful(engine, t[1 + k]);
        case _ =>
      }
    }
  }

  /** So no removal ever hits a resource in use in an unchanging engine. */
  lemma RemovalSparesBusyResources(
      lenient: bool, engine: seq<LiveContainer>, kind: ResourceKind, id: string, t: seq<Exchange>, i: nat)
    requires RemovesOnceProven(lenient, kind, id, t)
    requires forall k :: 0 <= k < |t| ==> Truthful(engine, t[k])
    requires i < |t| && t[i].Removed?
    ensures !InUse(engine, t[i].kind, t[i].target)
  {
    var guard := t[..|t| - 1];
    assert forall k :: 0 <= k < |guard| ==> guard[k] == t[k];
    ProofOfSafetyIsTrue(lenient, engine, kind, id, guard);
  }

  // ---------- one image, two spellings ----------

  const DIGEST := "sha256:"

  /** A digest without its algorithm. */
  predicate IsBareId(id: string) {
    Text.Tight(id) && !Text.StartsWith(id, DIGEST)
  }

  /** With or without the algorithm in front, and whatever the space around it, a digest is
      the same image. */
  lemma PrefixIsNoDifference(l: string, id: string, r: string)
    requires IsBareId(id) && Text.AllSpace(l) && Text.AllSpace(r)
    ensures NormalizeImageId(l + id + r) == id
    ensures NormalizeImageId(l + (DIGEST + id) + r) == id
  {
    hide Text.Trim;
    Text.TrimPadded(l, id, r);
    Text.TrimPadded(l, DIGEST + id, r);
    assert (DIGEST + id)[..|DIGEST|] == DIGEST && (DIGEST + id)[|DIGEST|..] == id;
  }

  /** So a listing that shows an image in either spelling keeps both spellings from being
      deleted, and a listing of other images does not. */
  lemma EitherSpellingBlocks(images: seq<string>, k: nat, id: string)
    requires k < |images| && IsBareId(id) && images[k] in {id, DIGEST + id}
    ensures !ListClears(id, images) && !ListClears(DIGEST + id, images)
  {
    PrefixIsNoDifference([], id, []);
    assert [] + id + [] == id && [] + (DIGEST + id) + [] == DIGEST + id;
    assert NormalizeImageId(images[k]) == id;
  }

  lemma OtherImagesClear(images: seq<string>, id: string)
    requires IsBareId(id)
    requires forall k :: 0 <= k < |images| ==> IsBareId(images[k]) && images[k] != id
    ensures ListClears(id, images) && ListClears(DIGEST + id, images)
  {
    PrefixIsNoDifference([], id, []);
    assert [] + id + [] == id && [] + (DIGEST + id) + [] == DIGEST + id;
    forall k | 0 <= k < |images| ensures NormalizeImageId(images[k]) == images[k] {
      PrefixIsNoDifference([], images[k], []);
      assert [] + images[k] + [] == images[k];
    }
  }

  /** The complaint of engines that cannot list image ids is recognised by its three parts. */
  lemma TemplateComplaintIsTold(a: string, b: string, c: string, d: string)
    ensures IsUnsupportedImageIdTemplate(
              a + "failed to execute template" + b + "<.ImageID>" + c + "can't evaluate field ImageID" + d)
    ensures !IsUnsupportedImageIdTemplate("No such container")
  {
    var x, y, z := "failed to execute template", "<.ImageID>", "can't evaluate field ImageID";
    var s := a + x + b + y + c + z + d;
    assert s == a + x + (b + y + c + z + d);
    assert s == (a + x + b) + y + (c + z + d);
    assert s == (a + x + b + y + c) + z + d;
    StandsBetween(a, x, b + y + c + z + d);
    StandsBetween(a + x + b, y, c + z + d);
    StandsBetween(a + x + b + y + c, z, d);
    assert |x| > |"No such container"|;
  }

  lemma StandsBetween(before: string, part: string, behind: string)
    ensures Text.Contains(before + part + behind, part)
  {
    assert Text.OccursAt(before + part + behind, part, |before|);
  }
}
