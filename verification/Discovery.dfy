/** How discovery tags containers, images and volumes in both adapters, and what the tags
    keep out of every plan. */
module Discovery {
  import opened Wrappers
  import opened Domain
  import opened ContainerRuntime
  import Planner
  import Policy

  /** One image as inspected; `labelsKnown` is false after Docker's labels-free retry. */
  datatype ImageRecord = ImageRecord(
    identifier: string, displayName: Option<string>, ageDays: Option<u64>, sizeBytes: Option<u64>,
    labels: set<string>, labelsKnown: bool)

  datatype VolumeRecord = VolumeRecord(identifier: string, ageDays: Option<u64>, labels: set<string>)

  function ReferencedImages(containers: seq<ContainerMetadata>): set<string> {
    set i | 0 <= i < |containers| :: NormalizeImageId(containers[i].imageId)
  }

  function AttachedVolumes(containers: seq<ContainerMetadata>): set<string> {
    set i, name | 0 <= i < |containers| && name in containers[i].mountNames :: name
  }

  function RunningAttachedVolumes(containers: seq<ContainerMetadata>): set<string> {
    set i, name | 0 <= i < |containers| && containers[i].running == Some(true)
                  && name in containers[i].mountNames :: name
  }

  function Tagged(
      backend: BackendKind, kind: ResourceKind, id: string, name: Option<string>, labels: set<string>,
      size: Option<u64>, age: Option<u64>, inUse: Option<bool>, referenced: Option<bool>, complete: bool)
    : CandidateArtifact
  {
    CandidateArtifact(backend, kind, id, name, labels, size, age, inUse, referenced, false, complete, !complete)
  }

  function ContainerCandidate(backend: BackendKind, c: ContainerMetadata): CandidateArtifact {
    Tagged(backend, Container, c.id, c.name, c.labels, c.sizeBytes, c.ageDays, c.running, Some(false),
           c.id != "" && c.running.Some? && c.sizeBytes.Some? && c.ageDays.Some?)
  }

  function ImageCandidate(
      backend: BackendKind, image: ImageRecord, referenced: set<string>, labelProtectionRequired: bool)
    : CandidateArtifact
  {
    Tagged(backend, Image, image.identifier, image.displayName, image.labels, image.sizeBytes, image.ageDays,
           Some(false),
           if image.identifier == "" then None else Some(NormalizeImageId(image.identifier) in referenced),
           && image.identifier != "" && image.ageDays.Some? && image.sizeBytes.Some?
           && (image.labelsKnown || !labelProtectionRequired))
  }

  function VolumeCandidate(
      backend: BackendKind, volume: VolumeRecord, attached: set<string>, runningAttached: set<string>,
      sizes: map<string, u64>, sizeRequired: bool)
    : CandidateArtifact
  {
    var size := if volume.identifier in sizes then Some(sizes[volume.identifier]) else None;
    Tagged(backend, Volume, volume.identifier, Some(volume.identifier), volume.labels, size, volume.ageDays,
           if volume.identifier == "" then None else Some(volume.identifier in runningAttached),
           if volume.identifier == "" then None else Some(volume.identifier in attached),
           volume.identifier != "" && volume.ageDays.Some? && (size.Some? || !sizeRequired))
  }

  /** Everything an adapter has read when it builds its candidates. Podman reads no volume
      sizes, needs none, always knows the labels, and has no build cache. */
  datatype Inventory = Inventory(
    backend: BackendKind,
    containers: seq<ContainerMetadata>,
    images: seq<ImageRecord>,
    volumes: seq<VolumeRecord>,
    volumeSizes: map<string, u64>,
    cache: Option<CandidateArtifact>)

  predicate IsDockerInventory(inv: Inventory) {
    inv.backend == Docker && (inv.cache.Some? ==> inv.cache.value.resourceKind.BuildCache?)
  }

  predicate IsPodmanInventory(inv: Inventory) {
    && inv.backend == Podman && inv.cache.None? && inv.volumeSizes == map[]
    && forall i :: 0 <= i < |inv.images| ==> inv.images[i].labelsKnown
  }

  function TaggedImage(inv: Inventory, config: CleanupConfig, image: ImageRecord): CandidateArtifact {
    ImageCandidate(inv.backend, image, ReferencedImages(inv.containers), config.protectedLabels != [])
  }

  function TaggedVolume(inv: Inventory, volume: VolumeRecord): CandidateArtifact {
    VolumeCandidate(inv.backend, volume, AttachedVolumes(inv.containers), RunningAttachedVolumes(inv.containers),
                    inv.volumeSizes, inv.backend == Docker)
  }

  /** Where a candidate of a discovery comes from. */
  predicate ComesFrom(inv: Inventory, config: CleanupConfig, c: CandidateArtifact) {
    match c.resourceKind
    case Container =>
      exists i :: 0 <= i < |inv.containers| && c == ContainerCandidate(inv.backend, inv.containers[i])
    case Image =>
      exists i :: 0 <= i < |inv.images|
        && c == TaggedImage(inv, config, inv.images[i])
    case Volume =>
      exists i :: 0 <= i < |inv.volumes|
        && c == TaggedVolume(inv, inv.volumes[i])
    case BuildCache => inv.cache == Some(c)
    case UnknownKind(_) => false
  }

  lemma KindIsKept(inv: Inventory, config: CleanupConfig, c: nat, i: nat, v: nat)
    ensures c < |inv.containers| ==> ContainerCandidate(inv.backend, inv.containers[c]).resourceKind.Container?
    ensures i < |inv.images| ==> TaggedImage(inv, config, inv.images[i]).resourceKind.Image?
    ensures v < |inv.volumes| ==> TaggedVolume(inv, inv.volumes[v]).resourceKind.Volume?
  {
  }

  function TaggedContainers(inv: Inventory): (cs: seq<CandidateArtifact>)
    ensures |cs| == |inv.containers|
  {
    seq(|inv.containers|, i requires 0 <= i < |inv.containers| => ContainerCandidate(inv.backend, inv.containers[i]))
  }

  function TaggedImages(inv: Inventory, config: CleanupConfig): seq<CandidateArtifact> {
    seq(|inv.images|, i requires 0 <= i < |inv.images| => TaggedImage(inv, config, inv.images[i]))
  }

  function TaggedVolumes(inv: Inventory): seq<CandidateArtifact> {
    seq(|inv.volumes|, i requires 0 <= i < |inv.volumes| => TaggedVolume(inv, inv.volumes[i]))
  }

  /** Containers, then images, then volumes, then the cache. */
  function Discovered(inv: Inventory, config: CleanupConfig): seq<CandidateArtifact> {
    TaggedContainers(inv) + TaggedImages(inv, config) + TaggedVolumes(inv)
    + (if inv.cache.Some? then [inv.cache.value] else [])
  }

  method DiscoverCandidates(inv: Inventory, config: CleanupConfig) returns (candidates: seq<CandidateArtifact>)
    requires IsDockerInventory(inv) || IsPodmanInventory(inv)
    ensures candidates == Discovered(inv, config)
  {
    hide ContainerCandidate, ImageCandidate, VolumeCandidate;
    var referenced := ReferencedImages(inv.containers);
    var attached := AttachedVolumes(inv.containers);
    var runningAttached := RunningAttachedVolumes(inv.containers);
    var tagged: seq<CandidateArtifact> := [];
    for i := 0 to |inv.containers|
      invariant tagged == TaggedContainers(inv)[..i]
    {
      tagged := tagged + [ContainerCandidate(inv.backend, inv.containers[i])];
    }
    for i := 0 to |inv.images|
      invariant tagged == TaggedContainers(inv) + TaggedImages(inv, config)[..i]
    {
      tagged := tagged + [ImageCandidate(inv.backend, inv.images[i], referenced, config.protectedLabels != [])];
    }
    for i := 0 to |inv.volumes|
      invariant tagged == TaggedContainers(inv) + TaggedImages(inv, config) + TaggedVolumes(inv)[..i]
    {
      tagged := tagged
        + [VolumeCandidate(inv.backend, inv.volumes[i], attached, runningAttached, inv.volumeSizes, inv.backend == Docker)];
    }
    candidates := if inv.cache.Some? then tagged + [inv.cache.value] else tagged;
  }

  lemma DiscoveredComesFrom(inv: Inventory, config: CleanupConfig)
    requires inv.cache.Some? ==> inv.cache.value.resourceKind.BuildCache?
    ensures forall k :: 0 <= k < |Discovered(inv, config)| ==> ComesFrom(inv, config, Discovered(inv, config)[k])
  {
    hide ContainerCandidate, TaggedImage, TaggedVolume;
    var cs := Discovered(inv, config);
    var c, i, v := |inv.containers|, |inv.images|, |inv.volumes|;
    forall k | 0 <= k < |cs| ensures ComesFrom(inv, config, cs[k]) {
      if k < c {
        assert cs[k] == ContainerCandidate(inv.backend, inv.containers[k]);
        KindIsKept(inv, config, k, 0, 0);
      } else if k < c + i {
        assert cs[k] == TaggedImage(inv, config, inv.images[k - c]);
        KindIsKept(inv, config, 0, k - c, 0);
      } else if k < c + i + v {
        assert cs[k] == TaggedVolume(inv, inv.volumes[k - c - i]);
        KindIsKept(inv, config, 0, 0, k - c - i);
      } else {
        assert cs[k] == inv.cache.value;
      }
    }
  }

  /** No plan over any discovery holds an image whose normalised id a listed container uses,
      a volume a listed container mounts, an image of unknown labels while labels protect,
      or a container that is not listed as stopped. */
  lemma PlanSparesBusyResources(
      inv: Inventory, config: CleanupConfig, cs: seq<CandidateArtifact>, backend: BackendKind, k: nat)
    requires forall i :: 0 <= i < |cs| ==> ComesFrom(inv, config, cs[i])
    requires k < |Planner.PlanOf(config, backend, cs).actions|
    ensures
      var c := Planner.PlanOf(config, backend, cs).actions[k].candidate;
      match c.resourceKind
      case Container =>
        exists i :: 0 <= i < |inv.containers|
          && inv.containers[i].id == c.identifier && inv.containers[i].running == Some(false)
      case Image =>
        && (forall i :: 0 <= i < |inv.containers| ==>
              NormalizeImageId(inv.containers[i].imageId) != NormalizeImageId(c.identifier))
        && (config.protectedLabels != [] ==>
              exists i :: 0 <= i < |inv.images| && inv.images[i].labelsKnown && inv.images[i].labels == c.labels
                          && inv.images[i].identifier == c.identifier)
      case Volume => forall i :: 0 <= i < |inv.containers| ==> c.identifier !in inv.containers[i].mountNames
      case BuildCache => inv.cache.Some?
      case UnknownKind(_) => false
  {
    Planner.PlannedActionsAreEligible(config, backend, cs, k);
    var c := Planner.PlanOf(config, backend, cs).actions[k].candidate;
    Policy.AcceptanceIsExact(config, c);
    var j :| 0 <= j < |cs| && Planner.SameOrCut(c, cs[j]);
    assert ComesFrom(inv, config, cs[j]);
    match c.resourceKind {
      case Image =>
        var r := ReferencedImages(inv.containers);
        assert NormalizeImageId(c.identifier) !in r;
        forall i | 0 <= i < |inv.containers|
          ensures NormalizeImageId(inv.containers[i].imageId) != NormalizeImageId(c.identifier)
        {
          assert NormalizeImageId(inv.containers[i].imageId) in r;
        }
      case Volume =>
        var a := AttachedVolumes(inv.containers);
        assert c.identifier !in a;
        forall i | 0 <= i < |inv.containers| ensures c.identifier !in inv.containers[i].mountNames {
          assert inv.containers[i].mountNames <= a;
        }
      case _ =>
    }
  }

  // ---------- containers listed twice ----------

  /** Listed as stopped, with everything known that a deletion needs. */
  predicate IsDeletable(c: ContainerMetadata) {
    c.running == Some(false) && c.id != "" && c.sizeBytes.Some? && c.ageDays.Some?
  }

  /** No id is listed both as running and as a deletable container; distinct ids suffice. */
  predicate IsConsistent(containers: seq<ContainerMetadata>) {
    forall i, j :: 0 <= i < |containers| && 0 <= j < |containers|
                   && containers[i].running == Some(true) && IsDeletable(containers[j]) ==>
      containers[i].id != containers[j].id
  }

  function DeletableBytes(containers: seq<ContainerMetadata>): nat {
    if containers == [] then 0
    else
      var last := containers[|containers| - 1];
      DeletableBytes(containers[..|containers| - 1]) + (if IsDeletable(last) then last.sizeBytes.value else 0)
  }

  predicate IsRunning(containers: seq<ContainerMetadata>, id: string) {
    exists i | 0 <= i < |containers| :: containers[i].running == Some(true) && containers[i].id == id
  }

  /** The plan for the whole discovery deletes a container that is listed as running. */
  predicate PlansRunning(inv: Inventory, config: CleanupConfig) {
    var actions := Planner.PlanOf(config, inv.backend, Discovered(inv, config)).actions;
    exists k | 0 <= k < |actions| ::
      actions[k].candidate.resourceKind.Container? && IsRunning(inv.containers, actions[k].candidate.identifier)
  }

  /** For a consistent listing no plan deletes a running container, whatever the sizes and
      whatever the configuration. */
  lemma ConsistentListingIsSafe(inv: Inventory, config: CleanupConfig)
    requires inv.cache.Some? ==> inv.cache.value.resourceKind.BuildCache?
    requires IsConsistent(inv.containers)
    ensures !PlansRunning(inv, config)
  {
    hide IsConsistent, Discovered;
    var cs := Discovered(inv, config);
    var actions := Planner.PlanOf(config, inv.backend, cs).actions;
    DiscoveredComesFrom(inv, config);
    forall k | 0 <= k < |actions| && actions[k].candidate.resourceKind.Container?
      ensures !IsRunning(inv.containers, actions[k].candidate.identifier)
    {
      var j := PlannedContainerIsDeletable(inv, config, cs, k);
      DeletableIsNotRunning(inv.containers, j);
    }
  }

  lemma DeletableIsNotRunning(containers: seq<ContainerMetadata>, j: nat)
    requires IsConsistent(containers) && j < |containers| && IsDeletable(containers[j])
    ensures !IsRunning(containers, containers[j].id)
  {
  }

  lemma PlannedContainerIsDeletable(inv: Inventory, config: CleanupConfig, cs: seq<CandidateArtifact>, k: nat)
      returns (j: nat)
    requires forall n :: 0 <= n < |cs| ==> ComesFrom(inv, config, cs[n])
    requires k < |Planner.PlanOf(config, inv.backend, cs).actions|
    requires Planner.PlanOf(config, inv.backend, cs).actions[k].candidate.resourceKind.Container?
    ensures j < |inv.containers| && IsDeletable(inv.containers[j])
    ensures inv.containers[j].id == Planner.PlanOf(config, inv.backend, cs).actions[k].candidate.identifier
  {
    Planner.PlannedActionsAreEligible(config, inv.backend, cs, k);
    var c := Planner.PlanOf(config, inv.backend, cs).actions[k].candidate;
    Policy.AcceptanceIsExact(config, c);
    var n :| 0 <= n < |cs| && Planner.SameOrCut(c, cs[n]);
    assert ComesFrom(inv, config, cs[n]);
    j :| 0 <= j < |inv.containers| && cs[n] == ContainerCandidate(inv.backend, inv.containers[j]);
  }

  /** No allowlist, no age limit, no cap that a real disk could reach. */
  const PERMISSIVE := CleanupConfig(900, 85, 70, 0, U64_MAX, false, [], [], [])

  /** Exactly: as long as the deletable containers together have a size at all (64 bits), no
      configuration makes the planner delete a container listed as running, if and only if
      the listing is consistent. */
  lemma RunningIsSparedExactly(inv: Inventory)
    requires inv.cache.Some? ==> inv.cache.value.resourceKind.BuildCache?
    requires DeletableBytes(inv.containers) <= U64_MAX
    ensures IsConsistent(inv.containers) <==> forall config :: !PlansRunning(inv, config)
  {
    if IsConsistent(inv.containers) {
      forall config ensures !PlansRunning(inv, config) {
        ConsistentListingIsSafe(inv, config);
      }
    } else {
      var i, j :| 0 <= i < |inv.containers| && 0 <= j < |inv.containers|
                  && inv.containers[i].running == Some(true) && IsDeletable(inv.containers[j])
                  && inv.containers[i].id == inv.containers[j].id;
      RepeatedIdIsPlanned(inv, j);
    }
  }

  /** A container entered twice, as running and as deletable, is planned. */
  lemma RepeatedIdIsPlanned(inv: Inventory, j: nat)
    requires j < |inv.containers| && IsDeletable(inv.containers[j])
    requires IsRunning(inv.containers, inv.containers[j].id)
    requires DeletableBytes(inv.containers) <= U64_MAX
    ensures PlansRunning(inv, PERMISSIVE)
  {
    hide Discovered;
    var cs := Discovered(inv, PERMISSIVE);
    DiscoveryBeginsWith(inv, PERMISSIVE, j + 1);
    EarlierContainersFit(inv, PERMISSIVE, j + 1);
    Planner.PlanIsOnline(PERMISSIVE, inv.backend, cs, j + 1);
    var actions := Planner.PlanOf(PERMISSIVE, inv.backend, cs).actions;
    var k := LastPlanned(inv, j);
    assert actions[k].candidate == ContainerCandidate(inv.backend, inv.containers[j]);
  }

  lemma DiscoveryBeginsWith(inv: Inventory, config: CleanupConfig, k: nat)
    requires k <= |inv.containers|
    ensures k <= |Discovered(inv, config)| && Discovered(inv, config)[..k] == TaggedContainers(inv)[..k]
  {
  }

  lemma {:induction false} DeletableMore(containers: seq<ContainerMetadata>, k: nat)
    requires k <= |containers|
    ensures DeletableBytes(containers[..k]) <= DeletableBytes(containers)
    decreases |containers|
  {
    if k == |containers| {
      assert containers[..k] == containers;
    } else {
      DeletableMore(containers[..|containers| - 1], k);
      assert containers[..|containers| - 1][..k] == containers[..k];
    }
  }

  /** The containers up to k are planned as far as they are deletable, and leave the rest of
      the budget. */
  lemma {:induction false} EarlierContainersFit(inv: Inventory, config: CleanupConfig, k: nat)
    requires config == PERMISSIVE && k <= |inv.containers| && DeletableBytes(inv.containers) <= U64_MAX
    ensures Planner.BudgetAfter(config, inv.backend, TaggedContainers(inv)[..k]).remaining as int
            == U64_MAX - DeletableBytes(inv.containers[..k])
  {
    var cs := TaggedContainers(inv);
    if k == 0 {
      assert cs[..0] == [];
    } else {
      EarlierContainersFit(inv, config, k - 1);
      DeletableMore(inv.containers, k);
      assert inv.containers[..k][..k - 1] == inv.containers[..k - 1];
      Planner.BudgetStep(config, inv.backend, cs, k - 1);
      EligibleWhenDeletable(inv.backend, inv.containers[k - 1]);
    }
  }

  lemma EligibleWhenDeletable(backend: BackendKind, c: ContainerMetadata)
    ensures Planner.Eligible(PERMISSIVE, backend, ContainerCandidate(backend, c)) <==> IsDeletable(c)
  {
    Policy.AcceptanceIsExact(PERMISSIVE, ContainerCandidate(backend, c));
  }

  lemma LastPlanned(inv: Inventory, j: nat) returns (k: nat)
    requires j < |inv.containers| && IsDeletable(inv.containers[j]) && DeletableBytes(inv.containers) <= U64_MAX
    ensures
      var actions := Planner.PlanOf(PERMISSIVE, inv.backend, TaggedContainers(inv)[..j + 1]).actions;
      k < |actions| && actions[k].candidate == ContainerCandidate(inv.backend, inv.containers[j])
  {
    var cs := TaggedContainers(inv)[..j + 1];
    EarlierContainersFit(inv, PERMISSIVE, j);
    DeletableMore(inv.containers, j + 1);
    assert inv.containers[..j + 1][..j] == inv.containers[..j];
    assert cs[..j] == TaggedContainers(inv)[..j];
    EligibleWhenDeletable(inv.backend, inv.containers[j]);
    Planner.PlanStep(PERMISSIVE, inv.backend, cs);
    k := |Planner.PlanOf(PERMISSIVE, inv.backend, cs).actions| - 1;
  }

  // ---------- what is planned, in terms of the records read ----------

  lemma PlannedComesFrom(inv: Inventory, config: CleanupConfig, k: nat) returns (n: nat)
    requires inv.cache.Some? ==> inv.cache.value.resourceKind.BuildCache?
    requires k < |Planner.PlanOf(config, inv.backend, Discovered(inv, config)).actions|
    ensures
      var c := Planner.PlanOf(config, inv.backend, Discovered(inv, config)).actions[k].candidate;
      && Planner.Eligible(config, inv.backend, c)
      && n < |Discovered(inv, config)| && Planner.SameOrCut(c, Discovered(inv, config)[n])
      && ComesFrom(inv, config, Discovered(inv, config)[n])
  {
    hide Discovered, ComesFrom, Planner.Eligible;
    var cs := Discovered(inv, config);
    DiscoveredComesFrom(inv, config);
    Planner.PlannedActionsAreEligible(config, inv.backend, cs, k);
    var c := Planner.PlanOf(config, inv.backend, cs).actions[k].candidate;
    n :| 0 <= n < |cs| && Planner.SameOrCut(c, cs[n]);
  }

  /** Name, labels, age and size of a planned resource are those of a record with its id; a
      volume's size is the one listed for it. */
  lemma PlannedResourceIsListed(inv: Inventory, config: CleanupConfig, k: nat)
    requires inv.cache.Some? ==> inv.cache.value.resourceKind.BuildCache?
    requires k < |Planner.PlanOf(config, inv.backend, Discovered(inv, config)).actions|
    ensures
      var c := Planner.PlanOf(config, inv.backend, Discovered(inv, config)).actions[k].candidate;
      match c.resourceKind
      case Container =>
        exists i :: 0 <= i < |inv.containers| && inv.containers[i].id == c.identifier
          && inv.containers[i].name == c.displayName && inv.containers[i].labels == c.labels
          && inv.containers[i].ageDays == c.ageDays && inv.containers[i].sizeBytes == c.sizeBytes
          && c.ageDays.Some? && c.sizeBytes.Some? && inv.containers[i].running == Some(false)
      case Image =>
        exists i :: 0 <= i < |inv.images| && inv.images[i].identifier == c.identifier
          && inv.images[i].displayName == c.displayName && inv.images[i].labels == c.labels
          && inv.images[i].ageDays == c.ageDays && inv.images[i].sizeBytes == c.sizeBytes
          && c.ageDays.Some? && c.sizeBytes.Some?
      case Volume =>
        exists i :: 0 <= i < |inv.volumes| && inv.volumes[i].identifier == c.identifier
          && c.displayName == Some(c.identifier) && inv.volumes[i].labels == c.labels
          && inv.volumes[i].ageDays == c.ageDays && c.ageDays.Some?
          && c.sizeBytes == (if c.identifier in inv.volumeSizes then Some(inv.volumeSizes[c.identifier]) else None)
          && (inv.backend == Docker ==> c.sizeBytes.Some?)
      case BuildCache => inv.cache.Some?
      case UnknownKind(_) => false
  {
    hide Discovered, Planner.PlanOf;
    var n := PlannedComesFrom(inv, config, k);
    Policy.AcceptanceIsExact(config, Planner.PlanOf(config, inv.backend, Discovered(inv, config)).actions[k].candidate);
  }

  /** So a listed label, name or age protects: whatever record a planned image or volume comes
      from, no entry of a list names it, no entry names a label of it, and it is old enough. */
  lemma ListedProtectionHolds(inv: Inventory, config: CleanupConfig, k: nat)
    requires inv.cache.Some? ==> inv.cache.value.resourceKind.BuildCache?
    requires k < |Planner.PlanOf(config, inv.backend, Discovered(inv, config)).actions|
    ensures
      var c := Planner.PlanOf(config, inv.backend, Discovered(inv, config)).actions[k].candidate;
      && (c.resourceKind.Container? ==>
            exists i :: 0 <= i < |inv.containers| && inv.containers[i].id == c.identifier
              && Unlabelled(config, inv.containers[i].labels) && OldEnough(config, inv.containers[i].ageDays))
      && (c.resourceKind.Image? ==>
            exists i :: 0 <= i < |inv.images| && inv.images[i].identifier == c.identifier
              && Unlisted(config.protectedImages, inv.images[i].identifier, inv.images[i].displayName)
              && Unlabelled(config, inv.images[i].labels) && OldEnough(config, inv.images[i].ageDays))
      && (c.resourceKind.Volume? ==>
            exists i :: 0 <= i < |inv.volumes| && inv.volumes[i].identifier == c.identifier
              && Unlisted(config.protectedVolumes, inv.volumes[i].identifier, None)
              && Unlabelled(config, inv.volumes[i].labels) && OldEnough(config, inv.volumes[i].ageDays))
  {
    hide Discovered, Planner.PlanOf, Policy.Lists;
    PlannedResourceIsListed(inv, config, k);
    var n := PlannedComesFrom(inv, config, k);
    Policy.AcceptanceByName(config, Planner.PlanOf(config, inv.backend, Discovered(inv, config)).actions[k].candidate);
  }

  /** No entry of the list is the id or the name, whatever the space around. */
  ghost predicate Unlisted(allowlist: seq<string>, id: string, name: Option<string>) {
    !Policy.Lists(allowlist, id) && (name.Some? ==> !Policy.Lists(allowlist, name.value))
  }

  ghost predicate Unlabelled(config: CleanupConfig, labels: set<string>) {
    forall tag :: tag in labels ==> !Policy.Lists(config.protectedLabels, tag)
  }

  predicate OldEnough(config: CleanupConfig, age: Option<u64>) {
    age.Some? && age.value >= config.minUnusedAgeDays
  }

  /** And nothing else keeps a resource: exactly the records that are complete, free, old
      enough and unprotected become eligible candidates. */
  lemma RecordsAreEligibleExactly(inv: Inventory, config: CleanupConfig, c: nat, i: nat, v: nat)
    ensures c < |inv.containers| ==>
      var r := inv.containers[c];
      (Planner.Eligible(config, inv.backend, TaggedContainers(inv)[c])
       <==> r.id != "" && r.running == Some(false) && r.sizeBytes.Some?
            && OldEnough(config, r.ageDays) && Unlabelled(config, r.labels))
    ensures i < |inv.images| ==>
      var r := inv.images[i];
      (Planner.Eligible(config, inv.backend, TaggedImages(inv, config)[i])
       <==> r.identifier != "" && r.sizeBytes.Some? && (r.labelsKnown || config.protectedLabels == [])
            && (forall k :: 0 <= k < |inv.containers| ==>
                  NormalizeImageId(inv.containers[k].imageId) != NormalizeImageId(r.identifier))
            && OldEnough(config, r.ageDays) && Unlabelled(config, r.labels)
            && Unlisted(config.protectedImages, r.identifier, r.displayName))
    ensures v < |inv.volumes| ==>
      var r := inv.volumes[v];
      (Planner.Eligible(config, inv.backend, TaggedVolumes(inv)[v])
       <==> r.identifier != "" && (r.identifier in inv.volumeSizes || inv.backend != Docker)
            && (forall k :: 0 <= k < |inv.containers| ==> r.identifier !in inv.containers[k].mountNames)
            && OldEnough(config, r.ageDays) && Unlabelled(config, r.labels)
            && Unlisted(config.protectedVolumes, r.identifier, None))
  {
    hide Policy.Lists, NormalizeImageId, Policy.RejectionReason;
    if c < |inv.containers| {
      Policy.AcceptanceByName(config, TaggedContainers(inv)[c]);
    }
    if i < |inv.images| {
      ImageIsEligibleExactly(inv, config, i);
    }
    if v < |inv.volumes| {
      VolumeIsEligibleExactly(inv, config, v);
    }
  }

  lemma ImageIsEligibleExactly(inv: Inventory, config: CleanupConfig, i: nat)
    requires i < |inv.images|
    ensures
      var r := inv.images[i];
      (Planner.Eligible(config, inv.backend, TaggedImages(inv, config)[i])
       <==> r.identifier != "" && r.sizeBytes.Some? && (r.labelsKnown || config.protectedLabels == [])
            && (forall k :: 0 <= k < |inv.containers| ==>
                  NormalizeImageId(inv.containers[k].imageId) != NormalizeImageId(r.identifier))
            && OldEnough(config, r.ageDays) && Unlabelled(config, r.labels)
            && Unlisted(config.protectedImages, r.identifier, r.displayName))
  {
    hide Policy.Lists, NormalizeImageId, Policy.RejectionReason;
    Policy.AcceptanceByName(config, TaggedImages(inv, config)[i]);
    var used := ReferencedImages(inv.containers);
    assert forall k :: 0 <= k < |inv.containers| ==> NormalizeImageId(inv.containers[k].imageId) in used;
  }

  lemma VolumeIsEligibleExactly(inv: Inventory, config: CleanupConfig, v: nat)
    requires v < |inv.volumes|
    ensures
      var r := inv.volumes[v];
      (Planner.Eligible(config, inv.backend, TaggedVolumes(inv)[v])
       <==> r.identifier != "" && (r.identifier in inv.volumeSizes || inv.backend != Docker)
            && (forall k :: 0 <= k < |inv.containers| ==> r.identifier !in inv.containers[k].mountNames)
            && OldEnough(config, r.ageDays) && Unlabelled(config, r.labels)
            && Unlisted(config.protectedVolumes, r.identifier, None))
  {
    hide Policy.Lists, Policy.RejectionReason;
    Policy.AcceptanceByName(config, TaggedVolumes(inv)[v]);
    var attached, running := AttachedVolumes(inv.containers), RunningAttachedVolumes(inv.containers);
    assert running <= attached;
    forall k | 0 <= k < |inv.containers| ensures inv.containers[k].mountNames <= attached {
    }
  }

  /** A listed container keeps its image out of every plan, whichever way either of them
      spells the digest. */
  lemma UsedImageIsSpared(
      inv: Inventory, config: CleanupConfig, cs: seq<CandidateArtifact>, backend: BackendKind, k: nat, i: nat, id: string)
    requires forall n :: 0 <= n < |cs| ==> ComesFrom(inv, config, cs[n])
    requires k < |Planner.PlanOf(config, backend, cs).actions|
    requires Planner.PlanOf(config, backend, cs).actions[k].candidate.resourceKind.Image?
    requires i < |inv.containers| && IsBareId(id) && inv.containers[i].imageId in {id, DIGEST + id}
    ensures Planner.PlanOf(config, backend, cs).actions[k].candidate.identifier !in {id, DIGEST + id}
  {
    hide NormalizeImageId, Planner.PlanOf, ComesFrom, IsBareId;
    PlanSparesBusyResources(inv, config, cs, backend, k);
    PrefixIsNoDifference([], id, []);
    assert [] + id + [] == id && [] + (DIGEST + id) + [] == DIGEST + id;
    assert NormalizeImageId(inv.containers[i].imageId) == id;
  }
}
