/** The shared data model of src/domain.rs and src/error.rs.
    Timestamps are clock readings that no decision looks at; they are not part of the model. */
module Domain {
  import opened Wrappers

  const U64_MAX: int := 0xFFFF_FFFF_FFFF_FFFF

  type u64 = x: int | 0 <= x <= U64_MAX
  type u8 = x: int | 0 <= x < 256

  function SaturatingAdd(a: u64, b: u64): u64 {
    if a + b > U64_MAX then U64_MAX else a + b
  }

  function SaturatingSub(a: u64, b: u64): u64 {
    if a < b then 0 else a - b
  }

  function SaturatingMul(a: u64, b: u64): u64 {
    var product: int := a * b;
    if product <= U64_MAX && product >= 0 then product else U64_MAX
  }

  datatype CleanupConfig = CleanupConfig(
    intervalSecs: u64,
    highWatermarkPercent: u8,
    targetWatermarkPercent: u8,
    minUnusedAgeDays: u64,
    maxDeletePerRunGb: u64,
    dryRun: bool,
    protectedImages: seq<string>,
    protectedVolumes: seq<string>,
    protectedLabels: seq<string>)

  datatype BackendKind = Docker | Podman | Custom(name: string)

  datatype ResourceKind = Container | Image | Volume | BuildCache | UnknownKind(name: string)

  datatype UsageSnapshot = UsageSnapshot(
    usedBytes: u64, totalBytes: Option<u64>, usedPercent: Option<u8>)
  {
    /** `as u8` keeps the low eight bits of the quotient. */
    function PercentUsed(): Option<u8> {
      if usedPercent.Some? then
        usedPercent
      else if totalBytes.Some? && totalBytes.value > 0 then
        Some((SaturatingMul(usedBytes, 100) / totalBytes.value) % 256)
      else
        None
    }
  }

  datatype CandidateArtifact = CandidateArtifact(
    backend: BackendKind,
    resourceKind: ResourceKind,
    identifier: string,
    displayName: Option<string>,
    labels: set<string>,
    sizeBytes: Option<u64>,
    ageDays: Option<u64>,
    inUse: Option<bool>,
    referenced: Option<bool>,
    isProtected: bool,
    metadataComplete: bool,
    metadataAmbiguous: bool)
  {
    /** What deletion asks of a candidate: every signal present and none against it. */
    predicate IsActionable() {
      && metadataComplete
      && !metadataAmbiguous
      && !isProtected
      && inUse == Some(false)
      && referenced == Some(false)
      && ageDays.Some?
    }
  }

  datatype SkipReason =
    | MetadataIncomplete
    | MetadataAmbiguous
    | MarkedProtected
    | ProtectedImageAllowlist
    | ProtectedVolumeAllowlist
    | ProtectedLabelAllowlist
    | InUse
    | InUseUnknown
    | Referenced
    | ReferencedUnknown
    | AgeUnknown
    | TooNew
    | BackendMismatch
    | SizeUnknown
    | DeletionCapReached

  datatype SkippedCandidate = SkippedCandidate(candidate: CandidateArtifact, reason: SkipReason)

  /** The only action kind is a delete, so it is not stored. */
  datatype PlannedAction = PlannedAction(candidate: CandidateArtifact, dryRun: bool)

  datatype ActionPlan = ActionPlan(
    backend: BackendKind,
    dryRun: bool,
    actions: seq<PlannedAction>,
    skipped: seq<SkippedCandidate>)

  datatype ExecutionResponse = ExecutionResponse(
    backend: BackendKind, candidate: CandidateArtifact, executed: bool, dryRun: bool)

  datatype CleanupError =
    | UnsupportedBackend(backend: BackendKind)
    | HealthCheckError(backend: BackendKind, message: string)
    | UsageError(backend: BackendKind, message: string)
    | DiscoveryError(backend: BackendKind, message: string)
    | ExecutionError(backend: BackendKind, message: string)
    | SafetyViolation(message: string)

  /** The snapshot both adapters build from a measurement: they compute the percent
      themselves, if there is any capacity to compare with. */
  function Measured(used: u64, total: u64): UsageSnapshot {
    UsageSnapshot(used, Some(total), if total > 0 then Some((SaturatingMul(used, 100) / total) % 256) else None)
  }

  /** A measured snapshot reports what the snapshot without its percent would: the formulas
      agree, and a capacity of zero leaves the percent unknown. */
  lemma MeasuredPercentAgrees(used: u64, total: u64)
    ensures Measured(used, total).PercentUsed() == Measured(used, total).(usedPercent := None).PercentUsed()
    ensures Measured(used, total).PercentUsed().None? <==> total == 0
  {
  }

  /** With used <= total the percent, whether the adapter or the snapshot computes it, is at
      most 100, so the `as u8` cast drops nothing; and it is the exact quotient as long as
      used * 100 does not saturate. */
  lemma PercentUsedIsBounded(u: UsageSnapshot)
    requires u.totalBytes.Some? && u.totalBytes.value > 0
    requires u.usedPercent.None? || u == Measured(u.usedBytes, u.totalBytes.value)
    requires u.usedBytes <= u.totalBytes.value
    ensures u.PercentUsed().Some?
    ensures u.PercentUsed().value == SaturatingMul(u.usedBytes, 100) / u.totalBytes.value
    ensures u.PercentUsed().value <= 100
    ensures u.usedBytes * 100 <= U64_MAX
            ==> u.PercentUsed().value == (u.usedBytes * 100) / u.totalBytes.value
  {
    var scaled := SaturatingMul(u.usedBytes, 100);
    SaturatedProduct(u.usedBytes);
    QuotientAtMost(scaled, 100, u.totalBytes.value);
    SmallByte(scaled / u.totalBytes.value);
  }

  lemma SaturatedProduct(used: u64)
    ensures SaturatingMul(used, 100) <= 100 * (used as int)
    ensures 100 * (used as int) <= U64_MAX ==> SaturatingMul(used, 100) as int == (used as int) * 100
  {
  }

  lemma SmallByte(n: nat)
    ensures n <= 100 ==> n % 256 == n
  {
  }

  lemma QuotientAtMost(n: nat, k: nat, d: nat)
    requires d > 0 && n <= k * d
    ensures n / d <= k
  {
  }
}
