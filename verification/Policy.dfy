/** The fail-closed candidate filter of src/policy.rs. */
module Policy {
  import opened Wrappers
  import opened Domain
  import Text

  predicate ValueMatchesAllowlist(value: string, allowlist: seq<string>) {
    var trimmed := Text.Trim(value);
    trimmed != [] && exists i | 0 <= i < |allowlist| :: Text.Trim(allowlist[i]) == trimmed
  }

  predicate NameMatches(c: CandidateArtifact, allowlist: seq<string>) {
    || ValueMatchesAllowlist(c.identifier, allowlist)
    || (c.displayName.Some? && ValueMatchesAllowlist(c.displayName.value, allowlist))
  }

  predicate IsProtectedImage(config: CleanupConfig, c: CandidateArtifact) {
    c.resourceKind.Image? && NameMatches(c, config.protectedImages)
  }

  predicate IsProtectedVolume(config: CleanupConfig, c: CandidateArtifact) {
    c.resourceKind.Volume? && NameMatches(c, config.protectedVolumes)
  }

  predicate MatchesProtectedLabel(config: CleanupConfig, c: CandidateArtifact) {
    exists tag | tag in c.labels :: ValueMatchesAllowlist(tag, config.protectedLabels)
  }

  /** Ordered checks; the first one that fails names the reason. */
  function RejectionReason(config: CleanupConfig, c: CandidateArtifact): Option<SkipReason> {
    if !c.metadataComplete then Some(MetadataIncomplete)
    else if c.metadataAmbiguous then Some(MetadataAmbiguous)
    else if c.isProtected then Some(MarkedProtected)
    else if IsProtectedImage(config, c) then Some(ProtectedImageAllowlist)
    else if IsProtectedVolume(config, c) then Some(ProtectedVolumeAllowlist)
    else if MatchesProtectedLabel(config, c) then Some(ProtectedLabelAllowlist)
    else if c.inUse == Some(true) then Some(InUse)
    else if c.inUse.None? then Some(InUseUnknown)
    else if c.referenced == Some(true) then Some(Referenced)
    else if c.referenced.None? then Some(ReferencedUnknown)
    else if c.ageDays.None? then Some(AgeUnknown)
    else if c.ageDays.value < config.minUnusedAgeDays then Some(TooNew)
    else None
  }

  predicate Accepts(config: CleanupConfig, c: CandidateArtifact) {
    RejectionReason(config, c).None?
  }

  predicate Allowlisted(config: CleanupConfig, c: CandidateArtifact) {
    IsProtectedImage(config, c) || IsProtectedVolume(config, c) || MatchesProtectedLabel(config, c)
  }

  lemma KnownFlag(flag: Option<bool>)
    ensures flag == Some(true) || flag == Some(false) || flag == None
  {
    if flag.Some? {
      assert flag == Some(if flag.value then true else false);
    }
  }

  /** What acceptance means: exactly the actionable candidates of src/domain.rs that match
      no allowlist and are old enough. */
  lemma AcceptanceIsExact(config: CleanupConfig, c: CandidateArtifact)
    ensures Accepts(config, c) <==>
            c.IsActionable() && !Allowlisted(config, c) && c.ageDays.value >= config.minUnusedAgeDays
  {
    KnownFlag(c.inUse);
    KnownFlag(c.referenced);
  }

  /** The verdict never looks at the size. */
  lemma SizeIsIrrelevant(config: CleanupConfig, c: CandidateArtifact, size: Option<u64>)
    ensures RejectionReason(config, c.(sizeBytes := size)) == RejectionReason(config, c)
  {
    var resized := c.(sizeBytes := size);
    assert IsProtectedImage(config, c) == IsProtectedImage(config, resized);
    assert IsProtectedVolume(config, c) == IsProtectedVolume(config, resized);
    assert MatchesProtectedLabel(config, c) == MatchesProtectedLabel(config, resized) by {
      assert c.labels == resized.labels;
    }
  }

  /** The checks a candidate can fail, in the order the source applies them. */
  const CHECKS := [MetadataIncomplete, MetadataAmbiguous, MarkedProtected, ProtectedImageAllowlist,
                   ProtectedVolumeAllowlist, ProtectedLabelAllowlist, InUse, InUseUnknown,
                   Referenced, ReferencedUnknown, AgeUnknown, TooNew]

  predicate Violates(config: CleanupConfig, c: CandidateArtifact, check: SkipReason) {
    match check
    case MetadataIncomplete => !c.metadataComplete
    case MetadataAmbiguous => c.metadataAmbiguous
    case MarkedProtected => c.isProtected
    case ProtectedImageAllowlist => IsProtectedImage(config, c)
    case ProtectedVolumeAllowlist => IsProtectedVolume(config, c)
    case ProtectedLabelAllowlist => MatchesProtectedLabel(config, c)
    case InUse => c.inUse == Some(true)
    case InUseUnknown => c.inUse.None?
    case Referenced => c.referenced == Some(true)
    case ReferencedUnknown => c.referenced.None?
    case AgeUnknown => c.ageDays.None?
    case TooNew => c.ageDays.Some? && c.ageDays.value < config.minUnusedAgeDays
    case _ => false
  }

  /** The reported reason is the first check that fails. */
  lemma ReasonIsFirstFailedCheck(config: CleanupConfig, c: CandidateArtifact, k: nat)
    requires k < |CHECKS|
    ensures RejectionReason(config, c) == Some(CHECKS[k])
            <==> Violates(config, c, CHECKS[k]) && forall j :: 0 <= j < k ==> !Violates(config, c, CHECKS[j])
    ensures RejectionReason(config, c).Some? ==> RejectionReason(config, c).value in CHECKS
  {
    hide IsProtectedImage, IsProtectedVolume, MatchesProtectedLabel;
    assert k in {0, 1, 2, 3, 4, 5, 6, 7, 8, 9, 10, 11};
    var all := CHECKS;
    assert all[0] == MetadataIncomplete && all[1] == MetadataAmbiguous && all[2] == MarkedProtected;
    assert all[3] == ProtectedImageAllowlist && all[4] == ProtectedVolumeAllowlist && all[5] == ProtectedLabelAllowlist;
    assert all[6] == InUse && all[7] == InUseUnknown && all[8] == Referenced;
    assert all[9] == ReferencedUnknown && all[10] == AgeUnknown && all[11] == TooNew;
  }

  function Accepted(config: CleanupConfig, cs: seq<CandidateArtifact>): seq<CandidateArtifact> {
    if cs == [] then []
    else
      Accepted(config, cs[..|cs| - 1])
      + (if Accepts(config, cs[|cs| - 1]) then [cs[|cs| - 1]] else [])
  }

  function Rejected(config: CleanupConfig, cs: seq<CandidateArtifact>): seq<SkippedCandidate> {
    if cs == [] then []
    else
      var c := cs[|cs| - 1];
      Rejected(config, cs[..|cs| - 1])
      + (if Accepts(config, c) then [] else [SkippedCandidate(c, RejectionReason(config, c).value)])
  }

  method EvaluateCandidates(config: CleanupConfig, candidates: seq<CandidateArtifact>)
    returns (accepted: seq<CandidateArtifact>, skipped: seq<SkippedCandidate>)
    ensures accepted == Accepted(config, candidates)
    ensures skipped == Rejected(config, candidates)
    ensures |accepted| + |skipped| == |candidates|
  {
    accepted, skipped := [], [];
    for i := 0 to |candidates|
      invariant accepted == Accepted(config, candidates[..i])
      invariant skipped == Rejected(config, candidates[..i])
      invariant |accepted| + |skipped| == i
    {
      assert candidates[..i + 1][..i] == candidates[..i];
      match RejectionReason(config, candidates[i]) {
        case Some(reason) => skipped := skipped + [SkippedCandidate(candidates[i], reason)];
        case None => accepted := accepted + [candidates[i]];
      }
    }
    assert candidates[..|candidates|] == candidates;
  }

  // ---------- what the allowlists protect ----------

  lemma AllowlistFindsNames(value: string, allowlist: seq<string>)
    ensures ValueMatchesAllowlist(value, allowlist)
            <==> exists i :: 0 <= i < |allowlist| && Text.SameName(value, allowlist[i])
  {
    forall i | 0 <= i < |allowlist|
      ensures Text.SameName(value, allowlist[i]) <==> Text.Trim(value) != [] && Text.Trim(value) == Text.Trim(allowlist[i])
    {
      Text.TrimmingFindsNames(value, allowlist[i]);
    }
  }

  /** Some entry of the list is this name, whatever the space around either. */
  ghost predicate Lists(allowlist: seq<string>, name: string) {
    exists i :: 0 <= i < |allowlist| && Text.SameName(name, allowlist[i])
  }

  /** Acceptance in terms of names: an image or volume is protected by its identifier or its
      display name, and everything by its labels; nothing else protects. */
  lemma AcceptanceByName(config: CleanupConfig, c: CandidateArtifact)
    ensures Accepts(config, c) <==>
      && c.IsActionable() && c.ageDays.value >= config.minUnusedAgeDays
      && (c.resourceKind.Image? ==>
            && !Lists(config.protectedImages, c.identifier)
            && (c.displayName.Some? ==> !Lists(config.protectedImages, c.displayName.value)))
      && (c.resourceKind.Volume? ==>
            && !Lists(config.protectedVolumes, c.identifier)
            && (c.displayName.Some? ==> !Lists(config.protectedVolumes, c.displayName.value)))
      && (forall tag :: tag in c.labels ==> !Lists(config.protectedLabels, tag))
  {
    hide ValueMatchesAllowlist, RejectionReason;
    AcceptanceIsExact(config, c);
    AllowlistFindsNames(c.identifier, config.protectedImages);
    AllowlistFindsNames(c.identifier, config.protectedVolumes);
    if c.displayName.Some? {
      AllowlistFindsNames(c.displayName.value, config.protectedImages);
      AllowlistFindsNames(c.displayName.value, config.protectedVolumes);
    }
    forall tag | tag in c.labels
      ensures ValueMatchesAllowlist(tag, config.protectedLabels) <==> Lists(config.protectedLabels, tag)
    {
      AllowlistFindsNames(tag, config.protectedLabels);
    }
  }
}
