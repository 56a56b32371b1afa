/** The byte-budget planner of src/planner.rs: the imperative loop, the online decision
    procedure that specifies it, and the laws of every plan. */
module Planner {
  import opened Wrappers
  import opened Domain
  import opened Policy
  import Text

  const BYTES_PER_GIB: u64 := 1024 * 1024 * 1024

  function DeleteCap(config: CleanupConfig): u64 {
    SaturatingMul(config.maxDeletePerRunGb, BYTES_PER_GIB)
  }

  datatype Decision = Plan(candidate: CandidateArtifact) | Skip(reason: SkipReason)

  /** What is left of the delete budget, and whether an unknown size has reserved it. */
  datatype Budget = Budget(remaining: u64, reserved: bool)

  datatype Verdict = Verdict(decision: Decision, budget: Budget)

  /** The decision on one candidate given the budget the earlier ones left. */
  function Decide(config: CleanupConfig, backend: BackendKind, b: Budget, c: CandidateArtifact): Verdict {
    var rejection := RejectionReason(config, c);
    if rejection.Some? then
      Verdict(Skip(rejection.value), b)
    else if c.backend != backend then
      Verdict(Skip(BackendMismatch), b)
    else if c.sizeBytes.None? then
      if b.remaining == 0 then Verdict(Skip(DeletionCapReached), b)
      else if b.reserved then Verdict(Skip(SizeUnknown), b)
      else Verdict(Plan(c), Budget(0, true))
    else if c.sizeBytes.value <= b.remaining then
      Verdict(Plan(c), b.(remaining := b.remaining - c.sizeBytes.value))
    else if c.resourceKind.BuildCache? && b.remaining > 0 then
      Verdict(Plan(c.(sizeBytes := Some(b.remaining))), b.(remaining := 0))
    else
      Verdict(Skip(DeletionCapReached), b)
  }

  function BudgetAfter(config: CleanupConfig, backend: BackendKind, cs: seq<CandidateArtifact>): Budget {
    if cs == [] then Budget(DeleteCap(config), false)
    else Decide(config, backend, BudgetAfter(config, backend, cs[..|cs| - 1]), cs[|cs| - 1]).budget
  }

  function DecisionOn(config: CleanupConfig, backend: BackendKind, cs: seq<CandidateArtifact>, i: nat): Decision
    requires i < |cs|
  {
    Decide(config, backend, BudgetAfter(config, backend, cs[..i]), cs[i]).decision
  }

  function Actions(config: CleanupConfig, backend: BackendKind, cs: seq<CandidateArtifact>): seq<PlannedAction> {
    if cs == [] then []
    else
      var d := DecisionOn(config, backend, cs, |cs| - 1);
      Actions(config, backend, cs[..|cs| - 1])
      + (if d.Plan? then [PlannedAction(d.candidate, config.dryRun)] else [])
  }

  function Skips(config: CleanupConfig, backend: BackendKind, cs: seq<CandidateArtifact>): seq<SkippedCandidate> {
    if cs == [] then []
    else
      var d := DecisionOn(config, backend, cs, |cs| - 1);
      Skips(config, backend, cs[..|cs| - 1])
      + (if d.Skip? then [SkippedCandidate(cs[|cs| - 1], d.reason)] else [])
  }

  function PlanOf(config: CleanupConfig, backend: BackendKind, cs: seq<CandidateArtifact>): ActionPlan {
    ActionPlan(backend, config.dryRun, Actions(config, backend, cs), Skips(config, backend, cs))
  }

  class CleanupPlanner {
    const config: CleanupConfig

    constructor (config: CleanupConfig)
      ensures this.config == config
    {
      this.config := config;
    }

    /** The request carries its own config; the constructor's is not consulted. */
    method Plan(backend: BackendKind, config: CleanupConfig, candidates: seq<CandidateArtifact>)
      returns (plan: ActionPlan)
      ensures plan == PlanOf(config, backend, candidates)
    {
      var actions: seq<PlannedAction> := [];
      var skipped: seq<SkippedCandidate> := [];
      var remaining := DeleteCap(config);
      var unknownSizeReserved := false;

      for i := 0 to |candidates|
        invariant Budget(remaining, unknownSizeReserved) == BudgetAfter(config, backend, candidates[..i])
        invariant actions == Actions(config, backend, candidates[..i])
        invariant skipped == Skips(config, backend, candidates[..i])
      {
        var candidate := candidates[i];
        assert candidates[..i + 1][..i] == candidates[..i];
        var rejection := RejectionReason(config, candidate);
        if rejection.Some? {
          skipped := skipped + [SkippedCandidate(candidate, rejection.value)];
          continue;
        }
        if candidate.backend != backend {
          skipped := skipped + [SkippedCandidate(candidate, BackendMismatch)];
          continue;
        }

        var size: u64;
        if candidate.sizeBytes.Some? {
          size := candidate.sizeBytes.value;
        } else {
          if remaining == 0 || unknownSizeReserved {
            var reason := if remaining == 0 then DeletionCapReached else SizeUnknown;
            skipped := skipped + [SkippedCandidate(candidate, reason)];
            continue;
          }
          unknownSizeReserved := true;
          remaining := 0;
          size := 0;
        }

        if size > remaining {
          if candidate.resourceKind.BuildCache? && remaining > 0 {
            candidate := candidate.(sizeBytes := Some(remaining));
            actions := actions + [PlannedAction(candidate, config.dryRun)];
            remaining := 0;
            continue;
          }
          skipped := skipped + [SkippedCandidate(candidate, DeletionCapReached)];
          continue;
        }

        remaining := SaturatingSub(remaining, size);
        actions := actions + [PlannedAction(candidate, config.dryRun)];
      }
      assert candidates[..|candidates|] == candidates;
      plan := ActionPlan(backend, config.dryRun, actions, skipped);
    }
  }

  /** One more candidate: exactly one of the two lists grows, and what the budget loses is
      the size of the new action (everything, if its size is unknown). */
  lemma PlanStep(config: CleanupConfig, backend: BackendKind, cs: seq<CandidateArtifact>)
    requires cs != []
    ensures
      var n := |cs| - 1;
      var before, after := PlanOf(config, backend, cs[..n]), PlanOf(config, backend, cs);
      var left := BudgetAfter(config, backend, cs[..n]).remaining;
      var left' := BudgetAfter(config, backend, cs).remaining;
      match DecisionOn(config, backend, cs, n)
      case Plan(c) =>
        && after.actions == before.actions + [PlannedAction(c, config.dryRun)]
        && after.skipped == before.skipped
        && SameOrCut(c, cs[n])
        && left' == (if c.sizeBytes.Some? then left - c.sizeBytes.value else 0)
      case Skip(reason) =>
        && after.actions == before.actions
        && after.skipped == before.skipped + [SkippedCandidate(cs[n], reason)]
        && left' == left
  {
    hide RejectionReason;
  }

  // ---------- order-preserving partition, decided online ----------

  /** Deals the two output lists back into one sequence: `flags[i]` says which list the
      i-th entry comes from. Yields None unless both lists are used up exactly. */
  function Weave(flags: seq<bool>, actions: seq<PlannedAction>, skipped: seq<SkippedCandidate>)
    : Option<seq<CandidateArtifact>>
  {
    if flags == [] then
      if actions == [] && skipped == [] then Some([]) else None
    else if flags[|flags| - 1] then
      if actions == [] then None
      else
        var rest := Weave(flags[..|flags| - 1], actions[..|actions| - 1], skipped);
        if rest.None? then None else Some(rest.value + [actions[|actions| - 1].candidate])
    else
      if skipped == [] then None
      else
        var rest := Weave(flags[..|flags| - 1], actions, skipped[..|skipped| - 1]);
        if rest.None? then None else Some(rest.value + [skipped[|skipped| - 1].candidate])
  }

  /** Equal, or the same build cache with its size cut down to a smaller positive one. */
  predicate SameOrCut(planned: CandidateArtifact, original: CandidateArtifact) {
    || planned == original
    || IsCut(planned, original)
  }

  predicate IsCut(planned: CandidateArtifact, original: CandidateArtifact) {
    && original.resourceKind.BuildCache?
    && planned.sizeBytes.Some? && original.sizeBytes.Some?
    && 0 < planned.sizeBytes.value < original.sizeBytes.value
    && planned == original.(sizeBytes := planned.sizeBytes)
  }

  ghost function PlanFlags(config: CleanupConfig, backend: BackendKind, cs: seq<CandidateArtifact>): (flags: seq<bool>)
    ensures |flags| == |cs|
  {
    seq(|cs|, i requires 0 <= i < |cs| => DecisionOn(config, backend, cs, i).Plan?)
  }

  lemma WeaveAction(flags: seq<bool>, actions: seq<PlannedAction>, skipped: seq<SkippedCandidate>, a: PlannedAction)
    ensures Weave(flags, actions, skipped).Some? ==>
            Weave(flags + [true], actions + [a], skipped)
            == Some(Weave(flags, actions, skipped).value + [a.candidate])
  {
    assert (flags + [true])[..|flags|] == flags;
    assert (actions + [a])[..|actions|] == actions;
  }

  lemma WeaveSkip(flags: seq<bool>, actions: seq<PlannedAction>, skipped: seq<SkippedCandidate>, s: SkippedCandidate)
    ensures Weave(flags, actions, skipped).Some? ==>
            Weave(flags + [false], actions, skipped + [s])
            == Some(Weave(flags, actions, skipped).value + [s.candidate])
  {
    assert (flags + [false])[..|flags|] == flags;
    assert (skipped + [s])[..|skipped|] == skipped;
  }

  lemma PlanFlagsStep(config: CleanupConfig, backend: BackendKind, cs: seq<CandidateArtifact>)
    requires cs != []
    ensures PlanFlags(config, backend, cs)
            == PlanFlags(config, backend, cs[..|cs| - 1]) + [DecisionOn(config, backend, cs, |cs| - 1).Plan?]
  {
    var n := |cs| - 1;
    var flags := PlanFlags(config, backend, cs);
    forall i | 0 <= i < n ensures flags[i] == PlanFlags(config, backend, cs[..n])[i] {
      assert cs[..n][..i] == cs[..i];
    }
  }

  ghost predicate Partitions(flags: seq<bool>, plan: ActionPlan, cs: seq<CandidateArtifact>) {
    var woven := Weave(flags, plan.actions, plan.skipped);
    && |plan.actions| + |plan.skipped| == |cs|
    && woven.Some?
    && |woven.value| == |cs|
    && forall i :: 0 <= i < |cs| ==> SameOrCut(woven.value[i], cs[i])
  }

  lemma PartitionStep(flags: seq<bool>, before: ActionPlan, after: ActionPlan, cs: seq<CandidateArtifact>,
                      c: CandidateArtifact, d: Decision, dryRun: bool)
    requires Partitions(flags, before, cs)
    requires match d
             case Plan(planned) =>
               && after.actions == before.actions + [PlannedAction(planned, dryRun)]
               && after.skipped == before.skipped && SameOrCut(planned, c)
             case Skip(reason) =>
               && after.actions == before.actions
               && after.skipped == before.skipped + [SkippedCandidate(c, reason)]
    ensures Partitions(flags + [d.Plan?], after, cs + [c])
  {
    if d.Plan? {
      WeaveAction(flags, before.actions, before.skipped, PlannedAction(d.candidate, dryRun));
    } else {
      WeaveSkip(flags, before.actions, before.skipped, SkippedCandidate(c, d.reason));
    }
  }

  /** The plan partitions the input and keeps its order: dealing actions and skips back by
      the decisions gives the input again, but for build caches cut to the budget. */
  lemma {:induction false} PlanPartitionsInput(config: CleanupConfig, backend: BackendKind, cs: seq<CandidateArtifact>)
    ensures Partitions(PlanFlags(config, backend, cs), PlanOf(config, backend, cs), cs)
  {
    if cs != [] {
      var n := |cs| - 1;
      PlanPartitionsInput(config, backend, cs[..n]);
      PlanFlagsStep(config, backend, cs);
      PlanStep(config, backend, cs);
      assert cs == cs[..n] + [cs[n]];
      PartitionStep(PlanFlags(config, backend, cs[..n]), PlanOf(config, backend, cs[..n]), PlanOf(config, backend, cs),
                    cs[..n], cs[n], DecisionOn(config, backend, cs, n), config.dryRun);
    }
  }

  /** Online: more candidates after the k-th only append to both lists. */
  lemma {:induction false} PlanIsOnline(config: CleanupConfig, backend: BackendKind, cs: seq<CandidateArtifact>, k: nat)
    requires k <= |cs|
    ensures PlanOf(config, backend, cs[..k]).actions <= PlanOf(config, backend, cs).actions
    ensures PlanOf(config, backend, cs[..k]).skipped <= PlanOf(config, backend, cs).skipped
    ensures BudgetAfter(config, backend, cs).remaining <= BudgetAfter(config, backend, cs[..k]).remaining
    decreases |cs|
  {
    if k == |cs| {
      assert cs[..k] == cs;
    } else {
      PlanIsOnline(config, backend, cs[..|cs| - 1], k);
      assert cs[..|cs| - 1][..k] == cs[..k];
    }
  }

  // ---------- conservation ----------

  /** Planned bytes of known size. */
  function KnownBytes(actions: seq<PlannedAction>): nat {
    if actions == [] then 0
    else
      var size := actions[|actions| - 1].candidate.sizeBytes;
      KnownBytes(actions[..|actions| - 1]) + (if size.Some? then size.value else 0)
  }

  /** The budget that unknown-size actions swallow: all that was left when they came up. */
  function AbsorbedBytes(actions: seq<PlannedAction>, cap: int): int {
    if actions == [] then 0
    else
      var front := actions[..|actions| - 1];
      AbsorbedBytes(front, cap)
      + (if actions[|actions| - 1].candidate.sizeBytes.None?
         then cap - KnownBytes(front) - AbsorbedBytes(front, cap) else 0)
  }

  lemma BytesStep(actions: seq<PlannedAction>, a: PlannedAction, cap: int)
    ensures
      var size := a.candidate.sizeBytes;
      var known, absorbed := KnownBytes(actions), AbsorbedBytes(actions, cap);
      && KnownBytes(actions + [a]) == known + (if size.Some? then size.value else 0)
      && AbsorbedBytes(actions + [a], cap)
         == absorbed + (if size.None? then cap - known - absorbed else 0)
  {
    assert (actions + [a])[..|actions|] == actions;
  }

  /** Bytes planned, bytes absorbed and bytes left always add up to the saturated cap. */
  lemma {:induction false} PlanConservesBudget(config: CleanupConfig, backend: BackendKind, cs: seq<CandidateArtifact>)
    ensures
      var actions := PlanOf(config, backend, cs).actions;
      var cap := DeleteCap(config);
      && KnownBytes(actions) + AbsorbedBytes(actions, cap) + BudgetAfter(config, backend, cs).remaining == cap
      && AbsorbedBytes(actions, cap) >= 0
  {
    if cs != [] {
      var front := cs[..|cs| - 1];
      PlanConservesBudget(config, backend, front);
      var d := DecisionOn(config, backend, cs, |cs| - 1);
      PlanStep(config, backend, cs);
      if d.Plan? {
        BytesStep(Actions(config, backend, front), PlannedAction(d.candidate, config.dryRun), DeleteCap(config));
      }
    }
  }

  /** The cap is the configured number of binary gigabytes, as far as 64 bits go. */
  lemma CapIsInGigabytes(config: CleanupConfig)
    ensures
      var bytes := (config.maxDeletePerRunGb as int) * 1_073_741_824;
      DeleteCap(config) as int == if bytes <= U64_MAX then bytes else U64_MAX
  {
  }

  /** Never more known bytes than the cap in one plan, and so never more than the configured
      gigabytes. */
  lemma PlanStaysWithinCap(config: CleanupConfig, backend: BackendKind, cs: seq<CandidateArtifact>)
    ensures KnownBytes(PlanOf(config, backend, cs).actions) <= DeleteCap(config)
    ensures KnownBytes(PlanOf(config, backend, cs).actions) <= (config.maxDeletePerRunGb as int) * 1_073_741_824
  {
    PlanConservesBudget(config, backend, cs);
    CapIsInGigabytes(config);
  }

  // ---------- the two budget-absorbing cases ----------

  /** Candidate i is planned with an unknown size or cut down to the budget. */
  predicate Absorbs(config: CleanupConfig, backend: BackendKind, cs: seq<CandidateArtifact>, i: nat)
    requires i < |cs|
  {
    var d := DecisionOn(config, backend, cs, i);
    d.Plan? && (d.candidate.sizeBytes.None? || d.candidate != cs[i])
  }

  lemma {:induction false} ReservedMeansSpent(config: CleanupConfig, backend: BackendKind, cs: seq<CandidateArtifact>)
    ensures BudgetAfter(config, backend, cs).reserved ==> BudgetAfter(config, backend, cs).remaining == 0
  {
    if cs != [] {
      ReservedMeansSpent(config, backend, cs[..|cs| - 1]);
    }
  }

  lemma BudgetNeverGrows(config: CleanupConfig, backend: BackendKind, cs: seq<CandidateArtifact>, i: nat, j: nat)
    requires i <= j <= |cs|
    ensures BudgetAfter(config, backend, cs[..j]).remaining <= BudgetAfter(config, backend, cs[..i]).remaining
  {
    PlanIsOnline(config, backend, cs[..j], i);
    assert cs[..j][..i] == cs[..i];
  }

  /** At most one action in a plan absorbs the budget, and whatever is planned after it has
      size zero: the absorber is the last action that can cost anything. */
  lemma AbsorberIsLast(config: CleanupConfig, backend: BackendKind, cs: seq<CandidateArtifact>, i: nat, j: nat)
    requires i < j < |cs|
    requires Absorbs(config, backend, cs, i)
    ensures !Absorbs(config, backend, cs, j)
    ensures DecisionOn(config, backend, cs, j).Plan?
            ==> DecisionOn(config, backend, cs, j).candidate.sizeBytes == Some(0)
  {
    BudgetStep(config, backend, cs, i);
    BudgetNeverGrows(config, backend, cs, i + 1, j);
    assert BudgetAfter(config, backend, cs[..j]).remaining == 0;
  }

  lemma BudgetStep(config: CleanupConfig, backend: BackendKind, cs: seq<CandidateArtifact>, i: nat)
    requires i < |cs|
    ensures BudgetAfter(config, backend, cs[..i + 1])
            == Decide(config, backend, BudgetAfter(config, backend, cs[..i]), cs[i]).budget
  {
    assert cs[..i + 1][..i] == cs[..i];
  }

  /** The reason `candidate_size_unknown` is dead code: a reservation has always spent
      the budget, so the cap reason wins. */
  lemma SizeUnknownIsNeverEmitted(config: CleanupConfig, backend: BackendKind, cs: seq<CandidateArtifact>, i: nat)
    requires i < |cs|
    ensures DecisionOn(config, backend, cs, i) != Skip(SizeUnknown)
  {
    ReservedMeansSpent(config, backend, cs[..i]);
    RejectionIsNotPlannerMade(config, cs[i]);
  }

  lemma RejectionIsNotPlannerMade(config: CleanupConfig, c: CandidateArtifact)
    ensures RejectionReason(config, c) !in {Some(SizeUnknown), Some(DeletionCapReached), Some(BackendMismatch)}
  {
  }

  // ---------- maximality ----------

  /** First fit is maximal: a candidate turned away for the cap would not fit into the
      budget left at the very end either, and an unknown size is turned away only when
      nothing at all is left. */
  lemma PlanIsMaximal(config: CleanupConfig, backend: BackendKind, cs: seq<CandidateArtifact>, i: nat)
    requires i < |cs|
    requires DecisionOn(config, backend, cs, i) == Skip(DeletionCapReached)
    ensures
      var left := BudgetAfter(config, backend, cs).remaining;
      && Accepts(config, cs[i]) && cs[i].backend == backend
      && (cs[i].sizeBytes.Some? ==> cs[i].sizeBytes.value > left)
      && (cs[i].sizeBytes.None? || cs[i].resourceKind.BuildCache? ==> left == 0)
  {
    RejectionIsNotPlannerMade(config, cs[i]);
    assert cs[..|cs|] == cs;
    BudgetNeverGrows(config, backend, cs, i, |cs|);
  }

  // ---------- what a plan may contain ----------

  predicate Eligible(config: CleanupConfig, backend: BackendKind, c: CandidateArtifact) {
    Accepts(config, c) && c.backend == backend
  }

  /** Every action is an input candidate (or a cut of one) that the policy accepts, for the
      requested backend, in the requested mode. */
  lemma {:induction false} PlannedActionsAreEligible(
      config: CleanupConfig, backend: BackendKind, cs: seq<CandidateArtifact>, k: nat)
    requires k < |PlanOf(config, backend, cs).actions|
    ensures
      var action := PlanOf(config, backend, cs).actions[k];
      && Eligible(config, backend, action.candidate)
      && action.dryRun == config.dryRun
      && exists i :: 0 <= i < |cs| && SameOrCut(action.candidate, cs[i])
  {
    var front := cs[..|cs| - 1];
    var c := cs[|cs| - 1];
    var action := PlanOf(config, backend, cs).actions[k];
    if k < |PlanOf(config, backend, front).actions| {
      PlannedActionsAreEligible(config, backend, front, k);
      var i :| 0 <= i < |front| && SameOrCut(action.candidate, front[i]);
      assert cs[i] == front[i];
    } else {
      SizeIsIrrelevant(config, c, action.candidate.sizeBytes);
      assert SameOrCut(action.candidate, cs[|cs| - 1]);
    }
  }

  lemma LoneCandidateIsPlanned(config: CleanupConfig, backend: BackendKind, c: CandidateArtifact)
    requires Eligible(config, backend, c)
    requires if c.sizeBytes.Some? then c.sizeBytes.value <= DeleteCap(config) else DeleteCap(config) > 0
    ensures PlanOf(config, backend, [c]).actions == [PlannedAction(c, config.dryRun)]
  {
    assert [c][..0] == [];
    PlanStep(config, backend, [c]);
  }

  // ---------- unknown sizes ----------

  /** A container without labels and older than any age limit. */
  function Specimen(backend: BackendKind, size: Option<u64>): CandidateArtifact {
    CandidateArtifact(backend, Container, "specimen", None, {}, size, Some(U64_MAX), Some(false), Some(false),
                      false, true, false)
  }

  lemma SpecimenIsEligible(config: CleanupConfig, backend: BackendKind, size: Option<u64>)
    ensures Eligible(config, backend, Specimen(backend, size))
  {
  }

  /** A candidate of unknown size is planned exactly if it is eligible and any budget is left
      for it, and then it goes in with its size still unknown. */
  lemma UnknownSizeTakesTheRest(config: CleanupConfig, backend: BackendKind, cs: seq<CandidateArtifact>, i: nat)
    requires i < |cs| && cs[i].sizeBytes.None?
    ensures DecisionOn(config, backend, cs, i).Plan?
            <==> Eligible(config, backend, cs[i]) && BudgetAfter(config, backend, cs[..i]).remaining > 0
    ensures DecisionOn(config, backend, cs, i).Plan? ==>
      && DecisionOn(config, backend, cs, i).candidate == cs[i]
      && BudgetAfter(config, backend, cs[..i + 1]).remaining == 0
  {
    ReservedMeansSpent(config, backend, cs[..i]);
    BudgetStep(config, backend, cs, i);
  }

  predicate PlansKnownSizesOnly(config: CleanupConfig, backend: BackendKind, cs: seq<CandidateArtifact>) {
    var actions := PlanOf(config, backend, cs).actions;
    forall k :: 0 <= k < |actions| ==> actions[k].candidate.sizeBytes.Some?
  }

  lemma {:induction false} NothingUnknownWithoutBudget(config: CleanupConfig, backend: BackendKind, cs: seq<CandidateArtifact>)
    requires DeleteCap(config) == 0
    ensures PlansKnownSizesOnly(config, backend, cs)
  {
    if cs != [] {
      var n := |cs| - 1;
      NothingUnknownWithoutBudget(config, backend, cs[..n]);
      PlanConservesBudget(config, backend, cs[..n]);
      PlanStep(config, backend, cs);
    }
  }

  /** Unknown sizes are kept out of every plan exactly when the configured cap is zero. */
  lemma SizesAreKnownExactly(config: CleanupConfig, backend: BackendKind)
    ensures (forall cs :: PlansKnownSizesOnly(config, backend, cs)) <==> config.maxDeletePerRunGb == 0
  {
    assert DeleteCap(config) == 0 <==> config.maxDeletePerRunGb == 0;
    if DeleteCap(config) == 0 {
      forall cs ensures PlansKnownSizesOnly(config, backend, cs) {
        NothingUnknownWithoutBudget(config, backend, cs);
      }
    } else {
      var c := Specimen(backend, None);
      SpecimenIsEligible(config, backend, None);
      LoneCandidateIsPlanned(config, backend, c);
      assert PlanOf(config, backend, [c]).actions[0].candidate == c;
      assert !PlansKnownSizesOnly(config, backend, [c]);
    }
  }

  /** Every skip is for the stated reason: a failed policy check, the wrong backend, or, for
      an eligible candidate and only for one, the cap. */
  lemma SkipReasonIsTrue(config: CleanupConfig, backend: BackendKind, cs: seq<CandidateArtifact>, i: nat)
    requires i < |cs| && DecisionOn(config, backend, cs, i).Skip?
    ensures
      var reason := DecisionOn(config, backend, cs, i).reason;
      if !Accepts(config, cs[i]) then RejectionReason(config, cs[i]) == Some(reason)
      else if cs[i].backend != backend then reason == BackendMismatch
      else reason == DeletionCapReached
  {
    SizeUnknownIsNeverEmitted(config, backend, cs, i);
  }

  /** An empty plan tells the two no-action stop reasons apart: some skip carries the cap
      reason exactly when some candidate was eligible. */
  lemma {:induction false} EmptyPlanReason(config: CleanupConfig, backend: BackendKind, cs: seq<CandidateArtifact>)
    requires PlanOf(config, backend, cs).actions == []
    ensures (exists k :: 0 <= k < |PlanOf(config, backend, cs).skipped|
                         && PlanOf(config, backend, cs).skipped[k].reason == DeletionCapReached)
            <==> (exists i :: 0 <= i < |cs| && Eligible(config, backend, cs[i]))
  {
    if cs != [] {
      var n := |cs| - 1;
      PlanStep(config, backend, cs);
      EmptyPlanReason(config, backend, cs[..n]);
      LoneSkipReason(config, backend, cs);
      assert cs == cs[..n] + [cs[n]];
      CapSkipMore(PlanOf(config, backend, cs[..n]).skipped, PlanOf(config, backend, cs).skipped, cs, n,
                  DecisionOn(config, backend, cs, n).reason);
      EligibleMore(config, backend, cs, n);
    }
  }

  lemma LoneSkipReason(config: CleanupConfig, backend: BackendKind, cs: seq<CandidateArtifact>)
    requires cs != [] && DecisionOn(config, backend, cs, |cs| - 1).Skip?
    ensures DecisionOn(config, backend, cs, |cs| - 1).reason == DeletionCapReached
            <==> Eligible(config, backend, cs[|cs| - 1])
  {
    SizeUnknownIsNeverEmitted(config, backend, cs, |cs| - 1);
    RejectionIsNotPlannerMade(config, cs[|cs| - 1]);
  }

  lemma CapSkipMore(before: seq<SkippedCandidate>, after: seq<SkippedCandidate>, cs: seq<CandidateArtifact>, n: nat, reason: SkipReason)
    requires n < |cs| && after == before + [SkippedCandidate(cs[n], reason)]
    ensures (exists k :: 0 <= k < |after| && after[k].reason == DeletionCapReached)
            <==> (exists k :: 0 <= k < |before| && before[k].reason == DeletionCapReached) || reason == DeletionCapReached
  {
    assert forall k :: 0 <= k < |before| ==> after[k] == before[k];
    assert after[|before|].reason == reason;
  }

  lemma EligibleMore(config: CleanupConfig, backend: BackendKind, cs: seq<CandidateArtifact>, n: nat)
    requires |cs| == n + 1
    ensures (exists i :: 0 <= i < |cs| && Eligible(config, backend, cs[i]))
            <==> (exists i :: 0 <= i < n && Eligible(config, backend, cs[..n][i])) || Eligible(config, backend, cs[n])
  {
    assert forall i :: 0 <= i < n ==> cs[i] == cs[..n][i];
  }

  // ---------- protected names ----------

  /** No plan touches what a list names: an image or volume by identifier or display name,
      anything by a label, with any space around either. */
  lemma ProtectedNamesAreSpared(config: CleanupConfig, backend: BackendKind, cs: seq<CandidateArtifact>, k: nat, i: nat)
    requires k < |PlanOf(config, backend, cs).actions|
    ensures
      var c := PlanOf(config, backend, cs).actions[k].candidate;
      && (c.resourceKind.Image? && i < |config.protectedImages| ==>
            && !Text.SameName(c.identifier, config.protectedImages[i])
            && (c.displayName.Some? ==> !Text.SameName(c.displayName.value, config.protectedImages[i])))
      && (c.resourceKind.Volume? && i < |config.protectedVolumes| ==>
            && !Text.SameName(c.identifier, config.protectedVolumes[i])
            && (c.displayName.Some? ==> !Text.SameName(c.displayName.value, config.protectedVolumes[i])))
      && (i < |config.protectedLabels| ==> forall tag :: tag in c.labels ==> !Text.SameName(tag, config.protectedLabels[i]))
  {
    hide Text.SameName;
    PlannedActionsAreEligible(config, backend, cs, k);
    AcceptanceByName(config, PlanOf(config, backend, cs).actions[k].candidate);
  }
}
