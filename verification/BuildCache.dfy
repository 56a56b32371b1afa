/** Build-cache accounting of src/docker_backend.rs: the discovery scan and the execution
    scan of the same table, and the budget a prune is given. */
module BuildCache {
  import opened Wrappers
  import opened Domain
  import opened ContainerRuntime
  import Calendar
  import Planner
  import Policy

  const CACHE_ID := "docker-build-cache-unused"

  function AgeSource(row: CacheRow): string {
    if row.lastUsedAt != "" && row.lastUsedAt != "<nil>" then row.lastUsedAt else row.createdAt
  }

  function AgeOf(row: CacheRow, now: u64): Option<u64> {
    var age := Calendar.ParseAgeDays(AgeSource(row), now);
    if age.None? then None else Some(age.value)
  }

  predicate IsEligible(row: CacheRow, now: u64, minAge: u64) {
    && row.identifier != ""
    && row.inUse == Some(false)
    && AgeOf(row, now).Some?
    && AgeOf(row, now).value >= minAge
  }

  function EligibleRows(rows: seq<CacheRow>, now: u64, minAge: u64): seq<CacheRow> {
    if rows == [] then []
    else
      EligibleRows(rows[..|rows| - 1], now, minAge)
      + (if IsEligible(rows[|rows| - 1], now, minAge) then [rows[|rows| - 1]] else [])
  }

  /** The exact sum of the known sizes. */
  function TrueBytes(rows: seq<CacheRow>): nat {
    if rows == [] then 0
    else TrueBytes(rows[..|rows| - 1]) + (if rows[|rows| - 1].size.Some? then rows[|rows| - 1].size.value else 0)
  }

  function Saturated(n: nat): u64 {
    if n <= U64_MAX then n else U64_MAX
  }

  predicate AllSizesKnown(rows: seq<CacheRow>) {
    forall i :: 0 <= i < |rows| ==> rows[i].size.Some?
  }

  /** Ages of the rows whose size is known. */
  function KnownAges(rows: seq<CacheRow>, now: u64): seq<u64> {
    if rows == [] then []
    else
      var row := rows[|rows| - 1];
      KnownAges(rows[..|rows| - 1], now)
      + (if row.size.Some? && AgeOf(row, now).Some? then [AgeOf(row, now).value] else [])
  }

  predicate IsMinimum(m: Option<u64>, ages: seq<u64>) {
    if m.None? then ages == []
    else m.value in ages && forall i :: 0 <= i < |ages| ==> m.value <= ages[i]
  }

  /** A row the execution scan can read without giving up. */
  predicate IsReadable(row: CacheRow, now: u64, minAge: u64) {
    || row.identifier == ""
    || (row.inUse.Some?
        && (row.inUse.value
            || (AgeOf(row, now).Some? && (AgeOf(row, now).value < minAge || row.size.Some?))))
  }

  // ---------- the two scans ----------

  lemma EligibleMore(rows: seq<CacheRow>, i: nat, now: u64, minAge: u64)
    requires i < |rows|
    ensures EligibleRows(rows[..i + 1], now, minAge)
            == if IsEligible(rows[i], now, minAge) then EligibleRows(rows[..i], now, minAge) + [rows[i]]
               else EligibleRows(rows[..i], now, minAge)
  {
    assert rows[..i + 1][..i] == rows[..i];
  }

  lemma EmptyScan(now: u64, minAge: u64)
    ensures EligibleRows([], now, minAge) == [] && TrueBytes([]) == 0
    ensures AllSizesKnown([]) && KnownAges([], now) == []
  {
  }

  lemma RowMore(rows: seq<CacheRow>, row: CacheRow, now: u64)
    ensures TrueBytes(rows + [row]) == TrueBytes(rows) + (if row.size.Some? then row.size.value else 0)
    ensures AllSizesKnown(rows + [row]) == (AllSizesKnown(rows) && row.size.Some?)
    ensures KnownAges(rows + [row], now)
            == if row.size.Some? && AgeOf(row, now).Some? then KnownAges(rows, now) + [AgeOf(row, now).value]
               else KnownAges(rows, now)
  {
    assert (rows + [row])[..|rows|] == rows;
    assert (rows + [row])[|rows|] == row;
    assert forall i :: 0 <= i < |rows| ==> (rows + [row])[i] == rows[i];
  }

  function Smaller(least: Option<u64>, age: u64): u64 {
    if least.Some? && least.value < age then least.value else age
  }

  lemma MinimumMore(least: Option<u64>, ages: seq<u64>, age: u64)
    requires IsMinimum(least, ages)
    ensures IsMinimum(Some(Smaller(least, age)), ages + [age])
  {
    assert (ages + [age])[|ages|] == age;
    assert forall i :: 0 <= i < |ages| ==> (ages + [age])[i] == ages[i];
  }

  function CacheCandidate(total: u64, age: Option<u64>, complete: bool): CandidateArtifact {
    CandidateArtifact(
      Docker, BuildCache, CACHE_ID, Some("docker-build-cache"), {},
      if total > 0 then Some(total) else None,
      age, Some(false), Some(false), false, complete, !complete)
  }

  /** What discovery promises about the candidate it emits for a table. */
  predicate IsDiscoveredCache(rows: seq<CacheRow>, now: u64, minAge: u64, candidate: Option<CandidateArtifact>) {
    var eligible := EligibleRows(rows, now, minAge);
    && (candidate.None? <==> eligible == [])
    && (candidate.Some? ==>
          var total := Saturated(TrueBytes(eligible));
          var age := candidate.value.ageDays;
          && IsMinimum(age, KnownAges(eligible, now))
          && candidate.value == CacheCandidate(total, age, AllSizesKnown(eligible) && total > 0 && age.Some?))
  }

  method BuildCacheCandidate(rows: seq<CacheRow>, now: u64, minAge: u64)
    returns (candidate: Option<CandidateArtifact>)
    ensures IsDiscoveredCache(rows, now, minAge, candidate)
  {
    hide EligibleRows, TrueBytes, KnownAges, AllSizesKnown, AgeOf;
    EmptyScan(now, minAge);
    assert rows[..0] == [];
    var eligibleEntries := 0;
    var unknownMetadata := false;
    var total: u64 := 0;
    var least: Option<u64> := None;
    ghost var eligible: seq<CacheRow> := [];

    for i := 0 to |rows|
      invariant eligible == EligibleRows(rows[..i], now, minAge)
      invariant eligibleEntries == |eligible|
      invariant unknownMetadata == !AllSizesKnown(eligible)
      invariant total == Saturated(TrueBytes(eligible))
      invariant IsMinimum(least, KnownAges(eligible, now))
    {
      var row := rows[i];
      EligibleMore(rows, i, now, minAge);
      var age := AgeOf(row, now);
      if row.identifier == "" {
        continue;
      }
      var isEligible := row.inUse == Some(false) && age.Some? && age.value >= minAge;
      if !isEligible {
        continue;
      }
      eligibleEntries := eligibleEntries + 1;
      RowMore(eligible, row, now);
      if row.size.Some? && age.Some? {
        total := SaturatingAdd(total, row.size.value);
        MinimumMore(least, KnownAges(eligible, now), age.value);
        least := Some(Smaller(least, age.value));
      } else {
        unknownMetadata := true;
      }
      eligible := eligible + [row];
    }
    assert rows[..|rows|] == rows;
    if eligibleEntries == 0 {
      return None;
    }
    return Some(CacheCandidate(total, least, !unknownMetadata && total > 0 && least.Some?));
  }

  /** The execution scan fails closed: it yields a total exactly when every row is readable,
      and then it is the saturated sum over the very rows discovery would select. */
  method CollectPrunableBytes(rows: seq<CacheRow>, now: u64, minAge: u64) returns (total: Option<u64>)
    ensures total.Some? <==> forall i :: 0 <= i < |rows| ==> IsReadable(rows[i], now, minAge)
    ensures total.Some? ==> total.value == Saturated(TrueBytes(EligibleRows(rows, now, minAge)))
  {
    hide EligibleRows, TrueBytes, KnownAges, AllSizesKnown, AgeOf;
    EmptyScan(now, minAge);
    assert rows[..0] == [];
    var sum: u64 := 0;
    for i := 0 to |rows|
      invariant forall k :: 0 <= k < i ==> IsReadable(rows[k], now, minAge)
      invariant sum == Saturated(TrueBytes(EligibleRows(rows[..i], now, minAge)))
    {
      var row := rows[i];
      EligibleMore(rows, i, now, minAge);
      if row.identifier == "" {
        continue;
      }
      if row.inUse.None? {
        return None;
      }
      if row.inUse.value {
        continue;
      }
      var age := AgeOf(row, now);
      if age.None? {
        return None;
      }
      if age.value < minAge {
        continue;
      }
      if row.size.None? {
        return None;
      }
      RowMore(EligibleRows(rows[..i], now, minAge), row, now);
      sum := SaturatingAdd(sum, row.size.value);
    }
    assert rows[..|rows|] == rows;
    return Some(sum);
  }

  predicate SameDay(now: u64, later: u64) {
    now / Calendar.SECONDS_PER_DAY == later / Calendar.SECONDS_PER_DAY
  }

  /** The loops agree: on one table, and at any two times of one day, a complete candidate's
      own age as threshold selects exactly the rows discovery selected, so the prunable total
      is its size. */
  lemma ScansAgree(rows: seq<CacheRow>, seen: u64, done: u64, minAge: u64, candidate: CandidateArtifact)
    requires IsDiscoveredCache(rows, seen, minAge, Some(candidate))
    requires candidate.metadataComplete && SameDay(seen, done)
    ensures candidate.ageDays.Some? && candidate.ageDays.value >= minAge
    ensures EligibleRows(rows, done, candidate.ageDays.value) == EligibleRows(rows, seen, minAge)
    ensures candidate.sizeBytes
            == Some(Saturated(TrueBytes(EligibleRows(rows, done, candidate.ageDays.value))))
    ensures candidate.sizeBytes.value > 0
  {
    ThresholdSelectsAll(rows, seen, minAge, candidate);
    SelectionOfTheDay(rows, seen, done, candidate.ageDays.value);
  }

  /** On a later day more rows may have come of age, but none is lost: the prunable total is
      at least the size that was discovered. */
  lemma LaterScanFindsMore(rows: seq<CacheRow>, seen: u64, done: u64, minAge: u64, candidate: CandidateArtifact)
    requires IsDiscoveredCache(rows, seen, minAge, Some(candidate))
    requires candidate.metadataComplete && seen <= done
    ensures candidate.ageDays.Some? && candidate.sizeBytes.Some?
    ensures candidate.sizeBytes.value <= Saturated(TrueBytes(EligibleRows(rows, done, candidate.ageDays.value)))
  {
    ThresholdSelectsAll(rows, seen, minAge, candidate);
    SelectionGrows(rows, seen, done, candidate.ageDays.value);
  }

  lemma {:induction false} SelectionOfTheDay(rows: seq<CacheRow>, now: u64, later: u64, minAge: u64)
    requires SameDay(now, later)
    ensures EligibleRows(rows, now, minAge) == EligibleRows(rows, later, minAge)
  {
    hide AgeOf;
    if rows != [] {
      SelectionOfTheDay(rows[..|rows| - 1], now, later, minAge);
      AgesOnOneDay(rows[|rows| - 1], now, later);
    }
  }

  lemma AgesOnOneDay(row: CacheRow, now: u64, later: u64)
    requires SameDay(now, later)
    ensures AgeOf(row, now) == AgeOf(row, later)
  {
    if now <= later {
      Calendar.AgesFollowTheClock(AgeSource(row), now, later);
    } else {
      Calendar.AgesFollowTheClock(AgeSource(row), later, now);
    }
  }

  lemma AgesNeverShrink(row: CacheRow, now: u64, later: u64)
    requires now <= later && AgeOf(row, now).Some?
    ensures AgeOf(row, later).Some? && AgeOf(row, later).value >= AgeOf(row, now).value
  {
    Calendar.AgesFollowTheClock(AgeSource(row), now, later);
  }

  lemma {:induction false} SelectionGrows(rows: seq<CacheRow>, now: u64, later: u64, minAge: u64)
    requires now <= later
    ensures TrueBytes(EligibleRows(rows, now, minAge)) <= TrueBytes(EligibleRows(rows, later, minAge))
  {
    hide AgeOf, TrueBytes, EligibleRows;
    if rows == [] {
      EmptyScan(now, minAge);
      EmptyScan(later, minAge);
    } else {
      var front, row := rows[..|rows| - 1], rows[|rows| - 1];
      SelectionGrows(front, now, later, minAge);
      assert rows[..|rows| - 1 + 1] == rows;
      EligibleMore(rows, |rows| - 1, now, minAge);
      EligibleMore(rows, |rows| - 1, later, minAge);
      if AgeOf(row, now).Some? {
        AgesNeverShrink(row, now, later);
      }
      RowMore(EligibleRows(front, now, minAge), row, now);
      RowMore(EligibleRows(front, later, minAge), row, later);
    }
  }

  /** The age of a complete candidate is a threshold that all its rows pass. */
  lemma ThresholdSelectsAll(rows: seq<CacheRow>, now: u64, minAge: u64, candidate: CandidateArtifact)
    requires IsDiscoveredCache(rows, now, minAge, Some(candidate))
    requires candidate.metadataComplete
    ensures candidate.ageDays.Some? && candidate.ageDays.value >= minAge
    ensures EligibleRows(rows, now, candidate.ageDays.value) == EligibleRows(rows, now, minAge)
    ensures candidate.sizeBytes
            == Some(Saturated(TrueBytes(EligibleRows(rows, now, candidate.ageDays.value))))
    ensures candidate.sizeBytes.value > 0
  {
    hide AgeOf;
    var eligible := EligibleRows(rows, now, minAge);
    var age := candidate.ageDays.value;
    EligibleRowsAreEligible(rows, now, minAge);
    forall i | 0 <= i < |eligible| ensures AgeOf(eligible[i], now).value >= age {
      assert IsEligible(eligible[i], now, minAge);
      AgeIsKnown(eligible, now, i);
    }
    var row := RowOfAge(eligible, now, age);
    assert IsEligible(row, now, minAge);
    SameSelection(rows, now, minAge, age);
  }

  lemma {:induction false} AgeIsKnown(rows: seq<CacheRow>, now: u64, i: nat)
    requires i < |rows| && rows[i].size.Some? && AgeOf(rows[i], now).Some?
    ensures AgeOf(rows[i], now).value in KnownAges(rows, now)
  {
    hide AgeOf;
    var front := rows[..|rows| - 1];
    if i < |front| {
      AgeIsKnown(front, now, i);
    }
  }

  lemma {:induction false} RowOfAge(rows: seq<CacheRow>, now: u64, age: u64) returns (row: CacheRow)
    requires age in KnownAges(rows, now)
    ensures row in rows && row.size.Some? && AgeOf(row, now) == Some(age)
  {
    row := rows[|rows| - 1];
    if !(row.size.Some? && AgeOf(row, now) == Some(age)) {
      row := RowOfAge(rows[..|rows| - 1], now, age);
    }
  }

  lemma {:induction false} EligibleRowsAreEligible(rows: seq<CacheRow>, now: u64, minAge: u64)
    ensures forall i :: 0 <= i < |EligibleRows(rows, now, minAge)| ==> IsEligible(EligibleRows(rows, now, minAge)[i], now, minAge)
  {
    if rows != [] {
      EligibleRowsAreEligible(rows[..|rows| - 1], now, minAge);
    }
  }

  lemma {:induction false} SameSelection(rows: seq<CacheRow>, now: u64, low: u64, high: u64)
    requires low <= high
    requires forall i :: 0 <= i < |EligibleRows(rows, now, low)| ==> AgeOf(EligibleRows(rows, now, low)[i], now).Some?
    requires forall i :: 0 <= i < |EligibleRows(rows, now, low)| ==> AgeOf(EligibleRows(rows, now, low)[i], now).value >= high
    ensures EligibleRows(rows, now, high) == EligibleRows(rows, now, low)
  {
    if rows != [] {
      var front, row := rows[..|rows| - 1], rows[|rows| - 1];
      var selected := EligibleRows(rows, now, low);
      var before := EligibleRows(front, now, low);
      assert forall i :: 0 <= i < |before| ==> before[i] == selected[i];
      SameSelection(front, now, low, high);
      if IsEligible(row, now, low) {
        assert selected[|before|] == row;
      }
    }
  }

  // ---------- the prune budget ----------

  /** Bytes to keep, when less than everything prunable may go. */
  function KeepBudget(prunable: u64, target: u64): Option<u64> {
    if prunable > target then Some(SaturatingSub(prunable, target)) else None
  }

  function KeptBytes(limit: PruneLimit): u64 {
    match limit
    case Unlimited => 0
    case MaxUsedSpace(bytes) => bytes
    case KeepStorage(bytes) => bytes
  }

  /** What the engine promises: a prune told to keep k bytes reclaims at most the rest. */
  predicate MayReclaim(limit: PruneLimit, prunable: nat, reclaimed: nat) {
    reclaimed + KeptBytes(limit) <= prunable || reclaimed == 0
  }

  predicate IsBudgetLimit(limit: PruneLimit, budget: Option<u64>) {
    match budget
    case None => limit == Unlimited
    case Some(k) => limit == MaxUsedSpace(k) || limit == KeepStorage(k)
  }

  /** The budget is right: whatever the cache has grown to since planning, and with either
      flag, every permitted prune stays within the planned bytes, provided the cache's true
      size fits in 64 bits. A saturated total is exactly where that breaks. */
  lemma PruneStaysWithinPlan(prunable: nat, target: u64, limit: PruneLimit)
    requires IsBudgetLimit(limit, KeepBudget(Saturated(prunable), target))
    ensures (forall reclaimed: nat :: MayReclaim(limit, prunable, reclaimed) ==> reclaimed <= target)
            <==> prunable <= U64_MAX
  {
    if prunable > U64_MAX {
      var excess := prunable - KeptBytes(limit);
      assert MayReclaim(limit, prunable, excess) && excess > target;
    }
  }

  /** An incomplete cache candidate never passes the policy, so every build-cache action
      planned from a discovery carries a positive known size and a known age, and is at
      most what was discovered: the budget branch of the prune always runs. */
  lemma PlannedCacheHasBudget(
      config: CleanupConfig, rows: seq<CacheRow>, now: u64, minAge: u64, candidate: CandidateArtifact,
      cs: seq<CandidateArtifact>, k: nat)
    requires IsDiscoveredCache(rows, now, minAge, Some(candidate))
    requires forall i :: 0 <= i < |cs| && cs[i].resourceKind.BuildCache? ==> cs[i] == candidate
    requires k < |Planner.PlanOf(config, Docker, cs).actions|
    requires Planner.PlanOf(config, Docker, cs).actions[k].candidate.resourceKind.BuildCache?
    ensures
      var planned := Planner.PlanOf(config, Docker, cs).actions[k].candidate;
      && planned.identifier == CACHE_ID
      && planned.ageDays == candidate.ageDays && planned.ageDays.Some?
      && planned.sizeBytes.Some? && candidate.sizeBytes.Some?
      && 0 < planned.sizeBytes.value <= candidate.sizeBytes.value
  {
    Planner.PlannedActionsAreEligible(config, Docker, cs, k);
    var planned := Planner.PlanOf(config, Docker, cs).actions[k].candidate;
    Policy.AcceptanceIsExact(config, planned);
    var i :| 0 <= i < |cs| && Planner.SameOrCut(planned, cs[i]);
  }

  // ---------- draining a lone cache ----------

  lemma LoneCacheIsPlanned(config: CleanupConfig, c: CandidateArtifact)
    requires Planner.Eligible(config, Docker, c) && c.resourceKind.BuildCache? && c.sizeBytes.Some?
    requires Planner.DeleteCap(config) > 0
    ensures
      var size := if c.sizeBytes.value <= Planner.DeleteCap(config) then c.sizeBytes.value else Planner.DeleteCap(config);
      Planner.PlanOf(config, Docker, [c]).actions == [PlannedAction(c.(sizeBytes := Some(size)), config.dryRun)]
  {
    Planner.PlanStep(config, Docker, [c]);
    assert [c][..0] == [];
    assert Planner.Decide(config, Docker, Planner.Budget(Planner.DeleteCap(config), false), c).decision
           == Planner.DecisionOn(config, Docker, [c], 0);
  }

  lemma CeilingRounds(size: nat, cap: nat)
    requires cap > 0
    ensures (size + cap - 1) / cap
            == if size == 0 then 0 else if size <= cap then 1 else 1 + ((size - cap) + cap - 1) / cap
  {
    if size == 0 {
      SmallQuotient(cap - 1, cap);
    } else {
      CeilingStep(size + cap - 1, cap);
      if size <= cap {
        SmallQuotient(size - 1, cap);
      }
    }
  }

  lemma CeilingStep(n: int, d: int)
    requires d > 0
    ensures n / d == (n - d) / d + 1
  {
    var q, r := n / d, n % d;
    assert n - d == (q - 1) * d + r;
    QuotientIsUnique(n - d, d, q - 1, r);
  }

  lemma QuotientIsUnique(n: int, d: int, q: int, r: int)
    requires d > 0 && n == q * d + r && 0 <= r < d
    ensures n / d == q
  {
    var gap := n / d - q;
    assert gap * d == r - n % d;
    MultipleOutside(gap, d);
  }

  lemma MultipleOutside(k: int, d: int)
    requires d > 0
    ensures k >= 1 ==> k * d >= d
    ensures k <= -1 ==> k * d <= -d
  {
  }

  lemma SmallQuotient(n: int, d: int)
    requires 0 <= n < d
    ensures n / d == 0
  {
    QuotientIsUnique(n, d, 0, n);
  }

  // ---------- which date counts ----------

  /** A row is as old as its last use; its creation counts only for rows never used. */
  lemma LastUseCounts(row: CacheRow, now: u64)
    ensures AgeOf(row, now).Some? <==>
            Calendar.ParseAgeDays(if row.lastUsedAt == "" || row.lastUsedAt == "<nil>" then row.createdAt else row.lastUsedAt, now).Some?
    ensures AgeOf(row, now).Some? ==>
            AgeOf(row, now).value as int
            == Calendar.ParseAgeDays(if row.lastUsedAt == "" || row.lastUsedAt == "<nil>" then row.createdAt else row.lastUsedAt, now).value
  {
    hide Calendar.ParseAgeDays;
  }

  /** What both scans select, row by row: named entries known to be unused whose last use, or
      creation if never used, is at least so many days back. A row used recently is spared
      however long ago it was created. */
  lemma {:induction false} SelectedExactly(rows: seq<CacheRow>, now: u64, minAge: u64, row: CacheRow)
    ensures row in EligibleRows(rows, now, minAge) <==>
      && row in rows && row.identifier != "" && row.inUse == Some(false)
      && var age := Calendar.ParseAgeDays(
           if row.lastUsedAt == "" || row.lastUsedAt == "<nil>" then row.createdAt else row.lastUsedAt, now);
         age.Some? && age.value >= minAge
  {
    hide AgeOf;
    LastUseCounts(row, now);
    if rows != [] {
      SelectedExactly(rows[..|rows| - 1], now, minAge, row);
      assert rows == rows[..|rows| - 1] + [rows[|rows| - 1]];
    }
  }
}
