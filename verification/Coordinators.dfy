/** What coordinators guarantee together, over every interleaving of the journals of any
    number of processes that share a lock file. */
module Coordinators {
  import opened Wrappers
  import opened Backoff
  import opened Reliability
  import InstanceLock

  // ---------- the rounds of one process ----------

  /** A daemon performing coordinator rounds, one after the other, observed up to some point. */
  ghost predicate RunsCoordinators(life: seq<Entry>) {
    exists rounds :: (forall i :: 0 <= i < |rounds| ==> IsRound(rounds[i])) && life <= Concat(rounds)
  }

  datatype Stage = Outside | Locked | InCycle | Astray

  function Next(s: Stage, e: Entry): Stage {
    match e
    case AcquireFailed => if s.Outside? then Outside else Astray
    case AcquireRefused => if s.Outside? then Outside else Astray
    case Acquired => if s.Outside? then Locked else Astray
    case CycleBegan(_) => if s.Locked? then InCycle else Astray
    case CycleEnded(_, _) => if s.InCycle? then Locked else Astray
    case Slept(_) => if s.Locked? then Locked else Astray
    case Released => if s.Locked? then Outside else Astray
    case ReleaseFailed => if s.Locked? then Outside else Astray
  }

  function After(s: Stage, t: seq<Entry>): Stage {
    if t == [] then s else Next(After(s, t[..|t| - 1]), t[|t| - 1])
  }

  lemma {:induction false} AfterBoth(s: Stage, a: seq<Entry>, b: seq<Entry>)
    ensures After(s, a + b) == After(After(s, a), b)
  {
    if b == [] {
      assert a + b == a;
    } else {
      AfterBoth(s, a, b[..|b| - 1]);
      assert (a + b)[..|a + b| - 1] == a + b[..|b| - 1];
    }
  }

  lemma {:induction false} AstrayForGood(t: seq<Entry>)
    ensures After(Astray, t) == Astray
  {
    if t != [] {
      AstrayForGood(t[..|t| - 1]);
    }
  }

  lemma AfterOne(s: Stage, e: Entry)
    ensures After(s, [e]) == Next(s, e)
  {
    assert [e][..0] == [];
  }

  lemma AfterCycle(runner: nat, result: CycleResult)
    ensures After(Locked, CycleLog(runner, result)) == Locked
  {
    AfterOne(Locked, CycleBegan(runner));
    AfterOne(InCycle, CycleEnded(runner, result));
    AfterBoth(Locked, [CycleBegan(runner)], [CycleEnded(runner, result)]);
    assert CycleLog(runner, result) == [CycleBegan(runner)] + [CycleEnded(runner, result)];
  }

  lemma {:induction false} RetriesStayLocked(p: RetryPolicy, runner: nat, results: seq<CycleResult>)
    ensures After(Locked, RetryLog(p, runner, results)) == Locked
  {
    hide CycleLog, BackoffForRetry, Next;
    if results != [] {
      var n := |results| - 1;
      var before, cycle := RetryLog(p, runner, results[..n]), CycleLog(runner, results[n]);
      RetriesStayLocked(p, runner, results[..n]);
      AfterCycle(runner, results[n]);
      if n == 0 {
        assert before + [] + cycle == before + cycle;
      } else {
        AfterSleep(BackoffForRetry(p, n - 1));
        AfterBoth(Locked, before, [Slept(BackoffForRetry(p, n - 1))]);
      }
      AfterBoth(Locked, before + (if n == 0 then [] else [Slept(BackoffForRetry(p, n - 1))]), cycle);
    }
  }

  lemma AfterSleep(d: Duration)
    ensures After(Locked, [Slept(d)]) == Locked
  {
    AfterOne(Locked, Slept(d));
  }

  lemma {:induction false} BackendsStayLocked(p: RetryPolicy, backends: seq<nat>, runs: seq<seq<CycleResult>>)
    requires |backends| == |runs|
    ensures After(Locked, BackendsLog(p, backends, runs)) == Locked
  {
    if runs != [] {
      var n := |runs| - 1;
      BackendsStayLocked(p, backends[..n], runs[..n]);
      RetriesStayLocked(p, backends[n], runs[n]);
      AfterBoth(Locked, BackendsLog(p, backends[..n], runs[..n]), RetryLog(p, backends[n], runs[n]));
    }
  }

  lemma RoundReturns(t: seq<Entry>)
    requires IsRound(t)
    ensures After(Outside, t) == Outside
  {
    hide After;
    if t == [AcquireFailed] || t == [AcquireRefused] {
      AfterOne(Outside, t[0]);
    } else {
      var p, backends: seq<nat>, runs: seq<seq<CycleResult>>, removeFails :|
        |backends| == |runs| && t == LockedLog(p, backends, runs, removeFails);
      var last := if removeFails then ReleaseFailed else Released;
      var body := BackendsLog(p, backends, runs);
      AfterOne(Outside, Acquired);
      BackendsStayLocked(p, backends, runs);
      AfterOne(Locked, last);
      AfterBoth(Outside, [Acquired], body);
      AfterBoth(Outside, [Acquired] + body, [last]);
    }
  }

  lemma {:induction false} RoundsReturn(rounds: seq<seq<Entry>>)
    requires forall i :: 0 <= i < |rounds| ==> IsRound(rounds[i])
    ensures After(Outside, Concat(rounds)) == Outside
  {
    hide IsRound;
    if rounds != [] {
      var n := |rounds| - 1;
      RoundsReturn(rounds[..n]);
      RoundReturns(rounds[n]);
      AfterBoth(Outside, Concat(rounds[..n]), rounds[n]);
    }
  }

  lemma CoordinatorsNeverStray(life: seq<Entry>)
    requires RunsCoordinators(life)
    ensures !After(Outside, life).Astray?
  {
    var rounds :| (forall i :: 0 <= i < |rounds| ==> IsRound(rounds[i])) && life <= Concat(rounds);
    var rest := Concat(rounds)[|life|..];
    RoundsReturn(rounds);
    assert Concat(rounds) == life + rest;
    AfterBoth(Outside, life, rest);
    AstrayForGood(rest);
  }

  // ---------- any number of processes ----------

  /** A step of process p, a panic that unwinds through its guard, or a crash. */
  datatype Act = Does(p: nat, entry: Entry) | Panics(p: nat, removeFails: bool) | Crashes(p: nat)

  /** What process p did. */
  function Own(p: nat, system: seq<Act>): seq<Entry> {
    if system == [] then []
    else
      var last := system[|system| - 1];
      Own(p, system[..|system| - 1]) + (if last.Does? && last.p == p then [last.entry] else [])
  }

  predicate IsGone(p: nat, system: seq<Act>) {
    exists k | 0 <= k < |system| :: !system[k].Does? && system[k].p == p
  }

  /** The process whose lock file is on the disk they all share, if there is a file. */
  function FileOwner(system: seq<Act>): Option<nat> {
    if system == [] then None
    else OwnerAfter(FileOwner(system[..|system| - 1]), system[|system| - 1])
  }

  function OwnerAfter(owner: Option<nat>, s: Act): Option<nat> {
    if s.Does? && s.entry.Acquired? then Some(s.p)
    else if (s.Does? && s.entry.Released?) || (s.Panics? && !s.removeFails) then None
    else owner
  }

  /** Exclusive creation is atomic: it succeeds only without, and is refused only with a file. */
  predicate IsHonest(owner: Option<nat>, s: Act) {
    s.Does? ==> (s.entry.Acquired? ==> owner.None?) && (s.entry.AcquireRefused? ==> owner.Some?)
  }

  predicate IsInside(s: Stage) {
    s.Locked? || s.InCycle?
  }

  /** Some interleaving of `n` processes that each perform coordinator rounds until they
      crash, or panic while they hold a guard, if ever. */
  ghost predicate IsSystemRun(n: nat, system: seq<Act>) {
    && (forall k :: 0 <= k < |system| ==>
          && system[k].p < n
          && IsHonest(FileOwner(system[..k]), system[k])
          && !IsGone(system[k].p, system[..k])
          && (system[k].Panics? ==> IsInside(After(Outside, Own(system[k].p, system[..k])))))
    && (forall p :: 0 <= p < n ==> RunsCoordinators(Own(p, system)))
  }

  function MoveOf(s: Act): InstanceLock.Move {
    match s
    case Crashes(p) => InstanceLock.Crash(p)
    case Panics(p, removeFails) => if removeFails then InstanceLock.PanicAbandons(p) else InstanceLock.Panic(p)
    case Does(p, entry) =>
      match entry
      case AcquireFailed => InstanceLock.AcquireFails(p)
      case AcquireRefused => InstanceLock.TryAcquire(p)
      case Acquired => InstanceLock.TryAcquire(p)
      case CycleBegan(_) => InstanceLock.BeginCycle(p)
      case CycleEnded(_, _) => InstanceLock.EndCycle(p)
      case Slept(_) => InstanceLock.Rest(p)
      case Released => InstanceLock.Release(p)
      case ReleaseFailed => InstanceLock.ReleaseFails(p)
  }

  function MovesOf(system: seq<Act>): seq<InstanceLock.Move> {
    seq(|system|, i requires 0 <= i < |system| => MoveOf(system[i]))
  }

  function StageOf(status: InstanceLock.Process): Stage {
    match status
    case Idle => Outside
    case Holding(_) => Locked
    case Cycling(_) => InCycle
    case Crashed(_) => Astray
  }

  /** The world of the lock protocol shows what the processes did. */
  predicate Shows(w: InstanceLock.World, n: nat, system: seq<Act>) {
    && |w.processes| == n
    && w.disk.file.Some? == FileOwner(system).Some?
    && GuardsOwn(w, FileOwner(system))
    && forall p :: 0 <= p < n ==>
         if IsGone(p, system) then w.processes[p].Crashed?
         else StageOf(w.processes[p]) == After(Outside, Own(p, system))
  }

  lemma FrontIsSystemRun(n: nat, system: seq<Act>)
    requires IsSystemRun(n, system) && system != []
    ensures IsSystemRun(n, system[..|system| - 1])
  {
    var front := system[..|system| - 1];
    forall k | 0 <= k < |front|
      ensures front[k].p < n && IsHonest(FileOwner(front[..k]), front[k]) && !IsGone(front[k].p, front[..k])
      ensures front[k].Panics? ==> IsInside(After(Outside, Own(front[k].p, front[..k])))
    {
      assert front[..k] == system[..k] && front[k] == system[k];
    }
    forall p | 0 <= p < n ensures RunsCoordinators(Own(p, front)) {
      var rounds :| (forall i :: 0 <= i < |rounds| ==> IsRound(rounds[i])) && Own(p, system) <= Concat(rounds);
      assert Own(p, front) <= Own(p, system) <= Concat(rounds);
    }
  }

  lemma GoneMore(p: nat, system: seq<Act>)
    requires system != []
    ensures IsGone(p, system)
            <==> IsGone(p, system[..|system| - 1])
                 || (!system[|system| - 1].Does? && system[|system| - 1].p == p)
  {
    assert forall k :: 0 <= k < |system| - 1 ==> system[k] == system[..|system| - 1][k];
  }

  /** The lock protocol allows what a process that has not strayed does next. */
  lemma ActIsAllowed(w: InstanceLock.World, owner: Option<nat>, s: Act)
    requires s.p < |w.processes| && w.disk.file.Some? == owner.Some? && IsHonest(owner, s)
    requires !StageOf(w.processes[s.p]).Astray?
    requires s.Does? ==> !Next(StageOf(w.processes[s.p]), s.entry).Astray?
    requires s.Panics? ==> IsInside(StageOf(w.processes[s.p]))
    ensures
      var after := InstanceLock.Advance(w, MoveOf(s));
      && after.Some? && |after.value.processes| == |w.processes|
      && (forall p :: 0 <= p < |w.processes| && p != s.p ==> after.value.processes[p] == w.processes[p])
      && (if s.Does? then StageOf(after.value.processes[s.p]) == Next(StageOf(w.processes[s.p]), s.entry)
          else after.value.processes[s.p].Crashed?)
      && after.value.disk.file.Some? == OwnerAfter(owner, s).Some?
  {
  }

  /** Whoever has a guard owns the file. */
  predicate GuardsOwn(w: InstanceLock.World, owner: Option<nat>) {
    forall p :: 0 <= p < |w.processes| && InstanceLock.GuardOf(w.processes[p]).Some? ==> owner == Some(p)
  }

  lemma OwnerIsKept(w: InstanceLock.World, owner: Option<nat>, s: Act)
    requires s.p < |w.processes| && InstanceLock.Inv(w) && GuardsOwn(w, owner)
    requires w.disk.file.Some? == owner.Some? && IsHonest(owner, s)
    requires s.Panics? ==> IsInside(StageOf(w.processes[s.p]))
    requires InstanceLock.Advance(w, MoveOf(s)).Some?
    ensures GuardsOwn(InstanceLock.Advance(w, MoveOf(s)).value, OwnerAfter(owner, s))
  {
    var after := InstanceLock.Advance(w, MoveOf(s)).value;
    forall p | 0 <= p < |w.processes| && InstanceLock.GuardOf(after.processes[p]).Some?
      ensures OwnerAfter(owner, s) == Some(p)
    {
      if p != s.p {
        assert InstanceLock.GuardOf(w.processes[p]).Some?;
        assert InstanceLock.GuardOf(w.processes[s.p]).None?;
      }
    }
  }

  lemma StepShows(w: InstanceLock.World, n: nat, system: seq<Act>)
    requires system != []
    requires
      var front, last := system[..|system| - 1], system[|system| - 1];
      && Shows(w, n, front) && InstanceLock.Inv(w) && last.p < n
      && IsHonest(FileOwner(front), last) && !IsGone(last.p, front)
      && !After(Outside, Own(last.p, front)).Astray?
      && (last.Does? ==> !Next(After(Outside, Own(last.p, front)), last.entry).Astray?)
      && (last.Panics? ==> IsInside(After(Outside, Own(last.p, front))))
    ensures
      var after := InstanceLock.Advance(w, MoveOf(system[|system| - 1]));
      after.Some? && Shows(after.value, n, system)
  {
    hide IsGone, Own, After, Next, IsHonest, IsInside, StageOf, MoveOf, OwnerAfter, InstanceLock.Advance,
         InstanceLock.GuardOf, InstanceLock.Inv;
    var front, last := system[..|system| - 1], system[|system| - 1];
    ShownStage(w, n, front, last.p);
    ActIsAllowed(w, FileOwner(front), last);
    OwnerIsKept(w, FileOwner(front), last);
    var after := InstanceLock.Advance(w, MoveOf(last)).value;
    forall p | 0 <= p < n
      ensures if IsGone(p, system) then after.processes[p].Crashed?
              else StageOf(after.processes[p]) == After(Outside, Own(p, system))
    {
      GoneMore(p, system);
      OwnMore(p, system);
    }
  }

  lemma ShownStage(w: InstanceLock.World, n: nat, system: seq<Act>, p: nat)
    requires Shows(w, n, system) && p < n && !IsGone(p, system)
    ensures StageOf(w.processes[p]) == After(Outside, Own(p, system))
  {
  }

  lemma OwnMore(p: nat, system: seq<Act>)
    requires system != []
    ensures
      var front, last := system[..|system| - 1], system[|system| - 1];
      After(Outside, Own(p, system))
      == if last.Does? && last.p == p then Next(After(Outside, Own(p, front)), last.entry)
         else After(Outside, Own(p, front))
  {
    var front, last := system[..|system| - 1], system[|system| - 1];
    if last.Does? && last.p == p {
      assert Own(p, system)[..|Own(p, front)|] == Own(p, front);
    } else {
      assert Own(p, system) == Own(p, front);
    }
  }

  /** Coordinators keep to the lock protocol: any interleaving of their journals, read move
      by move, is a schedule of it. */
  lemma {:induction false} SystemRunIsSchedule(n: nat, system: seq<Act>)
    requires IsSystemRun(n, system)
    ensures InstanceLock.Execution(InstanceLock.Start(n), MovesOf(system)).Some?
    ensures Shows(InstanceLock.Execution(InstanceLock.Start(n), MovesOf(system)).value, n, system)
  {
    hide Shows, RunsCoordinators, Next, InstanceLock.Inv;
    if system == [] {
      StartShows(n);
      assert MovesOf(system) == [];
    } else {
      var front, last := system[..|system| - 1], system[|system| - 1];
      FrontIsSystemRun(n, system);
      SystemRunIsSchedule(n, front);
      CoordinatorsNeverStray(Own(last.p, front));
      CoordinatorsNeverStray(Own(last.p, system));
      OwnMore(last.p, system);
      InstanceLock.EveryRunKeepsInv(n, MovesOf(front));
      StepShows(InstanceLock.Execution(InstanceLock.Start(n), MovesOf(front)).value, n, system);
      assert MovesOf(system)[..|system| - 1] == MovesOf(front);
    }
  }

  lemma StartShows(n: nat)
    ensures Shows(InstanceLock.Start(n), n, [])
  {
  }

  /** The process's cycle is over: it ended in order or by a panic. */
  predicate EndsCycle(s: Act, p: nat) {
    s.p == p && (s.Panics? || (s.Does? && s.entry.CycleEnded?))
  }

  /** No two coordinators' backend cycles overlap, in whatever processes and however their
      steps interleave, failing releases, panics and crashes included: between two beginnings
      the first cycle has ended. */
  lemma CoordinatorsNeverOverlap(n: nat, system: seq<Act>, i: nat, j: nat)
    requires IsSystemRun(n, system)
    requires i < j < |system|
    requires system[i].Does? && system[i].entry.CycleBegan?
    requires system[j].Does? && system[j].entry.CycleBegan?
    ensures exists k :: i < k < j && EndsCycle(system[k], system[i].p)
  {
    hide IsSystemRun;
    SystemRunIsSchedule(n, system);
    InstanceLock.CyclesNeverOverlap(n, MovesOf(system), i, j);
    var k :| i < k < j && InstanceLock.EndsCycle(MovesOf(system)[k], system[i].p);
    assert MovesOf(system)[k] == MoveOf(system[k]);
    assert EndsCycle(system[k], system[i].p);
  }

  /** And a cycle runs only while the file on the disk is its own process's. */
  lemma CyclesRunLocked(n: nat, system: seq<Act>, i: nat)
    requires IsSystemRun(n, system)
    requires i < |system| && system[i].Does? && (system[i].entry.CycleBegan? || system[i].entry.CycleEnded?)
    ensures FileOwner(system[..i]) == Some(system[i].p)
    decreases |system|
  {
    hide Next, RunsCoordinators, InstanceLock.Inv, InstanceLock.Execution, Shows;
    var front := system[..|system| - 1];
    FrontIsSystemRun(n, system);
    if i < |front| {
      CyclesRunLocked(n, front, i);
      assert front[..i] == system[..i];
    } else {
      var p := system[i].p;
      assert system[..i] == front;
      SystemRunIsSchedule(n, front);
      CoordinatorsNeverStray(Own(p, system));
      OwnMore(p, system);
      OnlyInsideLock(After(Outside, Own(p, front)), system[i].entry);
      HolderOwnsFile(InstanceLock.Execution(InstanceLock.Start(n), MovesOf(front)).value, n, front, p);
    }
  }

  lemma OnlyInsideLock(s: Stage, e: Entry)
    requires e.CycleBegan? || e.CycleEnded?
    requires !Next(s, e).Astray?
    ensures IsInside(s)
  {
  }

  lemma HolderOwnsFile(w: InstanceLock.World, n: nat, system: seq<Act>, p: nat)
    requires Shows(w, n, system)
    requires p < n && !IsGone(p, system) && IsInside(After(Outside, Own(p, system)))
    ensures FileOwner(system) == Some(p)
  {
    assert StageOf(w.processes[p]) == After(Outside, Own(p, system));
    assert InstanceLock.GuardOf(w.processes[p]).Some?;
  }
}
