/** The single-instance lock of src/reliability.rs as a protocol of any number of processes:
    a file created exclusively and removed by path. */
module InstanceLock {
  import opened Wrappers

  /** The lock path on disk. Every file created there is numbered, so that files can be told
      apart; the code itself never looks at the number. */
  datatype Disk = Disk(file: Option<nat>, created: nat)

  datatype Creation = Creation(guard: Option<nat>, disk: Disk)

  /** `create_new`: atomic, and refused while a file exists. */
  function Create(d: Disk): Creation {
    if d.file.None? then Creation(Some(d.created), Disk(Some(d.created), d.created + 1))
    else Creation(None, d)
  }

  /** `remove_file`, if it succeeds: removes whatever is at the path. */
  function Remove(d: Disk): Disk {
    d.(file := None)
  }

  // ---------- the protocol ----------

  /** A process between ticks, holding a guard, inside a backend cycle, or crashed, which
      leaves the file of a guard it held behind. */
  datatype Process = Idle | Holding(guard: nat) | Cycling(guard: nat) | Crashed(left: Option<nat>)

  /** A crash leaves the process no chance to act. A panic unwinds through the guard's drop,
      inside a cycle or outside, before the process is gone. */
  predicate EndsCycle(m: Move, p: nat) {
    m == EndCycle(p) || m == Panic(p) || m == PanicAbandons(p)
  }

  /** `abandoned` is a file whose owner failed to remove it and went on without noticing. */
  datatype World = World(disk: Disk, processes: seq<Process>, abandoned: Option<nat>)

  datatype Move =
    | TryAcquire(p: nat)
    | AcquireFails(p: nat)
    | BeginCycle(p: nat)
    | EndCycle(p: nat)
    | Rest(p: nat)
    | Release(p: nat)
    | ReleaseFails(p: nat)
    | Panic(p: nat)
    | PanicAbandons(p: nat)
    | Crash(p: nat)

  function Start(processes: nat): World {
    World(Disk(None, 0), seq(processes, _ => Idle), None)
  }

  function With(w: World, p: nat, status: Process): World
    requires p < |w.processes|
  {
    w.(processes := w.processes[p := status])
  }

  function Advance(w: World, m: Move): Option<World> {
    if m.p >= |w.processes| then None
    else
      var status := w.processes[m.p];
      match m
      case TryAcquire(p) =>
        if !status.Idle? then None
        else
          var creation := Create(w.disk);
          Some(With(w, p, if creation.guard.Some? then Holding(creation.guard.value) else Idle).(disk := creation.disk))
      case AcquireFails(p) => if status.Idle? then Some(w) else None
      case BeginCycle(p) => if status.Holding? then Some(With(w, p, Cycling(status.guard))) else None
      case EndCycle(p) => if status.Cycling? then Some(With(w, p, Holding(status.guard))) else None
      case Rest(p) => if status.Holding? then Some(w) else None
      case Release(p) =>
        if status.Holding? then Some(With(w, p, Idle).(disk := Remove(w.disk))) else None
      case ReleaseFails(p) =>
        if status.Holding? then Some(With(w, p, Idle).(abandoned := Some(status.guard))) else None
      case Panic(p) =>
        if IsLive(status) then Some(With(w, p, Crashed(None)).(disk := Remove(w.disk))) else None
      case PanicAbandons(p) =>
        if IsLive(status) then Some(With(w, p, Crashed(None)).(abandoned := GuardOf(status))) else None
      case Crash(p) =>
        if status.Crashed? then None else Some(With(w, p, Crashed(GuardOf(status))))
  }

  function GuardOf(status: Process): Option<nat> {
    match status
    case Idle => None
    case Holding(guard) => Some(guard)
    case Cycling(guard) => Some(guard)
    case Crashed(left) => left
  }

  predicate IsLive(status: Process) {
    status.Holding? || status.Cycling?
  }

  /** The world after a schedule; None when some move was not possible. */
  function Execution(start: World, schedule: seq<Move>): Option<World> {
    if schedule == [] then Some(start)
    else
      var before := Execution(start, schedule[..|schedule| - 1]);
      if before.None? then None else Advance(before.value, schedule[|schedule| - 1])
  }

  /** The file exists exactly while some live or crashed process owns it or a failed release
      has abandoned it; there is one such owner, and it owns this very file. */
  ghost predicate Inv(w: World) {
    && (forall p :: 0 <= p < |w.processes| && GuardOf(w.processes[p]).Some? ==>
          w.disk.file == GuardOf(w.processes[p]) && w.abandoned.None?)
    && (forall p, q :: 0 <= p < q < |w.processes| ==>
          GuardOf(w.processes[p]).None? || GuardOf(w.processes[q]).None?)
    && (w.abandoned.Some? ==> w.disk.file == w.abandoned)
    && (w.disk.file.Some? ==>
          && w.disk.file.value < w.disk.created
          && (w.abandoned.Some? || IsOwned(w)))
  }

  predicate IsOwned(w: World) {
    exists p | 0 <= p < |w.processes| :: GuardOf(w.processes[p]).Some?
  }

  lemma MoveKeepsInv(w: World, m: Move)
    requires Inv(w) && Advance(w, m).Some?
    ensures Inv(Advance(w, m).value)
  {
    var after := Advance(w, m).value;
    if after.disk.file.Some? && after.abandoned.None? {
      if w.disk.file.Some? {
        var p :| 0 <= p < |w.processes| && GuardOf(w.processes[p]).Some?;
        assert GuardOf(after.processes[p]).Some?;
      } else {
        assert GuardOf(after.processes[m.p]).Some?;
      }
    }
  }

  lemma {:induction false} EveryRunKeepsInv(processes: nat, schedule: seq<Move>)
    requires Execution(Start(processes), schedule).Some?
    ensures Inv(Execution(Start(processes), schedule).value)
  {
    if schedule != [] {
      var front := schedule[..|schedule| - 1];
      EveryRunKeepsInv(processes, front);
      MoveKeepsInv(Execution(Start(processes), front).value, schedule[|schedule| - 1]);
    }
  }

  /** Over every interleaving: at most one live guard; the file exists exactly when a live
      or crashed owner remains or a release has failed; and a release, orderly or by a
      panic, removes the releasing owner's own file. */
  lemma LockIsExclusive(processes: nat, schedule: seq<Move>, p: nat, q: nat)
    requires Execution(Start(processes), schedule).Some?
    requires p < |Execution(Start(processes), schedule).value.processes|
    requires q < |Execution(Start(processes), schedule).value.processes|
    ensures
      var w := Execution(Start(processes), schedule).value;
      && (IsLive(w.processes[p]) && IsLive(w.processes[q]) ==> p == q)
      && (w.disk.file.Some? <==> IsOwned(w) || w.abandoned.Some?)
      && (Advance(w, Release(p)).Some? || Advance(w, Panic(p)).Some? ==>
            w.disk.file == GuardOf(w.processes[p]) && w.disk.file.Some?)
  {
    EveryRunKeepsInv(processes, schedule);
  }

  lemma PrefixRuns(start: World, schedule: seq<Move>, k: nat)
    requires k <= |schedule| && Execution(start, schedule).Some?
    ensures Execution(start, schedule[..k]).Some?
    ensures k < |schedule| ==>
      Execution(start, schedule[..k + 1]) == Advance(Execution(start, schedule[..k]).value, schedule[k])
    decreases |schedule|
  {
    if k == |schedule| {
      assert schedule[..k] == schedule;
    } else {
      var front := schedule[..|schedule| - 1];
      PrefixRuns(start, front, k);
      assert front[..k] == schedule[..k];
      if k + 1 == |schedule| {
        assert schedule[..k + 1] == schedule;
      } else {
        assert front[..k + 1] == schedule[..k + 1];
      }
    }
  }

  /** Inside a cycle, or crashed with the guard. */
  predicate Occupies(w: World, p: nat) {
    && p < |w.processes|
    && (w.processes[p].Cycling? || (w.processes[p].Crashed? && w.processes[p].left.Some?))
  }

  lemma OccupationLasts(w: World, m: Move, p: nat)
    requires Advance(w, m).Some? && !EndsCycle(m, p)
    requires Occupies(w, p) || m == BeginCycle(p)
    ensures Occupies(Advance(w, m).value, p)
  {
  }

  lemma NobodyBeginsBeside(w: World, p: nat, q: nat)
    requires Inv(w) && Occupies(w, p)
    ensures Advance(w, BeginCycle(q)).None?
  {
    assert GuardOf(w.processes[p]).Some?;
  }

  /** A process that began a cycle keeps the file until the cycle ends, even by crashing. */
  lemma {:induction false} CycleKeepsFile(processes: nat, schedule: seq<Move>, i: nat, j: nat)
    requires Execution(Start(processes), schedule).Some?
    requires i < j <= |schedule| && schedule[i].BeginCycle?
    requires forall k :: i < k < j ==> !EndsCycle(schedule[k], schedule[i].p)
    ensures Execution(Start(processes), schedule[..j]).Some?
    ensures Occupies(Execution(Start(processes), schedule[..j]).value, schedule[i].p)
    decreases j
  {
    hide Execution;
    PrefixRuns(Start(processes), schedule, j);
    PrefixRuns(Start(processes), schedule, j - 1);
    if j - 1 > i {
      CycleKeepsFile(processes, schedule, i, j - 1);
    }
    OccupationLasts(Execution(Start(processes), schedule[..j - 1]).value, schedule[j - 1], schedule[i].p);
  }

  /** No two backend cycles overlap: between two beginnings the first cycle has ended, in
      order or by a panic. */
  lemma CyclesNeverOverlap(processes: nat, schedule: seq<Move>, i: nat, j: nat)
    requires Execution(Start(processes), schedule).Some?
    requires i < j < |schedule| && schedule[i].BeginCycle? && schedule[j].BeginCycle?
    ensures exists k :: i < k < j && EndsCycle(schedule[k], schedule[i].p)
  {
    hide Execution;
    if forall k :: i < k < j ==> !EndsCycle(schedule[k], schedule[i].p) {
      CycleKeepsFile(processes, schedule, i, j);
      PrefixRuns(Start(processes), schedule, j);
      PrefixRuns(Start(processes), schedule, j + 1);
      EveryRunKeepsInv(processes, schedule[..j]);
      NobodyBeginsBeside(Execution(Start(processes), schedule[..j]).value, schedule[i].p, schedule[j].p);
    }
  }

  /** The file has lost everyone who would remove it. */
  predicate IsLost(w: World) {
    || w.abandoned.Some?
    || exists p | 0 <= p < |w.processes| :: w.processes[p].Crashed? && w.processes[p].left.Some?
  }

  predicate NobodyLive(w: World) {
    forall q :: 0 <= q < |w.processes| ==> !IsLive(w.processes[q])
  }

  /** The price of a lock nobody inspects: after a crash with the guard held, or a release
      that failed, the file stays for good and no process ever acquires it again. */
  lemma {:induction false} LostFileBlocksForever(processes: nat, schedule: seq<Move>, late: seq<Move>)
    requires Execution(Start(processes), schedule).Some?
    requires IsLost(Execution(Start(processes), schedule).value)
    requires Execution(Start(processes), schedule + late).Some?
    ensures
      var before, after := Execution(Start(processes), schedule).value, Execution(Start(processes), schedule + late).value;
      after.disk == before.disk && IsLost(after) && NobodyLive(after)
    decreases |late|
  {
    if late == [] {
      assert schedule + late == schedule;
      EveryRunKeepsInv(processes, schedule);
    } else {
      var earlier := late[..|late| - 1];
      assert (schedule + late)[..|schedule + late| - 1] == schedule + earlier;
      LostFileBlocksForever(processes, schedule, earlier);
      EveryRunKeepsInv(processes, schedule + earlier);
      BlockedMove(Execution(Start(processes), schedule + earlier).value, late[|late| - 1]);
    }
  }

  lemma BlockedMove(w: World, m: Move)
    requires Inv(w) && IsLost(w) && Advance(w, m).Some?
    ensures
      var after := Advance(w, m).value;
      after.disk == w.disk && IsLost(after) && NobodyLive(after)
  {
    var after := Advance(w, m).value;
    if w.abandoned.None? {
      var p :| 0 <= p < |w.processes| && w.processes[p].Crashed? && w.processes[p].left.Some?;
      assert forall q :: 0 <= q < |w.processes| && q != p ==> GuardOf(w.processes[q]).None?;
      assert after.processes[p] == w.processes[p];
    }
  }

  /** Otherwise nothing is lost: with no owner left, live or crashed, and no file abandoned,
      the next attempt gets the lock; and only then. */
  lemma FreeLockIsAcquired(processes: nat, schedule: seq<Move>, p: nat)
    requires Execution(Start(processes), schedule).Some?
    requires
      var w := Execution(Start(processes), schedule).value;
      && p < |w.processes| && w.processes[p].Idle?
    ensures
      var w := Execution(Start(processes), schedule).value;
      && Advance(w, TryAcquire(p)).Some?
      && (IsLive(Advance(w, TryAcquire(p)).value.processes[p]) <==> !IsOwned(w) && w.abandoned.None?)
  {
    EveryRunKeepsInv(processes, schedule);
  }
}
