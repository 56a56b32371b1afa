/** The batch executor of src/executor.rs: the sequential loop, and the interleaved machine
    of a main thread and detached workers that it abstracts. */
module Executor {
  import opened Wrappers
  import opened Domain
  import opened Backend

  datatype ActionFailure = ActionFailure(action: PlannedAction, error: CleanupError)

  datatype ExecutionReport = ExecutionReport(
    completed: seq<ExecutionResponse>, failures: seq<ActionFailure>)

  /** Only the actions that neither the plan nor the action itself marks as dry. */
  function RealActions(planDryRun: bool, actions: seq<PlannedAction>): seq<PlannedAction> {
    if actions == [] then []
    else
      var last := actions[|actions| - 1];
      RealActions(planDryRun, actions[..|actions| - 1])
      + (if planDryRun || last.dryRun then [] else [last])
  }

  function SyntheticResponse(backend: BackendKind, action: PlannedAction): ExecutionResponse {
    ExecutionResponse(backend, action.candidate, false, true)
  }

  function ResultOf(backend: BackendKind, outcome: WorkerOutcome): Result<ExecutionResponse, CleanupError> {
    match outcome
    case Returned(result) => result
    case TimedOut => Err(ExecutionError(backend, "action timed out"))
    case Disconnected => Err(ExecutionError(backend, "execution worker disconnected before completion"))
  }

  predicate Fails(outcome: WorkerOutcome) {
    !(outcome.Returned? && outcome.result.Ok?)
  }

  /** The report of a batch whose i-th real action ends with `outcomes[i]`. */
  function BatchReport(backend: BackendKind, planDryRun: bool, actions: seq<PlannedAction>, outcomes: seq<WorkerOutcome>)
    : ExecutionReport
    requires |outcomes| == |RealActions(planDryRun, actions)|
  {
    if actions == [] then ExecutionReport([], [])
    else
      var front, last := actions[..|actions| - 1], actions[|actions| - 1];
      if planDryRun || last.dryRun then
        var r := BatchReport(backend, planDryRun, front, outcomes);
        r.(completed := r.completed + [SyntheticResponse(backend, last)])
      else
        var r := BatchReport(backend, planDryRun, front, outcomes[..|outcomes| - 1]);
        match ResultOf(backend, outcomes[|outcomes| - 1])
        case Ok(response) => r.(completed := r.completed + [response])
        case Err(error) => r.(failures := r.failures + [ActionFailure(last, error)])
  }

  function ExecutionEvents(actions: seq<PlannedAction>, outcomes: seq<WorkerOutcome>): (events: seq<Event>)
    requires |outcomes| <= |actions|
    ensures |events| == |outcomes|
  {
    seq(|outcomes|, i requires 0 <= i < |outcomes| => Executed(actions[i], outcomes[i]))
  }

  class CleanupExecutor {
    constructor () {}

    /** Dry actions never reach the backend; each other one is a single backend call; the
        batch runs to the end whatever fails. */
    method ExecutePlan(backend: BackendAdapter, plan: ActionPlan)
      returns (report: ExecutionReport, ghost outcomes: seq<WorkerOutcome>)
      requires backend.Faithful()
      modifies backend
      ensures backend.Faithful()
      ensures |outcomes| == |RealActions(plan.dryRun, plan.actions)|
      ensures backend.trace
              == old(backend.trace) + ExecutionEvents(RealActions(plan.dryRun, plan.actions), outcomes)
      ensures report == BatchReport(plan.backend, plan.dryRun, plan.actions, outcomes)
    {
      hide Answered;
      var completed: seq<ExecutionResponse> := [];
      var failures: seq<ActionFailure> := [];
      outcomes := [];
      for i := 0 to |plan.actions|
        invariant backend.Faithful()
        invariant |outcomes| == |RealActions(plan.dryRun, plan.actions[..i])|
        invariant backend.trace
                  == old(backend.trace) + ExecutionEvents(RealActions(plan.dryRun, plan.actions[..i]), outcomes)
        invariant ExecutionReport(completed, failures)
                  == BatchReport(plan.backend, plan.dryRun, plan.actions[..i], outcomes)
      {
        var action := plan.actions[i];
        assert plan.actions[..i + 1][..i] == plan.actions[..i];
        if plan.dryRun || action.dryRun {
          completed := completed + [SyntheticResponse(plan.backend, action)];
          continue;
        }
        var outcome := backend.Execute(action);
        outcomes := outcomes + [outcome];
        assert outcomes[..|outcomes| - 1] + [outcome] == outcomes;
        match ResultOf(plan.backend, outcome) {
          case Ok(response) => completed := completed + [response];
          case Err(error) => failures := failures + [ActionFailure(action, error)];
        }
      }
      assert plan.actions[..|plan.actions|] == plan.actions;
      report := ExecutionReport(completed, failures);
    }
  }

  // ---------- laws of the batch report ----------

  lemma BatchReportStep(backend: BackendKind, dry: bool, actions: seq<PlannedAction>, outcomes: seq<WorkerOutcome>)
    requires actions != [] && |outcomes| == |RealActions(dry, actions)|
    ensures
      var front, last := actions[..|actions| - 1], actions[|actions| - 1];
      var after := BatchReport(backend, dry, actions, outcomes);
      if dry || last.dryRun then
        && |outcomes| == |RealActions(dry, front)|
        && var before := BatchReport(backend, dry, front, outcomes);
           after == before.(completed := before.completed + [SyntheticResponse(backend, last)])
      else
        && outcomes != [] && |outcomes| - 1 == |RealActions(dry, front)|
        && var before := BatchReport(backend, dry, front, outcomes[..|outcomes| - 1]);
           match ResultOf(backend, outcomes[|outcomes| - 1])
           case Ok(response) => after == before.(completed := before.completed + [response])
           case Err(error) => after == before.(failures := before.failures + [ActionFailure(last, error)])
  {
  }

  /** Nothing is lost or counted twice, and a failure is reported exactly when some real
      action failed. */
  lemma {:induction false} BatchIsComplete(
      backend: BackendKind, dry: bool, actions: seq<PlannedAction>, outcomes: seq<WorkerOutcome>)
    requires |outcomes| == |RealActions(dry, actions)|
    ensures
      var r := BatchReport(backend, dry, actions, outcomes);
      && |r.completed| + |r.failures| == |actions|
      && (r.failures != [] <==> exists i :: 0 <= i < |outcomes| && Fails(outcomes[i]))
  {
    if actions != [] {
      var front, last := actions[..|actions| - 1], actions[|actions| - 1];
      if dry || last.dryRun {
        BatchIsComplete(backend, dry, front, outcomes);
      } else {
        var before := outcomes[..|outcomes| - 1];
        BatchIsComplete(backend, dry, front, before);
        assert outcomes == before + [outcomes[|outcomes| - 1]];
        if exists i :: 0 <= i < |before| && Fails(before[i]) {
          var i :| 0 <= i < |before| && Fails(before[i]);
          assert Fails(outcomes[i]);
        }
      }
    }
  }

  /** Order: the i-th action lands in exactly one list, directly behind what the first i
      actions put there. */
  lemma {:induction false} ActionLandsInOneList(
      backend: BackendKind, dry: bool, actions: seq<PlannedAction>, outcomes: seq<WorkerOutcome>, i: nat)
    requires i < |actions|
    requires |outcomes| == |RealActions(dry, actions)|
    ensures |RealActions(dry, actions[..i])| <= |outcomes|
    ensures
      var started := |RealActions(dry, actions[..i])|;
      var before := BatchReport(backend, dry, actions[..i], outcomes[..started]);
      var after := BatchReport(backend, dry, actions, outcomes);
      if dry || actions[i].dryRun then
        && |before.completed| < |after.completed|
        && after.completed[|before.completed|] == SyntheticResponse(backend, actions[i])
      else
        && started < |outcomes|
        && match ResultOf(backend, outcomes[started])
           case Ok(response) =>
             && |before.completed| < |after.completed|
             && after.completed[|before.completed|] == response
           case Err(error) =>
             && |before.failures| < |after.failures|
             && after.failures[|before.failures|] == ActionFailure(actions[i], error)
  {
    var front := actions[..|actions| - 1];
    BatchReportStep(backend, dry, actions, outcomes);
    var kept := if dry || actions[|front|].dryRun then outcomes else outcomes[..|outcomes| - 1];
    if i < |front| {
      assert front[..i] == actions[..i];
      ActionLandsInOneList(backend, dry, front, kept, i);
      var started := |RealActions(dry, actions[..i])|;
      assert kept[..started] == outcomes[..started];
    } else {
      assert outcomes[..|RealActions(dry, front)|] == kept;
    }
  }

  /** What lands there: a dry action is answered with its own candidate, not executed; a real
      one with what the backend returned; and a worker that timed out or vanished counts as
      an execution failure of that action, never as a completion. */
  lemma ActionIsAnswered(
      backend: BackendKind, dry: bool, actions: seq<PlannedAction>, outcomes: seq<WorkerOutcome>, i: nat)
    requires i < |actions|
    requires |outcomes| == |RealActions(dry, actions)|
    ensures |RealActions(dry, actions[..i])| <= |outcomes|
    ensures
      var started := |RealActions(dry, actions[..i])|;
      var before := BatchReport(backend, dry, actions[..i], outcomes[..started]);
      var after := BatchReport(backend, dry, actions, outcomes);
      var done, failed := |before.completed|, |before.failures|;
      if dry || actions[i].dryRun then
        done < |after.completed|
        && after.completed[done] == ExecutionResponse(backend, actions[i].candidate, false, true)
      else
        && started < |outcomes|
        && match outcomes[started]
           case Returned(Ok(response)) => done < |after.completed| && after.completed[done] == response
           case Returned(Err(error)) => failed < |after.failures| && after.failures[failed] == ActionFailure(actions[i], error)
           case _ =>
             && failed < |after.failures| && after.failures[failed].action == actions[i]
             && after.failures[failed].error.ExecutionError? && after.failures[failed].error.backend == backend
  {
    hide BatchReport, RealActions;
    ActionLandsInOneList(backend, dry, actions, outcomes, i);
  }

  /** The first failure reported is the first one that happened. */
  lemma {:induction false} FirstFailureIsFirst(
      backend: BackendKind, dry: bool, actions: seq<PlannedAction>, outcomes: seq<WorkerOutcome>, k: nat)
    requires |outcomes| == |RealActions(dry, actions)|
    requires k < |outcomes| && Fails(outcomes[k]) && forall j :: 0 <= j < k ==> !Fails(outcomes[j])
    ensures
      var failures := BatchReport(backend, dry, actions, outcomes).failures;
      && failures != [] && failures[0].action == RealActions(dry, actions)[k]
      && match outcomes[k]
         case Returned(result) => failures[0].error == result.error
         case _ => failures[0].error.ExecutionError? && failures[0].error.backend == backend
  {
    hide BatchReport;
    BatchReportStep(backend, dry, actions, outcomes);
    var front, last := actions[..|actions| - 1], actions[|actions| - 1];
    if dry || last.dryRun {
      FirstFailureIsFirst(backend, dry, front, outcomes, k);
    } else if k < |outcomes| - 1 {
      FirstFailureIsFirst(backend, dry, front, outcomes[..|outcomes| - 1], k);
    } else {
      BatchIsComplete(backend, dry, front, outcomes[..|outcomes| - 1]);
    }
  }

  /** A dry batch starts no worker, cannot fail and executes nothing. */
  lemma {:induction false} DryBatchTouchesNothing(backend: BackendKind, actions: seq<PlannedAction>)
    ensures RealActions(true, actions) == []
    ensures
      var r := BatchReport(backend, true, actions, []);
      r.failures == [] && forall k :: 0 <= k < |r.completed| ==> !r.completed[k].executed
  {
    if actions != [] {
      DryBatchTouchesNothing(backend, actions[..|actions| - 1]);
    }
  }

  lemma {:induction false} AllReal(actions: seq<PlannedAction>)
    requires forall i :: 0 <= i < |actions| ==> !actions[i].dryRun
    ensures RealActions(false, actions) == actions
  {
    if actions != [] {
      AllReal(actions[..|actions| - 1]);
      assert actions == actions[..|actions| - 1] + [actions[|actions| - 1]];
    }
  }

  // ---------- the interleaved machine ----------

  datatype Status =
    | Running
    | Finished(result: Result<ExecutionResponse, CleanupError>)
    | Died

  /** A worker calls the backend once, for its own action. */
  datatype Worker = Worker(action: PlannedAction, status: Status)

  function Served(workers: seq<Worker>): seq<PlannedAction> {
    seq(|workers|, i requires 0 <= i < |workers| => workers[i].action)
  }

  /** `next` actions are done or being waited for. */
  datatype Machine = Machine(
    next: nat,
    waiting: bool,
    workers: seq<Worker>,
    completed: seq<ExecutionResponse>,
    failures: seq<ActionFailure>)

  datatype Move =
    | AnswerDry
    | Spawn
    | Receive
    | GiveUp
    | NoticeDisconnect
    | WorkerFinishes(w: nat, result: Result<ExecutionResponse, CleanupError>)
    | WorkerDies(w: nat)

  const INITIAL := Machine(0, false, [], [], [])

  predicate Terminal(plan: ActionPlan, s: Machine) {
    s.next == |plan.actions| && !s.waiting
  }

  function Settle(plan: ActionPlan, s: Machine, outcome: WorkerOutcome): Machine
    requires 0 < s.next <= |plan.actions|
  {
    match ResultOf(plan.backend, outcome)
    case Ok(response) => s.(waiting := false, completed := s.completed + [response])
    case Err(error) =>
      s.(waiting := false, failures := s.failures + [ActionFailure(plan.actions[s.next - 1], error)])
  }

  predicate IsDry(plan: ActionPlan, i: nat)
    requires i < |plan.actions|
  {
    plan.dryRun || plan.actions[i].dryRun
  }

  /** One atomic move of the main thread or of a worker; None when it is not enabled. A worker
      may move long after the main thread gave up on it. */
  function Advance(plan: ActionPlan, s: Machine, move: Move): Option<Machine> {
    match move
    case AnswerDry =>
      if !s.waiting && s.next < |plan.actions| && IsDry(plan, s.next) then
        Some(s.(next := s.next + 1,
                completed := s.completed + [SyntheticResponse(plan.backend, plan.actions[s.next])]))
      else None
    case Spawn =>
      if !s.waiting && s.next < |plan.actions| && !IsDry(plan, s.next) then
        Some(s.(next := s.next + 1, waiting := true, workers := s.workers + [Worker(plan.actions[s.next], Running)]))
      else None
    case Receive =>
      if Waits(plan, s) && s.workers[|s.workers| - 1].status.Finished? then
        Some(Settle(plan, s, Returned(s.workers[|s.workers| - 1].status.result)))
      else None
    case GiveUp =>
      if Waits(plan, s) && s.workers[|s.workers| - 1].status.Running? then Some(Settle(plan, s, TimedOut)) else None
    case NoticeDisconnect =>
      if Waits(plan, s) && s.workers[|s.workers| - 1].status.Died? then Some(Settle(plan, s, Disconnected)) else None
    case WorkerFinishes(w, result) =>
      if w < |s.workers| && s.workers[w].status.Running? then
        Some(s.(workers := s.workers[w := s.workers[w].(status := Finished(result))]))
      else None
    case WorkerDies(w) =>
      if w < |s.workers| && s.workers[w].status.Running? then Some(s.(workers := s.workers[w := s.workers[w].(status := Died)])) else None
  }

  predicate Waits(plan: ActionPlan, s: Machine) {
    s.waiting && s.workers != [] && 0 < s.next <= |plan.actions|
  }

  /** The state after a schedule, and the outcomes the main thread saw, in order. */
  datatype Progress = Progress(machine: Machine, seen: seq<WorkerOutcome>)

  function SeenBy(s: Machine, move: Move): seq<WorkerOutcome> {
    match move
    case Receive =>
      if s.workers != [] && s.workers[|s.workers| - 1].status.Finished? then
        [Returned(s.workers[|s.workers| - 1].status.result)]
      else []
    case GiveUp => [TimedOut]
    case NoticeDisconnect => [Disconnected]
    case _ => []
  }

  function Execution(plan: ActionPlan, schedule: seq<Move>): Option<Progress> {
    if schedule == [] then Some(Progress(INITIAL, []))
    else
      var before := Execution(plan, schedule[..|schedule| - 1]);
      var move := schedule[|schedule| - 1];
      if before.None? then None
      else
        var after := Advance(plan, before.value.machine, move);
        if after.None? then None
        else Some(Progress(after.value, before.value.seen + SeenBy(before.value.machine, move)))
  }

  /** Actions whose outcome is settled. */
  function Settled(s: Machine): int {
    s.next - (if s.waiting then 1 else 0)
  }

  predicate MachineInv(plan: ActionPlan, p: Progress) {
    var s := p.machine;
    var done := Settled(s);
    && 0 <= done <= s.next <= |plan.actions|
    && (s.waiting ==> !IsDry(plan, s.next - 1))
    && Served(s.workers) == RealActions(plan.dryRun, plan.actions[..s.next])
    && |p.seen| == |RealActions(plan.dryRun, plan.actions[..done])|
    && ExecutionReport(s.completed, s.failures)
       == BatchReport(plan.backend, plan.dryRun, plan.actions[..done], p.seen)
  }

  lemma TakeOneMore(plan: ActionPlan, i: nat)
    requires i < |plan.actions|
    ensures RealActions(plan.dryRun, plan.actions[..i + 1])
            == RealActions(plan.dryRun, plan.actions[..i])
               + (if IsDry(plan, i) then [] else [plan.actions[i]])
  {
    assert plan.actions[..i + 1][..i] == plan.actions[..i];
  }

  lemma ReportOneMore(plan: ActionPlan, i: nat, seen: seq<WorkerOutcome>, more: seq<WorkerOutcome>)
    requires i < |plan.actions|
    requires |seen| == |RealActions(plan.dryRun, plan.actions[..i])|
    requires |more| == if IsDry(plan, i) then 0 else 1
    ensures |seen + more| == |RealActions(plan.dryRun, plan.actions[..i + 1])|
    ensures
      var before := BatchReport(plan.backend, plan.dryRun, plan.actions[..i], seen);
      var after := BatchReport(plan.backend, plan.dryRun, plan.actions[..i + 1], seen + more);
      if IsDry(plan, i) then
        after == before.(completed := before.completed + [SyntheticResponse(plan.backend, plan.actions[i])])
      else
        match ResultOf(plan.backend, more[0])
        case Ok(response) => after == before.(completed := before.completed + [response])
        case Err(error) => after == before.(failures := before.failures + [ActionFailure(plan.actions[i], error)])
  {
    TakeOneMore(plan, i);
    assert plan.actions[..i + 1][..i] == plan.actions[..i];
    if IsDry(plan, i) {
      assert seen + more == seen;
    } else {
      assert (seen + more)[..|seen + more| - 1] == seen;
    }
  }

  lemma MovePreservesInv(plan: ActionPlan, p: Progress, move: Move)
    requires MachineInv(plan, p)
    requires Advance(plan, p.machine, move).Some?
    ensures MachineInv(plan, Progress(Advance(plan, p.machine, move).value, p.seen + SeenBy(p.machine, move)))
  {
    hide BatchReport, RealActions;
    var s := p.machine;
    match move {
      case AnswerDry =>
        TakeOneMore(plan, s.next);
        ReportOneMore(plan, s.next, p.seen, []);
      case Spawn =>
        TakeOneMore(plan, s.next);
        assert p.seen + [] == p.seen;
      case WorkerFinishes(_, _) =>
        assert p.seen + [] == p.seen;
      case WorkerDies(_) =>
        assert p.seen + [] == p.seen;
      case Receive => SettlingPreservesInv(plan, p, SeenBy(s, move)[0]);
      case GiveUp => SettlingPreservesInv(plan, p, TimedOut);
      case NoticeDisconnect => SettlingPreservesInv(plan, p, Disconnected);
    }
  }

  lemma SettlingPreservesInv(plan: ActionPlan, p: Progress, outcome: WorkerOutcome)
    requires MachineInv(plan, p) && Waits(plan, p.machine)
    ensures MachineInv(plan, Progress(Settle(plan, p.machine, outcome), p.seen + [outcome]))
  {
    hide BatchReport, RealActions;
    ReportOneMore(plan, p.machine.next - 1, p.seen, [outcome]);
  }

  lemma {:induction false} EveryInterleavingKeepsInv(plan: ActionPlan, schedule: seq<Move>)
    requires Execution(plan, schedule).Some?
    ensures MachineInv(plan, Execution(plan, schedule).value)
  {
    if schedule == [] {
      assert plan.actions[..0] == [];
    } else {
      var front := schedule[..|schedule| - 1];
      EveryInterleavingKeepsInv(plan, front);
      MovePreservesInv(plan, Execution(plan, front).value, schedule[|schedule| - 1]);
    }
  }

  /** Every interleaving that lets the main thread finish yields the report of the plain
      sequential batch over the outcomes the main thread saw, having started exactly one
      backend call for each real action, in order, and none for a dry one. */
  lemma InterleavingRefinesBatch(plan: ActionPlan, schedule: seq<Move>)
    requires Execution(plan, schedule).Some?
    requires Terminal(plan, Execution(plan, schedule).value.machine)
    ensures
      var Progress(s, seen) := Execution(plan, schedule).value;
      && Served(s.workers) == RealActions(plan.dryRun, plan.actions)
      && |seen| == |s.workers|
      && ExecutionReport(s.completed, s.failures)
         == BatchReport(plan.backend, plan.dryRun, plan.actions, seen)
  {
    EveryInterleavingKeepsInv(plan, schedule);
    assert plan.actions[..|plan.actions|] == plan.actions;
  }

  predicate SameReport(plan: ActionPlan, before: Progress, after: Progress) {
    && Terminal(plan, after.machine)
    && after.machine.completed == before.machine.completed
    && after.machine.failures == before.machine.failures
    && Served(after.machine.workers) == Served(before.machine.workers)
    && after.seen == before.seen
  }

  lemma MoveAfterTheEnd(plan: ActionPlan, p: Progress, move: Move)
    requires Terminal(plan, p.machine)
    requires Advance(plan, p.machine, move).Some?
    ensures SameReport(plan, p, Progress(Advance(plan, p.machine, move).value, p.seen + SeenBy(p.machine, move)))
  {
    assert p.seen + [] == p.seen;
  }

  lemma ExecutionStep(plan: ActionPlan, schedule: seq<Move>)
    requires schedule != []
    ensures
      var front := Execution(plan, schedule[..|schedule| - 1]);
      var move := schedule[|schedule| - 1];
      Execution(plan, schedule).Some? ==>
        && front.Some?
        && Advance(plan, front.value.machine, move).Some?
        && Execution(plan, schedule).value
           == Progress(Advance(plan, front.value.machine, move).value,
                       front.value.seen + SeenBy(front.value.machine, move))
  {
  }

  /** Late workers change nothing: once the main thread is done, whatever else the schedule
      holds, the report and the outcomes seen stay as they are, and no call is started. */
  lemma {:induction false} LateWorkersChangeNothing(plan: ActionPlan, schedule: seq<Move>, late: seq<Move>)
    requires Execution(plan, schedule).Some?
    requires Terminal(plan, Execution(plan, schedule).value.machine)
    requires Execution(plan, schedule + late).Some?
    ensures SameReport(plan, Execution(plan, schedule).value, Execution(plan, schedule + late).value)
    decreases |late|
  {
    if late == [] {
      assert schedule + late == schedule;
    } else {
      var whole, earlier := schedule + late, schedule + late[..|late| - 1];
      assert whole[..|whole| - 1] == earlier;
      ExecutionStep(plan, whole);
      LateWorkersChangeNothing(plan, schedule, late[..|late| - 1]);
      MoveAfterTheEnd(plan, Execution(plan, earlier).value, late[|late| - 1]);
    }
  }

  /** The main thread is never stuck: short of the end some move of its own is enabled,
      because a silent worker can always be given up. */
  lemma MainThreadNeverBlocks(plan: ActionPlan, schedule: seq<Move>) returns (move: Move)
    requires Execution(plan, schedule).Some?
    requires !Terminal(plan, Execution(plan, schedule).value.machine)
    ensures !move.WorkerFinishes? && !move.WorkerDies?
    ensures Advance(plan, Execution(plan, schedule).value.machine, move).Some?
  {
    EveryInterleavingKeepsInv(plan, schedule);
    move := EnabledMove(plan, Execution(plan, schedule).value);
  }

  lemma EnabledMove(plan: ActionPlan, p: Progress) returns (move: Move)
    requires MachineInv(plan, p) && !Terminal(plan, p.machine)
    ensures !move.WorkerFinishes? && !move.WorkerDies?
    ensures Advance(plan, p.machine, move).Some?
  {
    hide BatchReport, RealActions;
    var s := p.machine;
    if !s.waiting {
      move := if IsDry(plan, s.next) then AnswerDry else Spawn;
    } else {
      TakeOneMore(plan, s.next - 1);
      match s.workers[|s.workers| - 1].status {
        case Finished(_) => move := Receive;
        case Died => move := NoticeDisconnect;
        case Running => move := GiveUp;
      }
    }
  }

  // ---------- workers left running ----------

  /** What the main thread has seen of a worker is what became of it, unless it gave up. */
  predicate IsOutcomeOf(status: Status, outcome: WorkerOutcome) {
    match outcome
    case Returned(result) => status == Finished(result)
    case Disconnected => status.Died?
    case TimedOut => true
  }

  predicate SeenFits(p: Progress) {
    && |p.machine.workers| == |p.seen| + (if p.machine.waiting then 1 else 0)
    && forall w :: 0 <= w < |p.seen| ==> IsOutcomeOf(p.machine.workers[w].status, p.seen[w])
  }

  lemma {:induction false} EveryInterleavingFits(plan: ActionPlan, schedule: seq<Move>)
    requires Execution(plan, schedule).Some?
    ensures SeenFits(Execution(plan, schedule).value)
  {
    if schedule != [] {
      var front, move := schedule[..|schedule| - 1], schedule[|schedule| - 1];
      EveryInterleavingFits(plan, front);
      MoveFits(plan, Execution(plan, front).value, move);
    }
  }

  lemma MoveFits(plan: ActionPlan, p: Progress, move: Move)
    requires SeenFits(p) && Advance(plan, p.machine, move).Some?
    ensures SeenFits(Progress(Advance(plan, p.machine, move).value, p.seen + SeenBy(p.machine, move)))
  {
  }

  predicate NoneRunning(s: Machine) {
    forall w :: 0 <= w < |s.workers| ==> !s.workers[w].status.Running?
  }

  /** The main thread is done, having seen exactly these outcomes. */
  predicate EndsWith(plan: ActionPlan, schedule: seq<Move>, outcomes: seq<WorkerOutcome>) {
    && Execution(plan, schedule).Some?
    && Terminal(plan, Execution(plan, schedule).value.machine)
    && Execution(plan, schedule).value.seen == outcomes
  }

  lemma ExecutionMore(plan: ActionPlan, schedule: seq<Move>, move: Move)
    requires Execution(plan, schedule).Some?
    requires Advance(plan, Execution(plan, schedule).value.machine, move).Some?
    ensures
      var p := Execution(plan, schedule).value;
      Execution(plan, schedule + [move])
      == Some(Progress(Advance(plan, p.machine, move).value, p.seen + SeenBy(p.machine, move)))
  {
    assert (schedule + [move])[..|schedule|] == schedule;
  }

  function StatusFor(outcome: WorkerOutcome): Status {
    match outcome
    case Returned(result) => Finished(result)
    case Disconnected => Died
    case TimedOut => Running
  }

  /** Worker w brings about its outcome, and the main thread notices. */
  function Settling(w: nat, outcome: WorkerOutcome): seq<Move> {
    match outcome
    case Returned(result) => [WorkerFinishes(w, result)] + [Receive]
    case Disconnected => [WorkerDies(w)] + [NoticeDisconnect]
    case TimedOut => [GiveUp]
  }

  /** One schedule for the first n actions that shows these outcomes. */
  function ScheduleFor(plan: ActionPlan, n: nat, outcomes: seq<WorkerOutcome>): seq<Move>
    requires n <= |plan.actions| && |outcomes| == |RealActions(plan.dryRun, plan.actions[..n])|
  {
    if n == 0 then []
    else
      TakeOneMore(plan, n - 1);
      if IsDry(plan, n - 1) then ScheduleFor(plan, n - 1, outcomes) + [AnswerDry]
      else
        var w := |outcomes| - 1;
        ScheduleFor(plan, n - 1, outcomes[..w]) + [Spawn] + Settling(w, outcomes[w])
  }

  /** Idle again after n actions, the workers as their outcomes left them. */
  predicate HasServed(plan: ActionPlan, p: Progress, n: nat, outcomes: seq<WorkerOutcome>) {
    && p.machine.next == n && !p.machine.waiting && p.seen == outcomes
    && |p.machine.workers| == |outcomes|
    && forall w :: 0 <= w < |outcomes| ==> p.machine.workers[w].status == StatusFor(outcomes[w])
  }

  lemma {:induction false} ScheduleServes(plan: ActionPlan, n: nat, outcomes: seq<WorkerOutcome>)
    requires n <= |plan.actions| && |outcomes| == |RealActions(plan.dryRun, plan.actions[..n])|
    ensures Execution(plan, ScheduleFor(plan, n, outcomes)).Some?
    ensures HasServed(plan, Execution(plan, ScheduleFor(plan, n, outcomes)).value, n, outcomes)
  {
    hide Execution, RealActions;
    if n == 0 {
      NothingDone(plan, outcomes);
    } else {
      TakeOneMore(plan, n - 1);
      if IsDry(plan, n - 1) {
        ScheduleServes(plan, n - 1, outcomes);
        ExecutionMore(plan, ScheduleFor(plan, n - 1, outcomes), AnswerDry);
        assert outcomes + [] == outcomes;
      } else {
        var w := |outcomes| - 1;
        var before := ScheduleFor(plan, n - 1, outcomes[..w]);
        ScheduleServes(plan, n - 1, outcomes[..w]);
        ExecutionMore(plan, before, Spawn);
        WorkerSettles(plan, before + [Spawn], outcomes[..w], outcomes[w]);
        assert outcomes == outcomes[..w] + [outcomes[w]];
      }
    }
  }

  lemma NothingDone(plan: ActionPlan, outcomes: seq<WorkerOutcome>)
    requires |outcomes| == |RealActions(plan.dryRun, plan.actions[..0])|
    ensures outcomes == [] && Execution(plan, []) == Some(Progress(INITIAL, []))
  {
  }

  lemma WorkerSettles(plan: ActionPlan, schedule: seq<Move>, seen: seq<WorkerOutcome>, outcome: WorkerOutcome)
    requires Execution(plan, schedule).Some?
    requires
      var Progress(s, before) := Execution(plan, schedule).value;
      && before == seen && s.waiting && 0 < s.next <= |plan.actions| && |s.workers| == |seen| + 1
      && s.workers[|seen|].status.Running?
      && forall w :: 0 <= w < |seen| ==> s.workers[w].status == StatusFor(seen[w])
    ensures Execution(plan, schedule + Settling(|seen|, outcome)).Some?
    ensures HasServed(plan, Execution(plan, schedule + Settling(|seen|, outcome)).value,
                      Execution(plan, schedule).value.machine.next, seen + [outcome])
  {
    hide Execution;
    var moves := Settling(|seen|, outcome);
    ExecutionMore(plan, schedule, moves[0]);
    if |moves| == 2 {
      assert seen + [] == seen;
      ExecutionMore(plan, schedule + [moves[0]], moves[1]);
      assert schedule + [moves[0]] + [moves[1]] == schedule + moves;
    }
  }

  /** A batch leaves a worker running behind it only by giving up on it: no interleaving with
      these outcomes does, exactly when no outcome is a timeout. */
  lemma NoLateWorkerExactly(plan: ActionPlan, outcomes: seq<WorkerOutcome>)
    requires |outcomes| == |RealActions(plan.dryRun, plan.actions)|
    ensures (forall schedule :: EndsWith(plan, schedule, outcomes) ==>
               NoneRunning(Execution(plan, schedule).value.machine))
            <==> TimedOut !in outcomes
  {
    hide Execution, Terminal;
    if TimedOut !in outcomes {
      forall schedule | EndsWith(plan, schedule, outcomes)
        ensures NoneRunning(Execution(plan, schedule).value.machine)
      {
        EveryInterleavingFits(plan, schedule);
        DoneIsNotWaiting(plan, Execution(plan, schedule).value.machine);
      }
    } else {
      var w :| 0 <= w < |outcomes| && outcomes[w] == TimedOut;
      var schedule := AbandonedWorkerMayFinish(plan, outcomes, w);
      assert EndsWith(plan, schedule, outcomes);
    }
  }

  lemma DoneIsNotWaiting(plan: ActionPlan, s: Machine)
    requires Terminal(plan, s)
    ensures !s.waiting
  {
  }

  /** And a worker given up on may still carry out its action after the batch is over: any
      answer of the backend, a deletion included, can come in late. */
  lemma AbandonedWorkerMayFinish(plan: ActionPlan, outcomes: seq<WorkerOutcome>, w: nat) returns (schedule: seq<Move>)
    requires |outcomes| == |RealActions(plan.dryRun, plan.actions)|
    requires w < |outcomes| && outcomes[w] == TimedOut
    ensures EndsWith(plan, schedule, outcomes)
    ensures
      var s := Execution(plan, schedule).value.machine;
      && w < |s.workers| && s.workers[w] == Worker(RealActions(plan.dryRun, plan.actions)[w], Running)
      && forall result :: Advance(plan, s, WorkerFinishes(w, result)).Some?
  {
    hide Execution;
    var n := |plan.actions|;
    assert plan.actions[..n] == plan.actions;
    schedule := ScheduleFor(plan, n, outcomes);
    ScheduleServes(plan, n, outcomes);
    InterleavingRefinesBatch(plan, schedule);
    var s := Execution(plan, schedule).value.machine;
    assert Served(s.workers)[w] == s.workers[w].action;
  }
}
