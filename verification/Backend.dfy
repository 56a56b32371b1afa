/** The backend contract of src/backend.rs as an adversary: every answer is an arbitrary
    function of everything asked and answered so far, and each exchange is recorded. So is
    the daemon's sleep between ticks, to give it a place among the calls. */
module Backend {
  import opened Wrappers
  import opened Domain

  /** What the executor's wait on a worker thread ends with. */
  datatype WorkerOutcome =
    | Returned(result: Result<ExecutionResponse, CleanupError>)
    | TimedOut
    | Disconnected

  datatype Event =
    | HealthChecked(health: Result<bool, CleanupError>)
    | UsageCollected(usage: Result<UsageSnapshot, CleanupError>)
    | Discovered(given: UsageSnapshot, found: Result<seq<CandidateArtifact>, CleanupError>)
    | Executed(action: PlannedAction, outcome: WorkerOutcome)
    | Slept(secs: u64)

  datatype Behaviour = Behaviour(
    health: seq<Event> -> Result<bool, CleanupError>,
    usage: seq<Event> -> Result<UsageSnapshot, CleanupError>,
    discover: (seq<Event>, UsageSnapshot) -> Result<seq<CandidateArtifact>, CleanupError>,
    execute: (seq<Event>, PlannedAction) -> WorkerOutcome)

  /** The behaviour gives this answer after these exchanges. */
  predicate Answers(b: Behaviour, before: seq<Event>, e: Event) {
    match e
    case HealthChecked(health) => health == b.health(before)
    case UsageCollected(usage) => usage == b.usage(before)
    case Discovered(given, found) => found == b.discover(before, given)
    case Executed(action, outcome) => outcome == b.execute(before, action)
    case Slept(_) => true
  }

  predicate Answered(b: Behaviour, t: seq<Event>) {
    if t == [] then true
    else Answered(b, t[..|t| - 1]) && Answers(b, t[..|t| - 1], t[|t| - 1])
  }

  lemma AnsweredMore(b: Behaviour, t: seq<Event>, e: Event)
    requires Answered(b, t) && Answers(b, t, e)
    ensures Answered(b, t + [e])
  {
    assert (t + [e])[..|t|] == t;
  }

  class BackendAdapter {
    const kind: BackendKind
    const behaviour: Behaviour
    var trace: seq<Event>

    /** Every recorded answer is the behaviour's own. */
    ghost predicate Faithful()
      reads this
    {
      Answered(behaviour, trace)
    }

    constructor (kind: BackendKind, behaviour: Behaviour)
      ensures this.kind == kind && this.behaviour == behaviour && trace == [] && Faithful()
    {
      this.kind, this.behaviour, trace := kind, behaviour, [];
    }

    method HealthCheck() returns (r: Result<bool, CleanupError>)
      requires Faithful()
      modifies this
      ensures Faithful() && trace == old(trace) + [HealthChecked(r)]
    {
      r := behaviour.health(trace);
      AnsweredMore(behaviour, trace, HealthChecked(r));
      trace := trace + [HealthChecked(r)];
    }

    method CollectUsage() returns (r: Result<UsageSnapshot, CleanupError>)
      requires Faithful()
      modifies this
      ensures Faithful() && trace == old(trace) + [UsageCollected(r)]
    {
      r := behaviour.usage(trace);
      AnsweredMore(behaviour, trace, UsageCollected(r));
      trace := trace + [UsageCollected(r)];
    }

    method DiscoverCandidates(given: UsageSnapshot) returns (r: Result<seq<CandidateArtifact>, CleanupError>)
      requires Faithful()
      modifies this
      ensures Faithful() && trace == old(trace) + [Discovered(given, r)]
    {
      r := behaviour.discover(trace, given);
      AnsweredMore(behaviour, trace, Discovered(given, r));
      trace := trace + [Discovered(given, r)];
    }

    /** One worker started for the action, and what came of waiting for it. */
    method Execute(action: PlannedAction) returns (r: WorkerOutcome)
      requires Faithful()
      modifies this
      ensures Faithful() && trace == old(trace) + [Executed(action, r)]
    {
      r := behaviour.execute(trace, action);
      AnsweredMore(behaviour, trace, Executed(action, r));
      trace := trace + [Executed(action, r)];
    }

    method Sleep(secs: u64)
      requires Faithful()
      modifies this
      ensures Faithful() && trace == old(trace) + [Slept(secs)]
    {
      AnsweredMore(behaviour, trace, Slept(secs));
      trace := trace + [Slept(secs)];
    }
  }
}
