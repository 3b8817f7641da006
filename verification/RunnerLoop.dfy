/**
  The Runner's progression loop: one turn delivers messages, scans the waiting steps in
  order, keeps at most one submission and one timer, and decides whether to go on.
 */
module RunnerLoop {
  import opened Outcomes
  import opened Triggers

  datatype Step = Step(id: string, dependencies: seq<string>, delay: real, dueAt: Option<Instant>,
                       sources: seq<string>)

  function StepIds(steps: seq<Step>): set<string> {
    set step | step in steps :: step.id
  }

  // ------------------------------------------------ accepted workflows

  ghost predicate Ordered(steps: seq<Step>) {
    && (forall i, j | 0 <= i < j < |steps| :: steps[i].id != steps[j].id)
    && (forall i | 0 <= i < |steps| :: WellPlaced(steps[i], StepIds(steps[..i])))
  }

  predicate WellPlaced(step: Step, visited: set<string>) {
    && step.id != ""
    && (forall d | d in step.dependencies :: d in visited)
    && (forall s | s in step.sources :: s in step.dependencies)
    && step.delay >= 0.0
  }

  /** Steps are accepted exactly when identifiers are unique and every dependency is an earlier step. */
  method AcceptSteps(steps: seq<Step>) returns (accepted: bool)
    ensures accepted <==> Ordered(steps)
    ensures accepted <==>
              && (forall i, j | 0 <= i < j < |steps| :: steps[i].id != steps[j].id)
              && (forall i | 0 <= i < |steps| ::
                    && |steps[i].id| >= 1 && steps[i].delay >= 0.0
                    && (forall d | d in steps[i].dependencies :: exists j :: 0 <= j < i && steps[j].id == d)
                    && (forall s | s in steps[i].sources :: s in steps[i].dependencies))
  {
    OrderedMeans(steps);
    if exists i, j | 0 <= i < j < |steps| :: steps[i].id == steps[j].id {
      return false;
    }
    var visited: set<string> := {};
    for i := 0 to |steps|
      invariant visited == StepIds(steps[..i])
      invariant forall j | 0 <= j < i :: WellPlaced(steps[j], StepIds(steps[..j]))
    {
      if !WellPlaced(steps[i], visited) {
        return false;
      }
      StepIdsNext(steps, i);
      visited := visited + {steps[i].id};
    }
    return true;
  }

  lemma OrderedMeans(steps: seq<Step>)
    ensures Ordered(steps) <==>
              && (forall i, j | 0 <= i < j < |steps| :: steps[i].id != steps[j].id)
              && (forall i | 0 <= i < |steps| ::
                    && |steps[i].id| >= 1 && steps[i].delay >= 0.0
                    && (forall d | d in steps[i].dependencies :: exists j :: 0 <= j < i && steps[j].id == d)
                    && (forall s | s in steps[i].sources :: s in steps[i].dependencies))
  {
    forall i, d | 0 <= i < |steps|
      ensures d in StepIds(steps[..i]) <==> exists j :: 0 <= j < i && steps[j].id == d
    {
      if j :| 0 <= j < i && steps[j].id == d {
        assert steps[..i][j] in steps[..i];
      }
      if d in StepIds(steps[..i]) {
        var j :| 0 <= j < i && steps[..i][j].id == d;
        assert steps[j].id == d;
      }
    }
  }

  lemma StepIdsNext(steps: seq<Step>, i: nat)
    requires i < |steps|
    ensures StepIds(steps[..i + 1]) == StepIds(steps[..i]) + {steps[i].id}
  {
    assert steps[..i + 1] == steps[..i] + [steps[i]];
  }

  // ------------------------------------------------ readiness of one step

  function StepEligibility(step: Step, createdAt: Instant, now: Instant, results: map<string, Completion>)
    : Eligibility
  {
    if step.dependencies == [] then
      DateTrigger(Later(createdAt + step.delay, if step.dueAt.Some? then step.dueAt.value else createdAt), now)
    else
      var dependency := DependencyTrigger(step.dependencies, createdAt, step.delay, now, results);
      if dependency.blocked || dependency.dueAt.None? then dependency
      else
        var due := dependency.dueAt.value;
        DateTrigger(Later(due, if step.dueAt.Some? then step.dueAt.value else due), now)
  }

  // ------------------------------------------------ state

  datatype Config = Config(createdAt: Instant, window: Option<nat>, cooldown: Option<real>) {
    /** A cooldown makes the Runner serial. */
    predicate Valid() {
      && (window.Some? ==> window.value >= 1)
      && (cooldown.Some? ==> cooldown.value >= 0.0 && window == Some(1))
    }
  }

  datatype Message =
    | Completed(step: string, succeeded: bool, at: Instant)
    | CancelledNote(step: string)
    | TimerDue

  /** `submissions` records every call to the Scheduler, in order. */
  datatype State = State(
    pending: seq<Step>, outstanding: set<string>, results: map<string, Completion>, cancelled: map<string, seq<string>>,
    submission: Option<string>, timer: Option<Instant>, nextWorkerAt: Option<Instant>, submissions: seq<string>)

  function Initial(steps: seq<Step>): State {
    State(steps, {}, map[], map[], None, None, None, [])
  }

  /**
    What one turn observes: delivered messages, whether the submission and the timer finished,
    wall time, the steps whose deadline check failed, and whether the deadline passed at the end.
   */
  datatype Turn = Turn(messages: seq<Message>, submitted: bool, fired: bool, now: Instant, late: set<string>,
                       expired: bool)

  datatype Verdict = Continue | Finished | TimedOut | Unresolved | Refused

  function WithoutStep(steps: seq<Step>, id: string): seq<Step> {
    if steps == [] then []
    else if steps[0].id == id then WithoutStep(steps[1..], id)
    else [steps[0]] + WithoutStep(steps[1..], id)
  }

  // ------------------------------------------------ delivery

  function Deliver(known: set<string>, config: Config, state: State, message: Message): Outcome<State> {
    match message
    case Completed(step, succeeded, at) =>
      if step !in known then Rejected
      else if step in state.results then Accepted(state.(outstanding := state.outstanding - {step}))
      else
        Accepted(state.(
          nextWorkerAt := if config.cooldown.Some? then Some(at + config.cooldown.value) else state.nextWorkerAt,
          results := state.results[step := Completion(succeeded, at)],
          outstanding := state.outstanding - {step}))
    case CancelledNote(step) =>
      if step !in known then Rejected
      else
        Accepted(state.(cancelled := if step in state.cancelled then state.cancelled else state.cancelled[step := []],
                        pending := WithoutStep(state.pending, step)))
    case TimerDue => Accepted(state)
  }

  function DeliverAll(known: set<string>, config: Config, state: State, messages: seq<Message>): Outcome<State>
    decreases |messages|
  {
    if messages == [] then Accepted(state)
    else
      var next :- Deliver(known, config, state, messages[0]);
      DeliverAll(known, config, next, messages[1..])
  }

  // ------------------------------------------------ scan

  predicate Failed(state: State, id: string) {
    id in state.cancelled || (id in state.results && !state.results[id].succeeded)
  }

  function FailedAmong(state: State, ids: seq<string>): seq<string> {
    if ids == [] then []
    else (if Failed(state, ids[0]) then [ids[0]] else []) + FailedAmong(state, ids[1..])
  }

  datatype Scanned = Scanned(state: State, nextDue: Option<Instant>)

  function Earliest(a: Option<Instant>, b: Instant): Option<Instant> {
    if a.Some? && a.value < b then a else Some(b)
  }

  /** In a serial Runner the scan stops while work is outstanding or the cooldown lasts. */
  function Held(config: Config, state: State, now: Instant): bool {
    config.cooldown.Some?
    && (state.outstanding != {} || state.submission.Some?
        || (state.nextWorkerAt.Some? && now < state.nextWorkerAt.value))
  }

  predicate CanSubmit(config: Config, state: State) {
    state.submission.None? && (config.window.None? || |state.outstanding| < config.window.value)
  }

  function Cancel(state: State, step: Step, failed: seq<string>): State {
    state.(cancelled := state.cancelled[step.id := failed], pending := WithoutStep(state.pending, step.id))
  }

  function Submit(state: State, step: Step): State {
    state.(outstanding := state.outstanding + {step.id}, submission := Some(step.id),
           submissions := state.submissions + [step.id], pending := WithoutStep(state.pending, step.id))
  }

  /** The visit of one waiting step. */
  function Visit(config: Config, scanned: Scanned, step: Step, turn: Turn): Scanned {
    var state := scanned.state;
    var failed := FailedAmong(state, step.dependencies);
    if failed != [] then scanned.(state := Cancel(state, step, failed))
    else if exists d | d in step.dependencies :: d !in state.results then scanned
    else
      var eligibility := StepEligibility(step, config.createdAt, turn.now, state.results);
      if eligibility.blocked then scanned.(state := Cancel(state, step, []))
      else if eligibility.ready then
        if CanSubmit(config, state) && step.id !in turn.late then scanned.(state := Submit(state, step)) else scanned
      else if eligibility.dueAt.Some? then scanned.(nextDue := Earliest(scanned.nextDue, eligibility.dueAt.value))
      else scanned
  }

  function Scan(config: Config, scanned: Scanned, rest: seq<Step>, turn: Turn): Scanned
    decreases |rest|
  {
    if rest == [] then scanned
    else if Held(config, scanned.state, turn.now) then
      var state := scanned.state;
      if state.outstanding != {} || state.submission.Some? then scanned
      else scanned.(nextDue := state.nextWorkerAt)
    else Scan(config, Visit(config, scanned, rest[0], turn), rest[1..], turn)
  }

  // ------------------------------------------------ one turn, whole runs

  function Settle(state: State, turn: Turn): State {
    state.(submission := if turn.submitted then None else state.submission,
           timer := if turn.fired then None else state.timer)
  }

  /** One timer at most, never later than the next due instant. */
  function Rearm(scanned: Scanned): State {
    scanned.state.(timer :=
      if scanned.nextDue.None? then None
      else if scanned.state.timer.None? || scanned.nextDue.value < scanned.state.timer.value then scanned.nextDue
      else scanned.state.timer)
  }

  function Judge(state: State, turn: Turn): Verdict {
    if state.pending == [] && state.outstanding == {} && state.submission.None? then Finished
    else if turn.expired then TimedOut
    else if state.pending != [] && state.outstanding == {} && state.submission.None?
         && state.timer.None? then Unresolved
    else Continue
  }

  function Progress(config: Config, state: State, turn: Turn): State {
    var settled := Settle(state, turn);
    Rearm(Scan(config, Scanned(settled, None), settled.pending, turn))
  }

  datatype Run = Run(state: State, verdict: Verdict)

  function TakeTurn(known: set<string>, config: Config, state: State, turn: Turn): Run {
    var delivered := DeliverAll(known, config, state, turn.messages);
    if delivered.Rejected? then Run(state, Refused)
    else
      var next := Progress(config, delivered.value, turn);
      Run(next, Judge(next, turn))
  }

  /** The run so far; turns after an exit have no effect. */
  function Runs(steps: seq<Step>, config: Config, turns: seq<Turn>): Run {
    if turns == [] then Run(Initial(steps), if steps == [] then Finished else Continue)
    else
      var before := Runs(steps, config, turns[..|turns| - 1]);
      if before.verdict != Continue then before
      else TakeTurn(StepIds(steps), config, before.state, turns[|turns| - 1])
  }
}
