/** What every turn of the Runner loop keeps, and what follows for whole runs. */
module RunnerAccounting {
  import opened Collections
  import opened Outcomes
  import opened RunnerLoop

  /** The steps not accounted for elsewhere, in their original order. */
  function Waiting(steps: seq<Step>, done: set<string>): (waiting: seq<Step>)
    ensures forall step :: step in waiting <==> step in steps && step.id !in done
  {
    if steps == [] then []
    else if steps[0].id in done then Waiting(steps[1..], done)
    else [steps[0]] + Waiting(steps[1..], done)
  }

  function Accounted(state: State): set<string> {
    state.outstanding + state.results.Keys + state.cancelled.Keys
  }

  function Listed(ids: seq<string>): set<string> {
    set id | id in ids
  }

  ghost predicate Succeeded(state: State, id: string) {
    id in state.results && state.results[id].succeeded
  }

  /** Pending, outstanding, completed and cancelled steps split the workflow. */
  ghost predicate Split(steps: seq<Step>, state: State) {
    && Accounted(state) <= StepIds(steps)
    && state.outstanding !! state.results.Keys
    && state.outstanding !! state.cancelled.Keys
    && state.results.Keys !! state.cancelled.Keys
    && state.pending == Waiting(steps, Accounted(state))
  }

  /** Every submission was new and came after all its dependencies had succeeded. */
  ghost predicate SubmittedOnce(steps: seq<Step>, state: State) {
    && Distinct(state.submissions)
    && Listed(state.submissions) == state.outstanding + state.results.Keys
    && forall step | step in steps && step.id in state.submissions ::
         forall d | d in step.dependencies :: Succeeded(state, d)
  }

  /** Only steps with a failed or cancelled dependency are cancelled. */
  ghost predicate CancelledForCause(steps: seq<Step>, state: State) {
    forall step | step in steps && step.id in state.cancelled ::
      exists d :: d in step.dependencies && Failed(state, d)
  }

  ghost predicate Inv(steps: seq<Step>, config: Config, state: State) {
    && Split(steps, state)
    && SubmittedOnce(steps, state)
    && CancelledForCause(steps, state)
    && (config.window.Some? ==> |state.outstanding| <= config.window.value)
  }

  /** Completions arrive only for submitted steps; cancellations are the Runner's own. */
  predicate Honest(state: State, message: Message) {
    match message
    case Completed(step, _, _) => step in state.submissions
    case CancelledNote(step) => step in state.cancelled
    case TimerDue => true
  }

  ghost predicate HonestTurn(state: State, turn: Turn) {
    && (forall message | message in turn.messages :: Honest(state, message))
    && (turn.late != {} ==> turn.expired)
  }

  // ------------------------------------------------ filtering

  lemma {:induction false} WithoutIsWaiting(steps: seq<Step>, done: set<string>, id: string)
    ensures WithoutStep(Waiting(steps, done), id) == Waiting(steps, done + {id})
  {
    if steps != [] {
      WithoutIsWaiting(steps[1..], done, id);
      if steps[0].id !in done {
        assert Waiting(steps, done)[1..] == Waiting(steps[1..], done);
      }
    }
  }

  lemma {:induction false} FailedAmongFinds(state: State, ids: seq<string>)
    ensures FailedAmong(state, ids) != [] <==> exists d :: d in ids && Failed(state, d)
    ensures forall d :: d in FailedAmong(state, ids) <==> d in ids && Failed(state, d)
  {
    if ids != [] {
      FailedAmongFinds(state, ids[1..]);
      assert forall d :: d in ids <==> d == ids[0] || d in ids[1..];
    }
  }

  lemma StepsById(steps: seq<Step>, a: Step, b: Step)
    requires Ordered(steps) && a in steps && b in steps && a.id == b.id
    ensures a == b
  {
  }

  // ------------------------------------------------ delivery

  lemma CompletedKeeps(steps: seq<Step>, config: Config, state: State, message: Message)
    requires Inv(steps, config, state) && message.Completed? && Honest(state, message)
    ensures var next := Deliver(StepIds(steps), config, state, message);
      && next.Accepted? && Inv(steps, config, next.value)
      && next.value.submissions == state.submissions && next.value.cancelled == state.cancelled
  {
    hide SubmittedOnce, CancelledForCause, Waiting;
    CompletedSplits(steps, config, state, message);
    assert message.step in StepIds(steps);
    CompletedSubmitted(steps, config, state, message);
    SubsetSize(state.outstanding - {message.step}, state.outstanding);
  }

  lemma CompletedSplits(steps: seq<Step>, config: Config, state: State, message: Message)
    requires Split(steps, state) && SubmittedOnce(steps, state) && message.Completed? && Honest(state, message)
    ensures var next := Deliver(StepIds(steps), config, state, message);
      next.Accepted? && Split(steps, next.value)
  {
    hide Waiting;
    assert message.step in Listed(state.submissions);
    var next := Deliver(StepIds(steps), config, state, message).value;
    assert Accounted(next) == Accounted(state);
  }

  lemma CompletedSubmitted(steps: seq<Step>, config: Config, state: State, message: Message)
    requires SubmittedOnce(steps, state) && CancelledForCause(steps, state)
    requires message.Completed? && message.step in state.submissions && message.step in StepIds(steps)
    ensures var next := Deliver(StepIds(steps), config, state, message);
      next.Accepted? && SubmittedOnce(steps, next.value) && CancelledForCause(steps, next.value)
  {
    hide Distinct;
    var next := Deliver(StepIds(steps), config, state, message).value;
    assert message.step in Listed(state.submissions);
    assert next.outstanding + next.results.Keys == state.outstanding + state.results.Keys;
    assert forall d | Succeeded(state, d) :: Succeeded(next, d);
    assert forall d | Failed(state, d) :: Failed(next, d);
  }

  lemma DeliverKeeps(steps: seq<Step>, config: Config, state: State, message: Message)
    requires Inv(steps, config, state) && Honest(state, message)
    ensures var next := Deliver(StepIds(steps), config, state, message);
      && next.Accepted? && Inv(steps, config, next.value)
      && next.value.submissions == state.submissions && next.value.cancelled == state.cancelled
  {
    hide Waiting, SubmittedOnce, CancelledForCause;
    match message
    case Completed(_, _, _) => CompletedKeeps(steps, config, state, message);
    case CancelledNote(step) =>
      WithoutIsWaiting(steps, Accounted(state), step);
      assert Accounted(state) + {step} == Accounted(state);
      assert Deliver(StepIds(steps), config, state, message) == Accepted(state);
    case TimerDue =>
  }

  lemma {:induction false} DeliverAllKeeps(steps: seq<Step>, config: Config, state: State, messages: seq<Message>)
    requires Inv(steps, config, state) && forall message | message in messages :: Honest(state, message)
    ensures var next := DeliverAll(StepIds(steps), config, state, messages);
      next.Accepted? && Inv(steps, config, next.value)
    decreases |messages|
  {
    if messages != [] {
      DeliverKeeps(steps, config, state, messages[0]);
      var next := Deliver(StepIds(steps), config, state, messages[0]).value;
      forall message | message in messages[1..] ensures Honest(next, message) {
        assert message in messages;
      }
      DeliverAllKeeps(steps, config, next, messages[1..]);
    }
  }

  // ------------------------------------------------ scanning

  lemma CancelKeeps(steps: seq<Step>, config: Config, state: State, step: Step, failed: seq<string>)
    requires Ordered(steps) && Inv(steps, config, state) && step in state.pending
    requires exists d :: d in step.dependencies && Failed(state, d)
    ensures Inv(steps, config, Cancel(state, step, failed))
  {
    hide Split, SubmittedOnce, CancelledForCause, Ordered;
    WaitsUnaccounted(steps, state, step);
    CancelSplits(steps, state, step, failed);
    CancelCause(steps, state, step, failed);
    CancelSubmitsNothing(steps, state, step, failed);
  }

  lemma WaitsUnaccounted(steps: seq<Step>, state: State, step: Step)
    requires Split(steps, state) && step in state.pending
    ensures step in steps && step.id !in Accounted(state)
  {
  }

  lemma CancelSplits(steps: seq<Step>, state: State, step: Step, failed: seq<string>)
    requires Split(steps, state) && step in state.pending
    ensures Split(steps, Cancel(state, step, failed))
  {
    hide Waiting;
    WithoutIsWaiting(steps, Accounted(state), step.id);
    assert Accounted(Cancel(state, step, failed)) == Accounted(state) + {step.id};
  }

  lemma CancelSubmitsNothing(steps: seq<Step>, state: State, step: Step, failed: seq<string>)
    requires SubmittedOnce(steps, state)
    ensures SubmittedOnce(steps, Cancel(state, step, failed))
  {
    assert forall d :: Succeeded(Cancel(state, step, failed), d) <==> Succeeded(state, d);
  }

  lemma CancelCause(steps: seq<Step>, state: State, step: Step, failed: seq<string>)
    requires Ordered(steps) && CancelledForCause(steps, state) && step in steps
    requires exists d :: d in step.dependencies && Failed(state, d)
    ensures CancelledForCause(steps, Cancel(state, step, failed))
  {
    var next := Cancel(state, step, failed);
    assert forall d | Failed(state, d) :: Failed(next, d);
    forall other | other in steps && other.id in next.cancelled
      ensures exists d :: d in other.dependencies && Failed(next, d)
    {
      if other.id == step.id {
        StepsById(steps, other, step);
      }
    }
  }

  lemma SubmitKeeps(steps: seq<Step>, config: Config, state: State, step: Step)
    requires Ordered(steps) && Inv(steps, config, state) && step in state.pending
    requires (forall d | d in step.dependencies :: Succeeded(state, d)) && CanSubmit(config, state)
    ensures Inv(steps, config, Submit(state, step))
  {
    hide SubmittedOnce, CancelledForCause;
    SubmitSplits(steps, state, step);
    SubmitOnce(steps, state, step);
    SubmitCause(steps, state, step);
  }

  lemma SubmitSplits(steps: seq<Step>, state: State, step: Step)
    requires Split(steps, state) && step in state.pending
    ensures Split(steps, Submit(state, step))
  {
    hide Waiting;
    WithoutIsWaiting(steps, Accounted(state), step.id);
    assert Accounted(Submit(state, step)) == Accounted(state) + {step.id};
  }

  lemma SubmitCause(steps: seq<Step>, state: State, step: Step)
    requires CancelledForCause(steps, state)
    ensures CancelledForCause(steps, Submit(state, step))
  {
    assert forall d | Failed(state, d) :: Failed(Submit(state, step), d);
  }

  lemma SubmitOnce(steps: seq<Step>, state: State, step: Step)
    requires Ordered(steps) && SubmittedOnce(steps, state) && step in steps
    requires step.id !in state.outstanding && step.id !in state.results
    requires forall d | d in step.dependencies :: Succeeded(state, d)
    ensures SubmittedOnce(steps, Submit(state, step))
  {
    var next := Submit(state, step);
    assert step.id !in Listed(state.submissions);
    assert Listed(next.submissions) == Listed(state.submissions) + {step.id};
    forall other | other in steps && other.id in next.submissions
      ensures forall d | d in other.dependencies :: Succeeded(next, d)
    {
      if other.id == step.id {
        StepsById(steps, other, step);
      }
    }
  }

  lemma VisitKeeps(steps: seq<Step>, config: Config, scanned: Scanned, step: Step, turn: Turn)
    requires Ordered(steps) && Inv(steps, config, scanned.state) && step in scanned.state.pending
    ensures Inv(steps, config, Visit(config, scanned, step, turn).state)
  {
    hide Inv, Ordered, StepEligibility, FailedAmong;
    var state := scanned.state;
    var failed := FailedAmong(state, step.dependencies);
    FailedAmongFinds(state, step.dependencies);
    if failed != [] {
      CancelKeeps(steps, config, state, step, failed);
    } else if forall d | d in step.dependencies :: d in state.results {
      assert forall d | d in step.dependencies :: !Failed(state, d) && Succeeded(state, d);
      NeverBlocked(config, state, step, turn);
      if CanSubmit(config, state) {
        SubmitKeeps(steps, config, state, step);
      }
    }
  }

  /** With all dependencies succeeded, readiness is a matter of time only. */
  lemma NeverBlocked(config: Config, state: State, step: Step, turn: Turn)
    requires forall d | d in step.dependencies :: Succeeded(state, d)
    ensures var eligibility := StepEligibility(step, config.createdAt, turn.now, state.results);
      !eligibility.blocked && eligibility.dueAt.Some?
  {
  }

  /** A scan visits a suffix of the waiting steps; what it has not visited stays waiting. */
  ghost predicate Scannable(scanned: Scanned, rest: seq<Step>) {
    forall step | step in rest :: step in scanned.state.pending
  }

  lemma {:induction false} WithoutKeeps(steps: seq<Step>, id: string)
    ensures forall step :: step in WithoutStep(steps, id) <==> step in steps && step.id != id
  {
    if steps != [] {
      WithoutKeeps(steps[1..], id);
      assert forall step :: step in steps <==> step == steps[0] || step in steps[1..];
    }
  }

  ghost predicate UniqueSteps(steps: seq<Step>) {
    forall i, j | 0 <= i < j < |steps| :: steps[i].id != steps[j].id
  }

  lemma VisitLeavesRest(config: Config, scanned: Scanned, rest: seq<Step>, turn: Turn)
    requires rest != [] && UniqueSteps(rest) && Scannable(scanned, rest)
    ensures Scannable(Visit(config, scanned, rest[0], turn), rest[1..])
  {
    WithoutKeeps(scanned.state.pending, rest[0].id);
  }

  lemma {:induction false} ScanKeeps(steps: seq<Step>, config: Config, scanned: Scanned, rest: seq<Step>, turn: Turn)
    requires Ordered(steps) && Inv(steps, config, scanned.state) && UniqueSteps(rest) && Scannable(scanned, rest)
    ensures Inv(steps, config, Scan(config, scanned, rest, turn).state)
    decreases |rest|
  {
    hide Inv, Ordered, Visit, Held;
    if rest != [] && !Held(config, scanned.state, turn.now) {
      VisitKeeps(steps, config, scanned, rest[0], turn);
      VisitLeavesRest(config, scanned, rest, turn);
      ScanKeeps(steps, config, Visit(config, scanned, rest[0], turn), rest[1..], turn);
    }
  }

  lemma {:induction false} WaitingUnique(steps: seq<Step>, done: set<string>)
    requires UniqueSteps(steps)
    ensures UniqueSteps(Waiting(steps, done))
  {
    if steps != [] {
      WaitingUnique(steps[1..], done);
      assert forall step | step in Waiting(steps[1..], done) :: step in steps[1..];
    }
  }

  lemma OrderedUnique(steps: seq<Step>)
    requires Ordered(steps)
    ensures UniqueSteps(steps)
  {
  }

  lemma PendingUnique(steps: seq<Step>, config: Config, state: State)
    requires Ordered(steps) && Inv(steps, config, state)
    ensures UniqueSteps(state.pending)
  {
    OrderedUnique(steps);
    WaitingUnique(steps, Accounted(state));
  }

  lemma SettleKeeps(steps: seq<Step>, config: Config, state: State, turn: Turn)
    requires Inv(steps, config, state)
    ensures Inv(steps, config, Settle(state, turn))
  {
  }

  lemma RearmKeeps(steps: seq<Step>, config: Config, scanned: Scanned)
    requires Inv(steps, config, scanned.state)
    ensures Inv(steps, config, Rearm(scanned))
  {
  }

  lemma ProgressKeeps(steps: seq<Step>, config: Config, state: State, turn: Turn)
    requires Ordered(steps) && Inv(steps, config, state)
    ensures Inv(steps, config, Progress(config, state, turn))
  {
    hide Inv, Ordered, Scan, Settle, Rearm;
    var settled := Settle(state, turn);
    SettleKeeps(steps, config, state, turn);
    PendingUnique(steps, config, settled);
    var scanned := Scan(config, Scanned(settled, None), settled.pending, turn);
    ScanKeeps(steps, config, Scanned(settled, None), settled.pending, turn);
    RearmKeeps(steps, config, scanned);
  }

  // ------------------------------------------------ never stuck

  lemma VisitMonotone(config: Config, scanned: Scanned, step: Step, turn: Turn)
    ensures var next := Visit(config, scanned, step, turn);
      && scanned.state.outstanding <= next.state.outstanding
      && (scanned.state.submission.Some? ==> next.state.submission.Some?)
      && (scanned.nextDue.Some? ==> next.nextDue.Some?)
      && next.state.nextWorkerAt == scanned.state.nextWorkerAt && next.state.timer == scanned.state.timer
      && next.state.results == scanned.state.results
  {
  }

  lemma {:induction false} ScanMonotone(config: Config, scanned: Scanned, rest: seq<Step>, turn: Turn)
    ensures var next := Scan(config, scanned, rest, turn);
      && scanned.state.outstanding <= next.state.outstanding
      && (scanned.state.submission.Some? ==> next.state.submission.Some?)
      && (scanned.nextDue.Some? ==> next.nextDue.Some?)
      && next.state.timer == scanned.state.timer && next.state.results == scanned.state.results
    decreases |rest|
  {
    hide Visit;
    if rest != [] && !Held(config, scanned.state, turn.now) {
      VisitMonotone(config, scanned, rest[0], turn);
      ScanMonotone(config, Visit(config, scanned, rest[0], turn), rest[1..], turn);
    }
  }

  /** With nothing outstanding, the first waiting step leaves the queue, becomes due later, or is late. */
  lemma FirstVisitProgresses(steps: seq<Step>, config: Config, scanned: Scanned, turn: Turn)
    requires Ordered(steps) && config.Valid() && Inv(steps, config, scanned.state)
    requires scanned.state.pending != [] && scanned.state.outstanding == {} && scanned.state.submission.None?
    ensures var step, next := scanned.state.pending[0], Visit(config, scanned, scanned.state.pending[0], turn);
      || next.state.submission.Some? || next.nextDue.Some? || step.id in turn.late
      || (next.state.pending == scanned.state.pending[1..] && next.state.outstanding == {}
          && next.state.submission.None?)
  {
    hide SubmittedOnce, CancelledForCause, Waiting, Ordered, StepEligibility, FailedAmong, WithoutStep;
    var state := scanned.state;
    var step := state.pending[0];
    FirstHasNoWaitingDependency(steps, state);
    FailedAmongFinds(state, step.dependencies);
    if FailedAmong(state, step.dependencies) != [] {
      PendingUnique(steps, config, state);
      WithoutFirst(state.pending);
    } else {
      assert forall d | d in step.dependencies :: d in state.results && Succeeded(state, d);
      NeverBlocked(config, state, step, turn);
    }
  }

  lemma WithoutFirst(steps: seq<Step>)
    requires steps != [] && UniqueSteps(steps)
    ensures WithoutStep(steps, steps[0].id) == steps[1..]
  {
    WithoutAbsent(steps[1..], steps[0].id);
  }

  lemma {:induction false} WithoutAbsent(steps: seq<Step>, id: string)
    requires forall step | step in steps :: step.id != id
    ensures WithoutStep(steps, id) == steps
  {
    if steps != [] {
      assert steps[0] in steps && forall step | step in steps[1..] :: step in steps;
      WithoutAbsent(steps[1..], id);
      assert [steps[0]] + steps[1..] == steps;
    }
  }

  /** The dependencies of the first waiting step are all accounted for. */
  lemma FirstHasNoWaitingDependency(steps: seq<Step>, state: State)
    requires Ordered(steps) && Split(steps, state) && state.pending != []
    ensures forall d | d in state.pending[0].dependencies :: d in Accounted(state)
  {
    var i := FirstWaiting(steps, Accounted(state));
    assert WellPlaced(steps[i], StepIds(steps[..i]));
    forall d | d in steps[i].dependencies ensures d in Accounted(state) {
      var j :| 0 <= j < i && steps[..i][j].id == d;
      assert steps[j].id == d;
    }
  }

  lemma {:induction false} FirstWaiting(steps: seq<Step>, done: set<string>) returns (i: nat)
    requires Waiting(steps, done) != []
    ensures i < |steps| && steps[i] == Waiting(steps, done)[0]
    ensures forall j | 0 <= j < i :: steps[j].id in done
  {
    if steps[0].id in done {
      i := FirstWaiting(steps[1..], done);
      i := i + 1;
    } else {
      i := 0;
    }
  }

  lemma {:induction false} ScanProgresses(steps: seq<Step>, config: Config, scanned: Scanned, turn: Turn)
    requires Ordered(steps) && config.Valid() && Inv(steps, config, scanned.state)
    requires scanned.state.outstanding == {} && scanned.state.submission.None? && turn.late == {}
    ensures var next := Scan(config, scanned, scanned.state.pending, turn);
      next.state.pending == [] || next.state.submission.Some? || next.nextDue.Some?
    decreases |scanned.state.pending|
  {
    hide Inv, Ordered, Visit;
    var rest := scanned.state.pending;
    if rest != [] && !Held(config, scanned.state, turn.now) {
      var visited := Visit(config, scanned, rest[0], turn);
      FirstVisitProgresses(steps, config, scanned, turn);
      VisitKeeps(steps, config, scanned, rest[0], turn);
      ScanMonotone(config, visited, rest[1..], turn);
      if visited.state.submission.None? && visited.nextDue.None? {
        ScanProgresses(steps, config, visited, turn);
      }
    }
  }

  /** No reachable turn ends without an event source: the loop's "cannot happen" error cannot happen. */
  lemma NeverUnresolved(steps: seq<Step>, config: Config, state: State, turn: Turn)
    requires Ordered(steps) && config.Valid() && Inv(steps, config, state)
    requires turn.late != {} ==> turn.expired
    ensures Judge(Progress(config, state, turn), turn) != Unresolved
  {
    hide Inv, Ordered, Scan;
    var settled := Settle(state, turn);
    SettleKeeps(steps, config, state, turn);
    ScanMonotone(config, Scanned(settled, None), settled.pending, turn);
    if settled.outstanding == {} && settled.submission.None? && turn.late == {} {
      ScanProgresses(steps, config, Scanned(settled, None), turn);
    }
  }
}
