/** Whole runs of the Runner loop: accounting, outcome, and delivery that may repeat messages. */
module RunnerRuns {
  import opened Collections
  import opened Outcomes
  import opened Triggers
  import opened RunnerLoop
  import opened RunnerAccounting

  /** Every turn taken is honest about submissions and the clock. */
  ghost predicate HonestRun(steps: seq<Step>, config: Config, turns: seq<Turn>) {
    forall k | 0 <= k < |turns| && Runs(steps, config, turns[..k]).verdict == Continue ::
      HonestTurn(Runs(steps, config, turns[..k]).state, turns[k])
  }

  lemma HonestPrefix(steps: seq<Step>, config: Config, turns: seq<Turn>)
    requires turns != [] && HonestRun(steps, config, turns)
    ensures HonestRun(steps, config, turns[..|turns| - 1])
    ensures Runs(steps, config, turns[..|turns| - 1]).verdict == Continue ==>
              HonestTurn(Runs(steps, config, turns[..|turns| - 1]).state, turns[|turns| - 1])
  {
    var before := turns[..|turns| - 1];
    forall k | 0 <= k < |before| && Runs(steps, config, before[..k]).verdict == Continue
      ensures HonestTurn(Runs(steps, config, before[..k]).state, before[k])
    {
      assert before[..k] == turns[..k] && before[k] == turns[k];
    }
  }

  lemma InitialHolds(steps: seq<Step>, config: Config)
    requires Ordered(steps)
    ensures Inv(steps, config, Initial(steps))
  {
    WaitingForAll(steps);
  }

  lemma {:induction false} WaitingForAll(steps: seq<Step>)
    ensures Waiting(steps, {}) == steps
  {
    if steps != [] {
      WaitingForAll(steps[1..]);
      assert [steps[0]] + steps[1..] == steps;
    }
  }

  /**
    After any number of turns every step is in exactly one place, the window holds, every
    submission was unique and followed its dependencies, and neither error exit was taken.
   */
  lemma {:induction false} RunAccounted(steps: seq<Step>, config: Config, turns: seq<Turn>)
    requires Ordered(steps) && config.Valid() && HonestRun(steps, config, turns)
    ensures var run := Runs(steps, config, turns);
      Inv(steps, config, run.state) && run.verdict != Unresolved && run.verdict != Refused
    decreases |turns|
  {
    hide Inv, Ordered, Progress, DeliverAll;
    if turns == [] {
      InitialHolds(steps, config);
    } else {
      var before := Runs(steps, config, turns[..|turns| - 1]);
      HonestPrefix(steps, config, turns);
      RunAccounted(steps, config, turns[..|turns| - 1]);
      if before.verdict == Continue {
        TurnAccounted(steps, config, before.state, turns[|turns| - 1]);
      }
    }
  }

  lemma TurnAccounted(steps: seq<Step>, config: Config, state: State, turn: Turn)
    requires Ordered(steps) && config.Valid() && Inv(steps, config, state) && HonestTurn(state, turn)
    ensures var run := TakeTurn(StepIds(steps), config, state, turn);
      Inv(steps, config, run.state) && run.verdict != Unresolved && run.verdict != Refused
  {
    hide Inv, Ordered, Progress, DeliverAll;
    DeliverAllKeeps(steps, config, state, turn.messages);
    var delivered := DeliverAll(StepIds(steps), config, state, turn.messages).value;
    ProgressKeeps(steps, config, delivered, turn);
    NeverUnresolved(steps, config, delivered, turn);
  }

  // ------------------------------------------------ outcome

  ghost predicate FailedResult(results: map<string, Completion>, id: string) {
    id in results && !results[id].succeeded
  }

  /** Some transitive dependency of the step at `i` completed with a failure. */
  ghost predicate Doomed(steps: seq<Step>, results: map<string, Completion>, i: nat)
    requires i < |steps|
    decreases i
  {
    exists j | 0 <= j < i && steps[j].id in steps[i].dependencies ::
      FailedResult(results, steps[j].id) || Doomed(steps, results, j)
  }

  /** No waiting step has a failed or cancelled dependency. */
  ghost predicate Swept(state: State) {
    forall step, d | step in state.pending && d in step.dependencies :: !Failed(state, d)
  }

  lemma CancelledByDependency(steps: seq<Step>, config: Config, state: State, step: Step)
    requires Ordered(steps) && Inv(steps, config, state) && Swept(state) && step in steps
    ensures step.id in state.cancelled <==> exists d :: d in step.dependencies && Failed(state, d)
  {
    hide Waiting, Distinct, Ordered;
    if d :| d in step.dependencies && Failed(state, d) {
      assert !Succeeded(state, d);
      assert step.id !in Listed(state.submissions);
      assert step !in state.pending;
    }
  }

  lemma {:induction false} CancelledExactlyDoomed(steps: seq<Step>, config: Config, state: State, i: nat)
    requires Ordered(steps) && Inv(steps, config, state) && Swept(state) && i < |steps|
    ensures steps[i].id in state.cancelled <==> Doomed(steps, state.results, i)
    decreases i
  {
    hide Inv, Swept, Ordered;
    CancelledByDependency(steps, config, state, steps[i]);
    EarlierDependencies(steps, i);
    forall j | 0 <= j < i
      ensures Failed(state, steps[j].id)
              <==> FailedResult(state.results, steps[j].id) || Doomed(steps, state.results, j)
    {
      CancelledExactlyDoomed(steps, config, state, j);
    }
  }

  lemma EarlierDependencies(steps: seq<Step>, i: nat)
    requires Ordered(steps) && i < |steps|
    ensures forall d | d in steps[i].dependencies :: exists j :: 0 <= j < i && steps[j].id == d
  {
    assert WellPlaced(steps[i], StepIds(steps[..i]));
    forall d | d in steps[i].dependencies ensures exists j :: 0 <= j < i && steps[j].id == d {
      var j :| 0 <= j < i && steps[..i][j].id == d;
      assert steps[j].id == d;
    }
  }

  /** A finished run has results for every step, except that steps with a failed ancestor are cancelled instead. */
  lemma FinishedOutcome(steps: seq<Step>, config: Config, turns: seq<Turn>, i: nat)
    requires Ordered(steps) && config.Valid() && HonestRun(steps, config, turns)
    requires Runs(steps, config, turns).verdict == Finished && i < |steps|
    ensures var state := Runs(steps, config, turns).state;
      && (steps[i].id in state.cancelled <==> Doomed(steps, state.results, i))
      && (steps[i].id in state.results <==> !Doomed(steps, state.results, i))
  {
    hide Ordered, SubmittedOnce, CancelledForCause, Waiting, Progress, DeliverAll;
    RunAccounted(steps, config, turns);
    var state := Runs(steps, config, turns).state;
    FinishedEmpty(steps, config, turns);
    CancelledExactlyDoomed(steps, config, state, i);
    assert steps[i] !in state.pending;
  }

  lemma {:induction false} FinishedEmpty(steps: seq<Step>, config: Config, turns: seq<Turn>)
    requires Runs(steps, config, turns).verdict == Finished
    ensures var state := Runs(steps, config, turns).state; state.pending == [] && state.outstanding == {}
    decreases |turns|
  {
    hide Progress, DeliverAll;
    if turns != [] && Runs(steps, config, turns[..|turns| - 1]).verdict != Continue {
      FinishedEmpty(steps, config, turns[..|turns| - 1]);
    }
  }

  // ------------------------------------------------ one pass removes all dependents of a failure

  /** Every step comes before the steps that depend on it. */
  ghost predicate Forward(steps: seq<Step>) {
    forall i, j | 0 <= i <= j < |steps| :: steps[j].id !in steps[i].dependencies
  }

  lemma OrderedForward(steps: seq<Step>)
    requires Ordered(steps)
    ensures Forward(steps)
  {
    forall i, j | 0 <= i <= j < |steps| ensures steps[j].id !in steps[i].dependencies {
      assert WellPlaced(steps[i], StepIds(steps[..i]));
      forall k | 0 <= k < i ensures steps[..i][k].id != steps[j].id {
        assert steps[k].id != steps[j].id;
      }
    }
  }

  lemma {:induction false} WaitingForward(steps: seq<Step>, done: set<string>)
    requires Forward(steps)
    ensures Forward(Waiting(steps, done))
  {
    if steps != [] {
      assert Forward(steps[1..]);
      WaitingForward(steps[1..], done);
      if steps[0].id !in done {
        forall step | step in Waiting(steps[1..], done) ensures step.id !in steps[0].dependencies {
          var j :| 0 <= j < |steps[1..]| && steps[1..][j] == step;
          assert steps[j + 1] == step;
        }
        var all, rest := Waiting(steps, done), Waiting(steps[1..], done);
        forall i, j | 0 <= i <= j < |all| ensures all[j].id !in all[i].dependencies {
          if i > 0 {
            assert rest[j - 1].id !in rest[i - 1].dependencies;
          } else if j > 0 {
            assert rest[j - 1] in rest;
          } else {
            assert steps[0].id !in steps[0].dependencies;
          }
        }
      }
    }
  }

  /** Waiting steps already visited are clean, and nothing still to be visited can spoil them. */
  ghost predicate Clean(scanned: Scanned, rest: seq<Step>) {
    forall step, d | step in scanned.state.pending && step !in rest && d in step.dependencies ::
      !Failed(scanned.state, d) && d !in StepIds(rest)
  }

  lemma VisitCleans(config: Config, scanned: Scanned, rest: seq<Step>, turn: Turn)
    requires rest != [] && Forward(rest) && UniqueSteps(rest) && Clean(scanned, rest)
    ensures Clean(Visit(config, scanned, rest[0], turn), rest[1..])
  {
    hide StepEligibility, FailedAmong, WithoutStep;
    var state, first := scanned.state, rest[0];
    var next := Visit(config, scanned, first, turn);
    FailedAmongFinds(state, first.dependencies);
    WithoutKeeps(state.pending, first.id);
    assert forall id | Failed(next.state, id) && id != first.id :: Failed(state, id);
    forall step, d | step in next.state.pending && step !in rest[1..] && d in step.dependencies
      ensures !Failed(next.state, d) && d !in StepIds(rest[1..])
    {
      assert first in rest;
      if step == first {
        assert next.state.cancelled == state.cancelled || first !in next.state.pending;
        assert d !in StepIds(rest);
      } else {
        assert step !in rest;
        assert first.id in StepIds(rest) && d !in StepIds(rest);
        forall other | other in rest[1..] ensures other in rest {
        }
      }
    }
  }

  lemma {:induction false} ScanSweeps(config: Config, scanned: Scanned, rest: seq<Step>, turn: Turn)
    requires Forward(rest) && UniqueSteps(rest) && Clean(scanned, rest)
    requires !Held(config, Scan(config, scanned, rest, turn).state, turn.now)
    ensures Swept(Scan(config, scanned, rest, turn).state)
    decreases |rest|
  {
    hide Visit;
    if rest != [] {
      VisitCleans(config, scanned, rest, turn);
      assert Forward(rest[1..]) && UniqueSteps(rest[1..]);
      ScanSweeps(config, Visit(config, scanned, rest[0], turn), rest[1..], turn);
    }
  }

  lemma ProgressSweeps(steps: seq<Step>, config: Config, state: State, turn: Turn)
    requires Ordered(steps) && Inv(steps, config, state) && !Held(config, Progress(config, state, turn), turn.now)
    ensures Swept(Progress(config, state, turn))
  {
    hide Ordered, SubmittedOnce, CancelledForCause, Waiting, Scan, Forward;
    var settled := Settle(state, turn);
    OrderedForward(steps);
    WaitingForward(steps, Accounted(state));
    PendingUnique(steps, config, state);
    ScanSweeps(config, Scanned(settled, None), settled.pending, turn);
    RearmSwept(Scan(config, Scanned(settled, None), settled.pending, turn));
  }

  lemma RearmSwept(scanned: Scanned)
    requires Swept(scanned.state)
    ensures Swept(Rearm(scanned))
  {
    assert forall d :: Failed(Rearm(scanned), d) <==> Failed(scanned.state, d);
  }

  /**
    One turn cancels every waiting step with a failed ancestor, however long the chain between them,
    unless a serial Runner stops its scan for a submission or a cooldown.
   */
  lemma OnePassCancels(steps: seq<Step>, config: Config, state: State, turn: Turn, i: nat)
    requires Ordered(steps) && config.Valid() && Inv(steps, config, state) && i < |steps|
    requires !Held(config, Progress(config, state, turn), turn.now)
    ensures var next := Progress(config, state, turn);
      steps[i].id in next.cancelled <==> Doomed(steps, next.results, i)
  {
    hide Ordered, Inv, Progress, Doomed, Swept;
    ProgressSweeps(steps, config, state, turn);
    ProgressKeeps(steps, config, state, turn);
    CancelledExactlyDoomed(steps, config, Progress(config, state, turn), i);
  }

  /** After these turns the cancelled steps are exactly those with a failed ancestor. */
  ghost predicate UpToDate(steps: seq<Step>, config: Config, turns: seq<Turn>) {
    var state := Runs(steps, config, turns).state;
    forall i | 0 <= i < |steps| :: steps[i].id in state.cancelled <==> Doomed(steps, state.results, i)
  }

  /**
    Exactly when dependents of a failure are cancelled in the turn that learns of it, in all runs of all
    workflows: when the Runner has no cooldown.
   */
  lemma PromptExactlyWithoutCooldown(config: Config)
    requires config.Valid()
    ensures config.cooldown.None? <==>
            forall steps, turns | Ordered(steps) && HonestRun(steps, config, turns) :: UpToDate(steps, config, turns)
  {
    hide Ordered, HonestRun, UpToDate;
    if config.cooldown.None? {
      forall steps, turns | Ordered(steps) && HonestRun(steps, config, turns) ensures UpToDate(steps, config, turns) {
        PromptWithoutCooldown(steps, config, turns);
      }
    } else {
      CooldownDelaysCancellation(config);
    }
  }

  lemma PromptWithoutCooldown(steps: seq<Step>, config: Config, turns: seq<Turn>)
    requires Ordered(steps) && config.Valid() && config.cooldown.None? && HonestRun(steps, config, turns)
    ensures UpToDate(steps, config, turns)
  {
    hide Ordered, Inv, Doomed, Swept, HonestRun, Runs;
    RunAccounted(steps, config, turns);
    RunSweeps(steps, config, turns);
    var state := Runs(steps, config, turns).state;
    forall i | 0 <= i < |steps| ensures steps[i].id in state.cancelled <==> Doomed(steps, state.results, i) {
      CancelledExactlyDoomed(steps, config, state, i);
    }
  }

  lemma {:induction false} RunSweeps(steps: seq<Step>, config: Config, turns: seq<Turn>)
    requires Ordered(steps) && config.Valid() && config.cooldown.None? && HonestRun(steps, config, turns)
    ensures Swept(Runs(steps, config, turns).state)
    decreases |turns|
  {
    hide Inv, Ordered, Progress, DeliverAll, Swept;
    if turns == [] {
      NothingFailed(Initial(steps));
    } else {
      var before, last := Runs(steps, config, turns[..|turns| - 1]), turns[|turns| - 1];
      HonestPrefix(steps, config, turns);
      if before.verdict == Continue {
        RunAccounted(steps, config, turns[..|turns| - 1]);
        DeliverAllKeeps(steps, config, before.state, last.messages);
        var delivered := DeliverAll(StepIds(steps), config, before.state, last.messages).value;
        ProgressSweeps(steps, config, delivered, last);
      } else {
        RunSweeps(steps, config, turns[..|turns| - 1]);
      }
    }
  }

  lemma NothingFailed(state: State)
    requires state.results == map[] && state.cancelled == map[]
    ensures Swept(state)
  {
  }

  const FAILING := Step("a", [], 0.0, None, [])
  const WORKING := Step("b", [], 0.0, None, [])
  const BEHIND := Step("c", ["a"], 0.0, None, [])

  /** The first turn submits `a`; the second learns that it failed, submits `b` and stops before `c`. */
  function FailureTurns(config: Config): seq<Turn>
    requires config.cooldown.Some?
  {
    var start := config.createdAt;
    [Turn([], false, false, start, {}, false),
     Turn([Completed("a", false, start)], true, false, start + config.cooldown.value, {}, false)]
  }

  function Launched(): State {
    State([WORKING, BEHIND], {"a"}, map[], map[], Some("a"), None, None, ["a"])
  }

  /** `a` has failed, and `c`, which depends on it, is still waiting. */
  function StoppedShort(config: Config): State
    requires config.cooldown.Some?
  {
    var start := config.createdAt;
    State([BEHIND], {"b"}, map["a" := Completion(false, start)], map[], Some("b"), None,
          Some(start + config.cooldown.value), ["a", "b"])
  }

  lemma FirstPass(config: Config)
    requires config.Valid() && config.cooldown.Some?
    ensures TakeTurn({"a", "b", "c"}, config, Initial([FAILING, WORKING, BEHIND]), FailureTurns(config)[0])
         == Run(Launched(), Continue)
  {
    var turn, state := FailureTurns(config)[0], Initial([FAILING, WORKING, BEHIND]);
    assert Settle(state, turn) == state;
    WithoutFirst(state.pending);
    assert {} + {"a"} == {"a"} && [] + ["a"] == ["a"];
    var visited := Visit(config, Scanned(state, None), FAILING, turn);
    assert visited == Scanned(Launched(), None);
    assert Scan(config, Scanned(state, None), state.pending, turn) == visited;
  }

  lemma SecondPass(config: Config)
    requires config.Valid() && config.cooldown.Some?
    ensures TakeTurn({"a", "b", "c"}, config, Launched(), FailureTurns(config)[1])
         == Run(StoppedShort(config), Continue)
  {
    var turn := FailureTurns(config)[1];
    assert turn.messages[1..] == [];
    assert {"a"} - {"a"} == {};
    var heard := Launched().(outstanding := {}, nextWorkerAt := Some(turn.now),
                             results := map["a" := Completion(false, config.createdAt)]);
    assert DeliverAll({"a", "b", "c"}, config, Launched(), turn.messages) == Accepted(heard);
    var state := heard.(submission := None);
    assert Settle(heard, turn) == state;
    WithoutFirst(state.pending);
    assert {} + {"b"} == {"b"} && ["a"] + ["b"] == ["a", "b"];
    var visited := Visit(config, Scanned(state, None), WORKING, turn);
    assert visited == Scanned(StoppedShort(config), None);
    assert Scan(config, Scanned(state, None), state.pending, turn) == visited;
  }

  /** With a cooldown of any length, zero included, a run reaches a state in which a doomed step still waits. */
  lemma CooldownDelaysCancellation(config: Config)
    requires config.Valid() && config.cooldown.Some?
    ensures var steps, turns := [FAILING, WORKING, BEHIND], FailureTurns(config);
      Ordered(steps) && HonestRun(steps, config, turns) && !UpToDate(steps, config, turns)
  {
    hide Ordered, TakeTurn;
    var steps, turns := [FAILING, WORKING, BEHIND], FailureTurns(config);
    FailureOrdered();
    FirstPass(config);
    SecondPass(config);
    assert StepIds(steps) == {"a", "b", "c"} by {
      assert FAILING in steps && WORKING in steps && BEHIND in steps;
    }
    assert turns[..0] == [] && turns[..1] == [turns[0]] && turns[..2] == turns;
    assert [turns[0]][..0] == [];
    assert Runs(steps, config, [turns[0]]) == Run(Launched(), Continue);
    assert Runs(steps, config, turns) == Run(StoppedShort(config), Continue);
    forall k | 0 <= k < |turns| && Runs(steps, config, turns[..k]).verdict == Continue
      ensures HonestTurn(Runs(steps, config, turns[..k]).state, turns[k])
    {
      assert k == 0 || k == 1;
    }
    assert steps[0].id in steps[2].dependencies && FailedResult(StoppedShort(config).results, steps[0].id);
    assert Doomed(steps, StoppedShort(config).results, 2);
  }

  lemma FailureOrdered()
    ensures Ordered([FAILING, WORKING, BEHIND])
  {
    var steps := [FAILING, WORKING, BEHIND];
    assert steps[..0] == [] && steps[..1] == [FAILING] && steps[..2] == [FAILING, WORKING];
    assert FAILING in steps[..2] && "a" in StepIds(steps[..2]);
  }

  // ------------------------------------------------ repeated delivery

  /** The message's effect is already part of the state. */
  ghost predicate Recorded(state: State, message: Message) {
    match message
    case Completed(step, _, _) => step in state.results
    case CancelledNote(step) => step in state.cancelled
    case TimerDue => true
  }

  lemma RecordedHasNoEffect(steps: seq<Step>, config: Config, state: State, message: Message)
    requires Inv(steps, config, state) && Recorded(state, message)
    ensures Deliver(StepIds(steps), config, state, message) == Accepted(state)
  {
    hide SubmittedOnce, CancelledForCause;
    match message
    case Completed(step, _, _) =>
      assert state.outstanding - {step} == state.outstanding;
    case CancelledNote(step) =>
      WithoutIsWaiting(steps, Accounted(state), step);
      assert Accounted(state) + {step} == Accounted(state);
    case TimerDue =>
  }

  lemma DeliverRecords(known: set<string>, config: Config, state: State, message: Message)
    requires Deliver(known, config, state, message).Accepted?
    ensures var next := Deliver(known, config, state, message).value;
      && Recorded(next, message)
      && state.results.Keys <= next.results.Keys && state.cancelled.Keys <= next.cancelled.Keys
  {
  }

  /** Drops the messages seen before, here or earlier. */
  function Fresh(messages: seq<Message>, seen: set<Message>): seq<Message>
    decreases |messages|
  {
    if messages == [] then []
    else if messages[0] in seen then Fresh(messages[1..], seen)
    else [messages[0]] + Fresh(messages[1..], seen + {messages[0]})
  }

  lemma {:induction false} FreshDelivery(steps: seq<Step>, config: Config, state: State, messages: seq<Message>,
                                         seen: set<Message>)
    requires Inv(steps, config, state) && forall message | message in messages :: Honest(state, message)
    requires forall message | message in seen :: Recorded(state, message)
    ensures DeliverAll(StepIds(steps), config, state, Fresh(messages, seen))
         == DeliverAll(StepIds(steps), config, state, messages)
    ensures DeliverAll(StepIds(steps), config, state, messages).Accepted?
    ensures var next := DeliverAll(StepIds(steps), config, state, messages).value;
      && (forall message | message in messages || message in seen :: Recorded(next, message))
      && state.results.Keys <= next.results.Keys && state.cancelled.Keys <= next.cancelled.Keys
    decreases |messages|
  {
    hide Inv, Deliver;
    if messages != [] {
      var first := messages[0];
      DeliverKeeps(steps, config, state, first);
      DeliverRecords(StepIds(steps), config, state, first);
      var next := Deliver(StepIds(steps), config, state, first).value;
      forall message | message in messages[1..] ensures Honest(next, message) {
        assert message in messages;
      }
      if first in seen {
        RecordedHasNoEffect(steps, config, state, first);
        FreshDelivery(steps, config, state, messages[1..], seen);
      } else {
        FreshDelivery(steps, config, next, messages[1..], seen + {first});
        assert Fresh(messages, seen)[1..] == Fresh(messages[1..], seen + {first});
      }
    }
  }

  function MessageSet(messages: seq<Message>): set<Message> {
    set message | message in messages
  }

  function Seen(turns: seq<Turn>): set<Message> {
    if turns == [] then {}
    else Seen(turns[..|turns| - 1]) + MessageSet(turns[|turns| - 1].messages)
  }

  /** The same turns with every message delivered only the first time. */
  function FreshTurns(turns: seq<Turn>): (kept: seq<Turn>)
    ensures |kept| == |turns|
  {
    if turns == [] then []
    else
      var before, last := turns[..|turns| - 1], turns[|turns| - 1];
      FreshTurns(before) + [last.(messages := Fresh(last.messages, Seen(before)))]
  }

  lemma ProgressOnlyAdds(config: Config, state: State, turn: Turn)
    ensures var next := Progress(config, state, turn);
      next.results == state.results && state.cancelled.Keys <= next.cancelled.Keys
  {
    hide Scan;
    ScanAdds(config, Scanned(Settle(state, turn), None), state.pending, turn);
  }

  lemma {:induction false} ScanAdds(config: Config, scanned: Scanned, rest: seq<Step>, turn: Turn)
    ensures var next := Scan(config, scanned, rest, turn);
      next.state.results == scanned.state.results && scanned.state.cancelled.Keys <= next.state.cancelled.Keys
    decreases |rest|
  {
    if rest != [] && !Held(config, scanned.state, turn.now) {
      ScanAdds(config, Visit(config, scanned, rest[0], turn), rest[1..], turn);
    }
  }

  /** Delivering messages again, in the same turn or any later one, changes nothing: state and exit are the same. */
  lemma {:induction false} RepeatedDeliveryIsHarmless(steps: seq<Step>, config: Config, turns: seq<Turn>)
    requires Ordered(steps) && config.Valid() && HonestRun(steps, config, turns)
    ensures Runs(steps, config, FreshTurns(turns)) == Runs(steps, config, turns)
    ensures Runs(steps, config, turns).verdict == Continue ==>
              forall message | message in Seen(turns) :: Recorded(Runs(steps, config, turns).state, message)
    decreases |turns|
  {
    hide Inv, Ordered, Progress, DeliverAll, Fresh;
    if turns != [] {
      var before, last := turns[..|turns| - 1], turns[|turns| - 1];
      HonestPrefix(steps, config, turns);
      RepeatedDeliveryIsHarmless(steps, config, before);
      assert FreshTurns(turns)[..|turns| - 1] == FreshTurns(before);
      var run := Runs(steps, config, before);
      if run.verdict == Continue {
        RunAccounted(steps, config, before);
        FreshDelivery(steps, config, run.state, last.messages, Seen(before));
        var delivered := DeliverAll(StepIds(steps), config, run.state, last.messages).value;
        TurnIgnoresMessages(config, delivered, last, last.(messages := Fresh(last.messages, Seen(before))));
        ProgressOnlyAdds(config, delivered, last);
      }
    }
  }

  lemma TurnIgnoresMessages(config: Config, state: State, turn: Turn, other: Turn)
    requires other == turn.(messages := other.messages)
    ensures Progress(config, state, turn) == Progress(config, state, other)
    ensures forall next: State :: Judge(next, turn) == Judge(next, other)
  {
    ScanIgnoresMessages(config, Scanned(Settle(state, turn), None), state.pending, turn, other);
  }

  lemma {:induction false} ScanIgnoresMessages(config: Config, scanned: Scanned, rest: seq<Step>, turn: Turn,
                                               other: Turn)
    requires other == turn.(messages := other.messages)
    ensures Scan(config, scanned, rest, turn) == Scan(config, scanned, rest, other)
    decreases |rest|
  {
    if rest != [] && !Held(config, scanned.state, turn.now) {
      ScanIgnoresMessages(config, Visit(config, scanned, rest[0], turn), rest[1..], turn, other);
    }
  }

  // ------------------------------------------------ cooldown

  /** A serial Runner submits at most one step a turn, with nothing outstanding and the cooldown over. */
  lemma CooldownSpacing(config: Config, state: State, turn: Turn)
    requires config.Valid() && config.cooldown.Some?
    ensures var settled, next := Settle(state, turn), Progress(config, state, turn);
      || next.submissions == state.submissions
      || (|next.submissions| == |state.submissions| + 1 && state.submissions <= next.submissions
          && settled.outstanding == {} && settled.submission.None?
          && (state.nextWorkerAt.None? || state.nextWorkerAt.value <= turn.now))
  {
    ScanSpacing(config, Scanned(Settle(state, turn), None), state.pending, turn);
  }

  lemma {:induction false} ScanSpacing(config: Config, scanned: Scanned, rest: seq<Step>, turn: Turn)
    requires config.cooldown.Some?
    ensures var state, next := scanned.state, Scan(config, scanned, rest, turn).state;
      || next.submissions == state.submissions
      || (|next.submissions| == |state.submissions| + 1 && state.submissions <= next.submissions
          && state.outstanding == {} && state.submission.None?
          && (state.nextWorkerAt.None? || state.nextWorkerAt.value <= turn.now))
    decreases |rest|
  {
    hide StepEligibility, FailedAmong, WithoutStep;
    if rest != [] && !Held(config, scanned.state, turn.now) {
      var visited := Visit(config, scanned, rest[0], turn);
      ScanSpacing(config, visited, rest[1..], turn);
      if visited.state.submission.Some? {
        assert Held(config, visited.state, turn.now);
        assert Scan(config, visited, rest[1..], turn).state == visited.state;
      }
    }
  }
}
