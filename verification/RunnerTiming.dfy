/** When the Runner submits a step, what may hold it back, and when it wakes up, in instants of wall time. */
module RunnerTiming {
  import opened Collections
  import opened Outcomes
  import opened Triggers
  import opened RunnerLoop
  import opened RunnerAccounting
  import opened RunnerRuns

  /**
    A step is due when its own instant has passed and, without dependencies, its delay since creation,
    otherwise its delay since every one of its dependencies succeeded.
   */
  ghost predicate Due(step: Step, config: Config, results: map<string, Completion>, now: Instant) {
    && (step.dueAt.Some? ==> step.dueAt.value <= now)
    && (step.dependencies == [] ==> config.createdAt + step.delay <= now)
    && forall d | d in step.dependencies ::
         d in results && results[d].succeeded && results[d].completedAt + step.delay <= now
  }

  /** Nothing but time is missing. */
  ghost predicate Awaiting(step: Step, results: map<string, Completion>) {
    forall d | d in step.dependencies :: d in results && results[d].succeeded
  }

  /** Readiness is being due, and the instant given for it is the first at which the step will be due. */
  lemma EligibleExactly(step: Step, config: Config, now: Instant, results: map<string, Completion>)
    requires step.delay >= 0.0 && Awaiting(step, results)
    ensures var eligibility := StepEligibility(step, config.createdAt, now, results);
      && !eligibility.blocked && eligibility.dueAt.Some?
      && (eligibility.ready <==> Due(step, config, results, now))
      && forall at :: Due(step, config, results, at) <==> eligibility.dueAt.value <= at
  {
    if step.dependencies != [] {
      LatestBounds(step.dependencies, results, config.createdAt);
    }
  }

  ghost predicate DelaysNonNegative(steps: seq<Step>) {
    forall step | step in steps :: step.delay >= 0.0
  }

  lemma OrderedDelays(steps: seq<Step>)
    requires Ordered(steps)
    ensures DelaysNonNegative(steps)
  {
    forall step | step in steps ensures step.delay >= 0.0 {
      var i :| 0 <= i < |steps| && steps[i] == step;
      assert WellPlaced(steps[i], StepIds(steps[..i]));
    }
  }

  // ------------------------------------------------ one visit

  lemma NothingFailed(state: State, step: Step)
    requires Awaiting(step, state.results) && forall d | d in step.dependencies :: d !in state.cancelled
    ensures FailedAmong(state, step.dependencies) == []
  {
    FailedAmongFinds(state, step.dependencies);
  }

  /** A visit submits nothing but the step visited, only when it is due, in time, and there is room. */
  lemma VisitSubmits(config: Config, scanned: Scanned, step: Step, turn: Turn)
    requires step.delay >= 0.0
    ensures var state, next := scanned.state, Visit(config, scanned, step, turn).state;
      || (next.submissions == state.submissions && next.submission == state.submission
          && next.outstanding == state.outstanding)
      || (next.submissions == state.submissions + [step.id] && state.submission.None?
          && next.submission == Some(step.id)
          && Due(step, config, state.results, turn.now) && step.id !in turn.late
          && (config.window.Some? ==> |state.outstanding| < config.window.value))
  {
    var state := scanned.state;
    FailedAmongFinds(state, step.dependencies);
    if FailedAmong(state, step.dependencies) == [] && Awaiting(step, state.results) {
      EligibleExactly(step, config, turn.now, state.results);
    }
  }

  /** A due step that is not late is submitted at its visit whenever there is room. */
  lemma VisitOfDue(config: Config, scanned: Scanned, step: Step, turn: Turn)
    requires step.delay >= 0.0 && Due(step, config, scanned.state.results, turn.now)
    requires forall d | d in step.dependencies :: d !in scanned.state.cancelled
    ensures var next := Visit(config, scanned, step, turn);
      next == if CanSubmit(config, scanned.state) && step.id !in turn.late
              then scanned.(state := Submit(scanned.state, step)) else scanned
  {
    NothingFailed(scanned.state, step);
    EligibleExactly(step, config, turn.now, scanned.state.results);
  }

  /** A step for which only time is missing is due at an instant that the scan takes note of. */
  lemma VisitOfWaiting(config: Config, scanned: Scanned, step: Step, turn: Turn)
    requires step.delay >= 0.0 && Awaiting(step, scanned.state.results)
    requires !Due(step, config, scanned.state.results, turn.now)
    requires forall d | d in step.dependencies :: d !in scanned.state.cancelled
    ensures var next := Visit(config, scanned, step, turn);
      && next.state == scanned.state && next.nextDue.Some?
      && forall at | Due(step, config, scanned.state.results, at) :: next.nextDue.value <= at
  {
    NothingFailed(scanned.state, step);
    EligibleExactly(step, config, turn.now, scanned.state.results);
  }

  // ------------------------------------------------ a whole scan

  /** What one scan submits: nothing, or one of the steps it visits, due and in time. */
  lemma {:induction false} ScanSubmits(config: Config, scanned: Scanned, rest: seq<Step>, turn: Turn)
    requires DelaysNonNegative(rest)
    ensures var state, next := scanned.state, Scan(config, scanned, rest, turn).state;
      || next.submissions == state.submissions
      || exists step :: step in rest && SubmittedNow(config, state, next, step, turn)
    decreases |rest|
  {
    hide Visit, Due;
    if rest != [] && !Held(config, scanned.state, turn.now) {
      var visited := Visit(config, scanned, rest[0], turn);
      VisitSubmits(config, scanned, rest[0], turn);
      VisitMonotone(config, scanned, rest[0], turn);
      ScanSubmits(config, visited, rest[1..], turn);
      if visited.state.submissions != scanned.state.submissions {
        ScanPendingSubmission(config, visited, rest[1..], turn);
        assert SubmittedNow(config, scanned.state, Scan(config, scanned, rest, turn).state, rest[0], turn);
      } else if Scan(config, visited, rest[1..], turn).state.submissions != visited.state.submissions {
        var step :| step in rest[1..]
                 && SubmittedNow(config, visited.state, Scan(config, visited, rest[1..], turn).state, step, turn);
        assert SubmittedNow(config, scanned.state, Scan(config, scanned, rest, turn).state, step, turn);
      }
    }
  }

  ghost predicate SubmittedNow(config: Config, state: State, next: State, step: Step, turn: Turn) {
    && next.submissions == state.submissions + [step.id] && state.submission.None?
    && Due(step, config, state.results, turn.now) && step.id !in turn.late
  }

  /** While a submission is under way no other is begun. */
  lemma {:induction false} ScanPendingSubmission(config: Config, scanned: Scanned, rest: seq<Step>, turn: Turn)
    requires scanned.state.submission.Some?
    ensures Scan(config, scanned, rest, turn).state.submissions == scanned.state.submissions
    decreases |rest|
  {
    if rest != [] && !Held(config, scanned.state, turn.now) {
      VisitMonotone(config, scanned, rest[0], turn);
      ScanPendingSubmission(config, Visit(config, scanned, rest[0], turn), rest[1..], turn);
    }
  }

  /** What may hold a due step back. */
  ghost predicate HeldBack(config: Config, next: State, step: Step, turn: Turn) {
    || step.id in turn.late
    || next.submission.Some?
    || (config.window.Some? && |next.outstanding| >= config.window.value)
    || Held(config, next, turn.now)
  }

  /** Dependencies that have results are not cancelled, and stay so during the scan. */
  ghost predicate Sound(steps: seq<Step>, config: Config, scanned: Scanned, rest: seq<Step>) {
    && Inv(steps, config, scanned.state) && UniqueSteps(rest) && Scannable(scanned, rest) && DelaysNonNegative(rest)
    && forall step | step in rest :: step in steps
  }

  lemma VisitSound(steps: seq<Step>, config: Config, scanned: Scanned, rest: seq<Step>, turn: Turn)
    requires Ordered(steps) && rest != [] && Sound(steps, config, scanned, rest)
    ensures Sound(steps, config, Visit(config, scanned, rest[0], turn), rest[1..])
  {
    hide Inv, Visit, Ordered;
    VisitKeeps(steps, config, scanned, rest[0], turn);
    VisitLeavesRest(config, scanned, rest, turn);
  }

  lemma SucceededNotCancelled(steps: seq<Step>, config: Config, state: State)
    requires Inv(steps, config, state)
    ensures forall id | id in state.results :: id !in state.cancelled
  {
    hide Waiting, SubmittedOnce, CancelledForCause;
  }

  lemma {:induction false} ScanOfDue(steps: seq<Step>, config: Config, scanned: Scanned, rest: seq<Step>, turn: Turn,
                                     step: Step)
    requires Ordered(steps) && Sound(steps, config, scanned, rest) && step in rest
    requires Due(step, config, scanned.state.results, turn.now)
    ensures var next := Scan(config, scanned, rest, turn).state;
      step.id in next.submissions || HeldBack(config, next, step, turn)
    decreases |rest|
  {
    hide Visit, Due, Inv, Ordered, Held;
    if !Held(config, scanned.state, turn.now) {
      var visited := Visit(config, scanned, rest[0], turn);
      VisitSound(steps, config, scanned, rest, turn);
      VisitMonotone(config, scanned, rest[0], turn);
      ScanMonotone(config, visited, rest[1..], turn);
      ScanKeepsSubmissions(config, visited, rest[1..], turn);
      if step == rest[0] {
        SucceededNotCancelled(steps, config, scanned.state);
        DueHasResults(step, config, scanned.state.results, turn.now);
        VisitOfDue(config, scanned, step, turn);
        RoomUsed(config, scanned, visited, Scan(config, visited, rest[1..], turn), step, turn);
      } else {
        ScanOfDue(steps, config, visited, rest[1..], turn, step);
      }
    } else {
      HeldScan(config, scanned, rest, turn);
    }
  }

  lemma HeldScan(config: Config, scanned: Scanned, rest: seq<Step>, turn: Turn)
    requires rest != [] && Held(config, scanned.state, turn.now)
    ensures Scan(config, scanned, rest, turn).state == scanned.state
  {
  }

  lemma DueHasResults(step: Step, config: Config, results: map<string, Completion>, now: Instant)
    requires Due(step, config, results, now)
    ensures Awaiting(step, results) && forall d | d in step.dependencies :: d in results
  {
  }

  lemma RoomUsed(config: Config, scanned: Scanned, visited: Scanned, last: Scanned, step: Step, turn: Turn)
    requires visited == if CanSubmit(config, scanned.state) && step.id !in turn.late
                        then scanned.(state := Submit(scanned.state, step)) else scanned
    requires visited.state.outstanding <= last.state.outstanding
    requires visited.state.submission.Some? ==> last.state.submission.Some?
    requires visited.state.submissions <= last.state.submissions
    ensures step.id in last.state.submissions || HeldBack(config, last.state, step, turn)
  {
    if CanSubmit(config, scanned.state) && step.id !in turn.late {
      assert visited.state.submissions[|scanned.state.submissions|] == step.id;
      assert last.state.submissions[|scanned.state.submissions|] == step.id;
    } else {
      SubsetSize(visited.state.outstanding, last.state.outstanding);
    }
  }

  lemma {:induction false} ScanKeepsSubmissions(config: Config, scanned: Scanned, rest: seq<Step>, turn: Turn)
    ensures scanned.state.submissions <= Scan(config, scanned, rest, turn).state.submissions
    decreases |rest|
  {
    if rest != [] && !Held(config, scanned.state, turn.now) {
      ScanKeepsSubmissions(config, Visit(config, scanned, rest[0], turn), rest[1..], turn);
    }
  }

  // ------------------------------------------------ which of several due steps goes first

  /** With room, the first waiting step in order that is due and in time is the one submitted. */
  lemma {:induction false} ScanOfFirstDue(steps: seq<Step>, config: Config, scanned: Scanned, rest: seq<Step>,
                                          turn: Turn, k: nat)
    requires Ordered(steps) && Sound(steps, config, scanned, rest) && k < |rest|
    requires CanSubmit(config, scanned.state) && !Held(config, scanned.state, turn.now)
    requires Due(rest[k], config, scanned.state.results, turn.now) && rest[k].id !in turn.late
    requires forall j | 0 <= j < k ::
               rest[j].id in turn.late || !Due(rest[j], config, scanned.state.results, turn.now)
    ensures Scan(config, scanned, rest, turn).state.submissions == scanned.state.submissions + [rest[k].id]
    decreases |rest|
  {
    hide Visit, Due, Inv, Ordered;
    var visited := Visit(config, scanned, rest[0], turn);
    VisitSound(steps, config, scanned, rest, turn);
    VisitMonotone(config, scanned, rest[0], turn);
    if k == 0 {
      SucceededNotCancelled(steps, config, scanned.state);
      DueHasResults(rest[0], config, scanned.state.results, turn.now);
      VisitOfDue(config, scanned, rest[0], turn);
      ScanPendingSubmission(config, visited, rest[1..], turn);
    } else {
      VisitSubmits(config, scanned, rest[0], turn);
      forall j | 0 <= j < k - 1
        ensures rest[1..][j].id in turn.late || !Due(rest[1..][j], config, visited.state.results, turn.now)
      {
        assert rest[1..][j] == rest[j + 1];
      }
      ScanOfFirstDue(steps, config, visited, rest[1..], turn, k - 1);
    }
  }

  // ------------------------------------------------ the timer

  lemma VisitLowers(config: Config, scanned: Scanned, step: Step, turn: Turn)
    ensures var next := Visit(config, scanned, step, turn);
      && (scanned.nextDue.Some? ==> next.nextDue.Some? && next.nextDue.value <= scanned.nextDue.value)
      && next.state.nextWorkerAt == scanned.state.nextWorkerAt
  {
  }

  /** A scan that was not held back has visited everything, and what was noted stays noted. */
  lemma {:induction false} ScanLowers(config: Config, scanned: Scanned, rest: seq<Step>, turn: Turn)
    requires !Held(config, Scan(config, scanned, rest, turn).state, turn.now)
    ensures var next := Scan(config, scanned, rest, turn);
      scanned.nextDue.Some? ==> next.nextDue.Some? && next.nextDue.value <= scanned.nextDue.value
    ensures rest == [] || !Held(config, scanned.state, turn.now)
    decreases |rest|
  {
    hide Visit;
    if rest != [] && !Held(config, scanned.state, turn.now) {
      VisitLowers(config, scanned, rest[0], turn);
      ScanLowers(config, Visit(config, scanned, rest[0], turn), rest[1..], turn);
    }
  }

  /** The instant comes no later than the step can be due. */
  ghost predicate InTime(step: Step, config: Config, results: map<string, Completion>, instant: Option<Instant>) {
    instant.Some? && forall at | Due(step, config, results, at) :: instant.value <= at
  }

  lemma {:induction false} ScanOfWaiting(steps: seq<Step>, config: Config, scanned: Scanned, rest: seq<Step>,
                                         turn: Turn, step: Step)
    requires Ordered(steps) && Sound(steps, config, scanned, rest) && step in rest
    requires Awaiting(step, scanned.state.results) && !Due(step, config, scanned.state.results, turn.now)
    requires !Held(config, Scan(config, scanned, rest, turn).state, turn.now)
    ensures InTime(step, config, scanned.state.results, Scan(config, scanned, rest, turn).nextDue)
    decreases |rest|
  {
    hide Visit, Due, Inv, Ordered, Awaiting;
    ScanLowers(config, scanned, rest, turn);
    var visited := Visit(config, scanned, rest[0], turn);
    VisitSound(steps, config, scanned, rest, turn);
    VisitMonotone(config, scanned, rest[0], turn);
    if step == rest[0] {
      AwaitingNotCancelled(steps, config, scanned.state, step);
      VisitOfWaiting(config, scanned, step, turn);
      ScanLowers(config, visited, rest[1..], turn);
    } else {
      ScanOfWaiting(steps, config, visited, rest[1..], turn, step);
    }
  }

  lemma AwaitingNotCancelled(steps: seq<Step>, config: Config, state: State, step: Step)
    requires Inv(steps, config, state) && Awaiting(step, state.results)
    ensures forall d | d in step.dependencies :: d !in state.cancelled
  {
    SucceededNotCancelled(steps, config, state);
  }

  /**
    A waiting step whose dependencies have all succeeded is woken up for in time, unless a serial Runner
    holds back.
   */
  lemma TimerCovers(steps: seq<Step>, config: Config, state: State, turn: Turn, step: Step)
    requires Ordered(steps) && Inv(steps, config, state) && step in state.pending
    requires Awaiting(step, state.results) && !Due(step, config, state.results, turn.now)
    requires !Held(config, Progress(config, state, turn), turn.now)
    ensures InTime(step, config, state.results, Progress(config, state, turn).timer)
  {
    hide Inv, Ordered, Scan, Due, Awaiting;
    var settled := Settle(state, turn);
    SettledSound(steps, config, state, turn);
    ScanOfWaiting(steps, config, Scanned(settled, None), settled.pending, turn, step);
  }

  lemma SettledSound(steps: seq<Step>, config: Config, state: State, turn: Turn)
    requires Ordered(steps) && Inv(steps, config, state)
    ensures Sound(steps, config, Scanned(Settle(state, turn), None), Settle(state, turn).pending)
  {
    hide SubmittedOnce, CancelledForCause, Ordered;
    SettleKeeps(steps, config, state, turn);
    PendingUnique(steps, config, Settle(state, turn));
    OrderedDelays(steps);
  }

  /** A serial Runner that only waits for its cooldown wakes up for its end. */
  lemma TimerCoversCooldown(config: Config, state: State, turn: Turn)
    requires Held(config, Progress(config, state, turn), turn.now) && Progress(config, state, turn).pending != []
    requires Progress(config, state, turn).outstanding == {} && Progress(config, state, turn).submission.None?
    ensures var next := Progress(config, state, turn);
      next.nextWorkerAt.Some? && next.timer.Some? && next.timer.value <= next.nextWorkerAt.value
  {
    hide Visit;
    var settled := Settle(state, turn);
    ScanMonotone(config, Scanned(settled, None), settled.pending, turn);
    ScanKeepsCooldown(config, Scanned(settled, None), settled.pending, turn);
  }

  lemma {:induction false} ScanKeepsCooldown(config: Config, scanned: Scanned, rest: seq<Step>, turn: Turn)
    ensures Scan(config, scanned, rest, turn).state.nextWorkerAt == scanned.state.nextWorkerAt
    ensures rest == [] ==> Scan(config, scanned, rest, turn) == scanned
    decreases |rest|
  {
    hide Visit;
    if rest != [] && !Held(config, scanned.state, turn.now) {
      VisitMonotone(config, scanned, rest[0], turn);
      ScanKeepsCooldown(config, Visit(config, scanned, rest[0], turn), rest[1..], turn);
    }
  }

  // ------------------------------------------------ whole turns and runs

  lemma {:induction false} DeliveriesSubmitNothing(known: set<string>, config: Config, state: State,
                                                   messages: seq<Message>)
    requires DeliverAll(known, config, state, messages).Accepted?
    ensures DeliverAll(known, config, state, messages).value.submissions == state.submissions
    decreases |messages|
  {
    if messages != [] {
      DeliveriesSubmitNothing(known, config, Deliver(known, config, state, messages[0]).value, messages[1..]);
    }
  }

  lemma TurnSubmits(steps: seq<Step>, config: Config, state: State, turn: Turn)
    requires Ordered(steps) && config.Valid() && Inv(steps, config, state) && HonestTurn(state, turn)
    ensures var next := TakeTurn(StepIds(steps), config, state, turn).state;
      || next.submissions == state.submissions
      || exists step :: && step in steps && next.submissions == state.submissions + [step.id]
                        && Due(step, config, next.results, turn.now) && step.id !in turn.late
  {
    hide Inv, Ordered, Scan, Due;
    DeliverAllKeeps(steps, config, state, turn.messages);
    var delivered := DeliverAll(StepIds(steps), config, state, turn.messages).value;
    DeliveriesSubmitNothing(StepIds(steps), config, state, turn.messages);
    var settled := Settle(delivered, turn);
    SettledSound(steps, config, delivered, turn);
    ScanSubmits(config, Scanned(settled, None), settled.pending, turn);
    ScanMonotone(config, Scanned(settled, None), settled.pending, turn);
  }

  /** Every submission of a run was made in a turn in which the step was due. */
  lemma {:induction false} EverySubmissionWasDue(steps: seq<Step>, config: Config, turns: seq<Turn>, step: Step)
    returns (k: nat)
    requires Ordered(steps) && config.Valid() && HonestRun(steps, config, turns)
    requires step in steps && step.id in Runs(steps, config, turns).state.submissions
    ensures k < |turns| && step.id !in Runs(steps, config, turns[..k]).state.submissions
    ensures Due(step, config, Runs(steps, config, turns[..k + 1]).state.results, turns[k].now)
    ensures step.id !in turns[k].late
    decreases |turns|
  {
    hide Inv, Ordered, TakeTurn, Due;
    var most := turns[..|turns| - 1];
    var before := Runs(steps, config, most);
    HonestPrefix(steps, config, turns);
    if step.id in before.state.submissions {
      k := EverySubmissionWasDue(steps, config, most, step);
      assert most[..k] == turns[..k] && most[..k + 1] == turns[..k + 1];
    } else {
      k := |turns| - 1;
      assert turns[..k + 1] == turns;
      RunAccounted(steps, config, most);
      TurnSubmits(steps, config, before.state, turns[k]);
      var submitted :| && submitted in steps
                       && Runs(steps, config, turns).state.submissions == before.state.submissions + [submitted.id]
                       && Due(submitted, config, Runs(steps, config, turns).state.results, turns[k].now)
                       && submitted.id !in turns[k].late;
      StepsById(steps, submitted, step);
    }
  }

  /** A step that waits for nothing any more is pending or submitted: it is never cancelled. */
  lemma DueIsPlaced(steps: seq<Step>, config: Config, state: State, step: Step, now: Instant)
    requires Inv(steps, config, state) && step in steps && Due(step, config, state.results, now)
    ensures step in state.pending || step.id in state.submissions
  {
    hide Waiting;
    SucceededNotCancelled(steps, config, state);
    assert forall d | d in step.dependencies :: !Failed(state, d);
    assert step.id !in state.cancelled;
    if step.id in state.outstanding || step.id in state.results {
      assert step.id in Listed(state.submissions);
    }
  }

  /** At the end of every turn a due step has been submitted or something named holds it back. */
  lemma DueIsSubmitted(steps: seq<Step>, config: Config, turns: seq<Turn>, step: Step)
    requires Ordered(steps) && config.Valid() && HonestRun(steps, config, turns) && turns != [] && step in steps
    requires Runs(steps, config, turns[..|turns| - 1]).verdict == Continue
    requires Due(step, config, Runs(steps, config, turns).state.results, turns[|turns| - 1].now)
    ensures var next := Runs(steps, config, turns).state;
      step.id in next.submissions || HeldBack(config, next, step, turns[|turns| - 1])
  {
    hide Inv, Ordered, Scan, Due, Held;
    var most, turn := turns[..|turns| - 1], turns[|turns| - 1];
    var state := Runs(steps, config, most).state;
    HonestPrefix(steps, config, turns);
    RunAccounted(steps, config, most);
    DeliverAllKeeps(steps, config, state, turn.messages);
    var delivered := DeliverAll(StepIds(steps), config, state, turn.messages).value;
    var settled := Settle(delivered, turn);
    SettledSound(steps, config, delivered, turn);
    var scanned := Scan(config, Scanned(settled, None), settled.pending, turn);
    ScanMonotone(config, Scanned(settled, None), settled.pending, turn);
    ScanKeepsSubmissions(config, Scanned(settled, None), settled.pending, turn);
    DueIsPlaced(steps, config, settled, step, turn.now);
    if step in settled.pending {
      ScanOfDue(steps, config, Scanned(settled, None), settled.pending, turn, step);
    } else {
      assert step.id in scanned.state.submissions;
    }
    HeldAlike(config, scanned.state, Rearm(scanned), turn.now);
  }

  lemma HeldAlike(config: Config, state: State, other: State, now: Instant)
    requires other == state.(timer := other.timer)
    ensures Held(config, state, now) <==> Held(config, other, now)
  {
  }

  /** A Runner goes on exactly while something is left and its deadline has not passed. */
  lemma VerdictExactly(steps: seq<Step>, config: Config, turns: seq<Turn>)
    requires Ordered(steps) && config.Valid() && HonestRun(steps, config, turns) && turns != []
    requires Runs(steps, config, turns[..|turns| - 1]).verdict == Continue
    ensures var run := Runs(steps, config, turns);
      var done := run.state.pending == [] && run.state.outstanding == {} && run.state.submission.None?;
      && (run.verdict == Finished <==> done)
      && (run.verdict == TimedOut <==> !done && turns[|turns| - 1].expired)
      && (run.verdict == Continue <==> !done && !turns[|turns| - 1].expired)
  {
    hide Inv, Ordered, Progress;
    HonestPrefix(steps, config, turns);
    RunAccounted(steps, config, turns[..|turns| - 1]);
    RunAccounted(steps, config, turns);
  }

  /** A cancellation that is noted takes the step out of those waiting; a reason recorded before stays. */
  lemma CancellationNoted(known: set<string>, config: Config, state: State, id: string)
    requires Deliver(known, config, state, CancelledNote(id)).Accepted?
    ensures var next := Deliver(known, config, state, CancelledNote(id)).value;
      && (forall step :: step in next.pending <==> step in state.pending && step.id != id)
      && next.cancelled.Keys == state.cancelled.Keys + {id}
      && (forall other | other in state.cancelled :: next.cancelled[other] == state.cancelled[other])
      && next.outstanding == state.outstanding && next.results == state.results
  {
    WithoutKeeps(state.pending, id);
  }

  predicate Names(message: Message, id: string) {
    match message
    case Completed(step, _, _) => step == id
    case CancelledNote(step) => step == id
    case TimerDue => false
  }

  /** Messages are refused exactly when one of them is about a step that the Runner does not have. */
  lemma {:induction false} RefusedExactlyUnknown(known: set<string>, config: Config, state: State,
                                                 messages: seq<Message>)
    ensures DeliverAll(known, config, state, messages).Rejected?
       <==> exists message, id :: message in messages && Names(message, id) && id !in known
    decreases |messages|
  {
    if messages != [] {
      var first := messages[0];
      if Deliver(known, config, state, first).Accepted? {
        RefusedExactlyUnknown(known, config, Deliver(known, config, state, first).value, messages[1..]);
        assert forall id | Names(first, id) :: id in known;
        assert forall message :: message in messages <==> message == first || message in messages[1..];
      } else {
        assert first in messages && exists id :: Names(first, id) && id !in known;
      }
    }
  }

  /** The first completion delivered for a step is its result for good. */
  lemma {:induction false} FirstCompletionCounts(known: set<string>, config: Config, state: State,
                                                 messages: seq<Message>, k: nat)
    requires k < |messages| && messages[k].Completed? && messages[k].step !in state.results
    requires forall j | 0 <= j < k :: messages[j].Completed? ==> messages[j].step != messages[k].step
    requires DeliverAll(known, config, state, messages).Accepted?
    ensures var next := DeliverAll(known, config, state, messages).value;
      && messages[k].step in next.results
      && next.results[messages[k].step] == Completion(messages[k].succeeded, messages[k].at)
    decreases |messages|
  {
    var next := Deliver(known, config, state, messages[0]).value;
    if k == 0 {
      ResultsStay(known, config, next, messages[1..], messages[0].step);
    } else {
      assert messages[1..][k - 1] == messages[k];
      assert forall j | 0 <= j < k - 1 :: messages[1..][j] == messages[j + 1];
      FirstCompletionCounts(known, config, next, messages[1..], k - 1);
    }
  }

  lemma {:induction false} ResultsStay(known: set<string>, config: Config, state: State, messages: seq<Message>,
                                       id: string)
    requires id in state.results && DeliverAll(known, config, state, messages).Accepted?
    ensures var next := DeliverAll(known, config, state, messages).value;
      id in next.results && next.results[id] == state.results[id]
    decreases |messages|
  {
    if messages != [] {
      ResultsStay(known, config, Deliver(known, config, state, messages[0]).value, messages[1..], id);
    }
  }

  // ------------------------------------------------ cooldown

  /** In a serial Runner only the last submission is ever open, and its end sets the clock for the next. */
  ghost predicate Paced(config: Config, state: State) {
    config.cooldown.Some? ==>
      if state.submissions == [] then state.outstanding == {}
      else
        var last := state.submissions[|state.submissions| - 1];
        && state.outstanding <= {last}
        && (state.outstanding == {} && last in state.results ==>
              state.nextWorkerAt == Some(state.results[last].completedAt + config.cooldown.value))
  }

  lemma DeliverPaced(steps: seq<Step>, config: Config, state: State, message: Message)
    requires config.Valid() && Inv(steps, config, state) && Honest(state, message) && Paced(config, state)
    ensures Deliver(StepIds(steps), config, state, message).Accepted?
    ensures Paced(config, Deliver(StepIds(steps), config, state, message).value)
  {
    hide Inv;
    DeliverKeeps(steps, config, state, message);
    if message.Completed? {
      SubmittedIsOpen(steps, config, state, message.step);
    }
  }

  lemma SubmittedIsOpen(steps: seq<Step>, config: Config, state: State, id: string)
    requires Inv(steps, config, state) && id in state.submissions
    ensures id in state.outstanding <==> id !in state.results
  {
    hide Waiting, CancelledForCause;
    assert id in Listed(state.submissions);
  }

  lemma {:induction false} DeliverAllPaced(steps: seq<Step>, config: Config, state: State, messages: seq<Message>)
    requires config.Valid() && Inv(steps, config, state) && Paced(config, state)
    requires forall message | message in messages :: Honest(state, message)
    ensures DeliverAll(StepIds(steps), config, state, messages).Accepted?
    ensures Paced(config, DeliverAll(StepIds(steps), config, state, messages).value)
    decreases |messages|
  {
    hide Inv, Paced, Deliver;
    if messages != [] {
      DeliverKeeps(steps, config, state, messages[0]);
      DeliverPaced(steps, config, state, messages[0]);
      var next := Deliver(StepIds(steps), config, state, messages[0]).value;
      forall message | message in messages[1..] ensures Honest(next, message) {
        assert message in messages;
      }
      DeliverAllPaced(steps, config, next, messages[1..]);
    }
  }

  lemma {:induction false} ScanPaced(config: Config, scanned: Scanned, rest: seq<Step>, turn: Turn)
    requires config.cooldown.Some? && Paced(config, scanned.state)
    ensures Paced(config, Scan(config, scanned, rest, turn).state)
    decreases |rest|
  {
    hide Visit, Paced;
    if rest != [] && !Held(config, scanned.state, turn.now) {
      VisitPaced(config, scanned, rest[0], turn);
      ScanPaced(config, Visit(config, scanned, rest[0], turn), rest[1..], turn);
    }
  }

  lemma VisitPaced(config: Config, scanned: Scanned, step: Step, turn: Turn)
    requires config.cooldown.Some? && Paced(config, scanned.state) && !Held(config, scanned.state, turn.now)
    ensures Paced(config, Visit(config, scanned, step, turn).state)
  {
    hide StepEligibility, FailedAmong, WithoutStep;
  }

  lemma {:induction false} RunPaced(steps: seq<Step>, config: Config, turns: seq<Turn>)
    requires Ordered(steps) && config.Valid() && HonestRun(steps, config, turns)
    ensures Paced(config, Runs(steps, config, turns).state)
    decreases |turns|
  {
    hide Inv, Ordered, Scan, DeliverAll;
    if turns != [] {
      var most, turn := turns[..|turns| - 1], turns[|turns| - 1];
      var before := Runs(steps, config, most);
      HonestPrefix(steps, config, turns);
      RunPaced(steps, config, most);
      if before.verdict == Continue {
        RunAccounted(steps, config, most);
        DeliverAllPaced(steps, config, before.state, turn.messages);
        if config.cooldown.Some? {
          var settled := Settle(DeliverAll(StepIds(steps), config, before.state, turn.messages).value, turn);
          ScanPaced(config, Scanned(settled, None), settled.pending, turn);
        }
      }
    }
  }

  /**
    After its first step a serial Runner submits the next only when the one before has completed and the
    cooldown since has passed.
   */
  lemma CooldownObserved(steps: seq<Step>, config: Config, turns: seq<Turn>)
    requires Ordered(steps) && config.Valid() && config.cooldown.Some? && HonestRun(steps, config, turns) && turns != []
    requires Runs(steps, config, turns[..|turns| - 1]).verdict == Continue
    requires Runs(steps, config, turns[..|turns| - 1]).state.submissions != []
    requires Runs(steps, config, turns).state.submissions != Runs(steps, config, turns[..|turns| - 1]).state.submissions
    ensures var before, next := Runs(steps, config, turns[..|turns| - 1]).state, Runs(steps, config, turns).state;
      var previous := before.submissions[|before.submissions| - 1];
      && previous in next.results
      && next.results[previous].completedAt + config.cooldown.value <= turns[|turns| - 1].now
  {
    hide Inv, Ordered, Scan, DeliverAll, Progress;
    var most, turn := turns[..|turns| - 1], turns[|turns| - 1];
    var state := Runs(steps, config, most).state;
    HonestPrefix(steps, config, turns);
    RunAccounted(steps, config, most);
    RunPaced(steps, config, most);
    DeliverAllPaced(steps, config, state, turn.messages);
    DeliverAllKeeps(steps, config, state, turn.messages);
    DeliveriesSubmitNothing(StepIds(steps), config, state, turn.messages);
    var delivered := DeliverAll(StepIds(steps), config, state, turn.messages).value;
    CooldownSpacing(config, delivered, turn);
    ProgressOnlyAdds(config, delivered, turn);
    var previous := state.submissions[|state.submissions| - 1];
    AllCompleted(steps, config, delivered, previous);
  }

  lemma AllCompleted(steps: seq<Step>, config: Config, state: State, id: string)
    requires Inv(steps, config, state) && id in state.submissions && state.outstanding == {}
    ensures id in state.results
  {
    hide Waiting, CancelledForCause, Split;
    assert id in Listed(state.submissions);
  }

  /** With room, each turn submits the first step in order that is due and in time. */
  lemma FirstDueGoesFirst(steps: seq<Step>, config: Config, state: State, turn: Turn, k: nat)
    requires Ordered(steps) && Inv(steps, config, state) && k < |state.pending|
    requires CanSubmit(config, Settle(state, turn)) && !Held(config, Settle(state, turn), turn.now)
    requires Due(state.pending[k], config, state.results, turn.now) && state.pending[k].id !in turn.late
    requires forall j | 0 <= j < k ::
               state.pending[j].id in turn.late || !Due(state.pending[j], config, state.results, turn.now)
    ensures Progress(config, state, turn).submissions == state.submissions + [state.pending[k].id]
  {
    hide Inv, Ordered, Scan, Due, Held, CanSubmit;
    SettledSound(steps, config, state, turn);
    ScanOfFirstDue(steps, config, Scanned(Settle(state, turn), None), Settle(state, turn).pending, turn, k);
  }

  // ------------------------------------------------ reasons

  /** A step that a turn cancels is recorded with exactly its dependencies that had failed or been cancelled by then. */
  lemma VisitCancels(config: Config, scanned: Scanned, step: Step, turn: Turn)
    requires step.id !in scanned.state.cancelled && step.id in Visit(config, scanned, step, turn).state.cancelled
    requires forall d | d in step.dependencies :: d in scanned.state.results || Failed(scanned.state, d)
    ensures forall d :: d in Visit(config, scanned, step, turn).state.cancelled[step.id]
                        <==> d in step.dependencies && Failed(scanned.state, d)
  {
    hide StepEligibility;
    FailedAmongFinds(scanned.state, step.dependencies);
    if FailedAmong(scanned.state, step.dependencies) == [] {
      NeverBlocked(config, scanned.state, step, turn);
    }
  }

  // ------------------------------------------------ no wake-up without a reason

  /**
    The instant is when some waiting step will be due, the end of the cooldown, or a timer set before
    that has not fired.
   */
  ghost predicate Justified(config: Config, state: State, turn: Turn, instant: Instant) {
    || state.nextWorkerAt == Some(instant) || (state.timer == Some(instant) && !turn.fired)
    || exists step :: step in state.pending && FirstDueAt(config, state.results, step, instant)
  }

  ghost predicate FirstDueAt(config: Config, results: map<string, Completion>, step: Step, instant: Instant) {
    Awaiting(step, results) && forall at :: Due(step, config, results, at) <==> instant <= at
  }

  lemma VisitJustified(config: Config, scanned: Scanned, step: Step, turn: Turn)
    requires step.delay >= 0.0
    ensures var next := Visit(config, scanned, step, turn).nextDue;
      next == scanned.nextDue || (next.Some? && FirstDueAt(config, scanned.state.results, step, next.value))
  {
    FailedAmongFinds(scanned.state, step.dependencies);
    if FailedAmong(scanned.state, step.dependencies) == [] && Awaiting(step, scanned.state.results) {
      EligibleExactly(step, config, turn.now, scanned.state.results);
    }
  }

  lemma {:induction false} ScanJustified(config: Config, scanned: Scanned, rest: seq<Step>, turn: Turn)
    requires DelaysNonNegative(rest)
    ensures var next := Scan(config, scanned, rest, turn).nextDue;
      || next == scanned.nextDue || next == scanned.state.nextWorkerAt
      || (next.Some? && exists step :: step in rest && FirstDueAt(config, scanned.state.results, step, next.value))
    decreases |rest|
  {
    hide Visit, FirstDueAt;
    if rest != [] && !Held(config, scanned.state, turn.now) {
      var visited := Visit(config, scanned, rest[0], turn);
      VisitJustified(config, scanned, rest[0], turn);
      VisitMonotone(config, scanned, rest[0], turn);
      ScanJustified(config, visited, rest[1..], turn);
      assert forall step :: step in rest <==> step == rest[0] || step in rest[1..];
    }
  }

  /** After every turn the timer, if any, is set for a reason. */
  lemma TimerJustified(steps: seq<Step>, config: Config, state: State, turn: Turn)
    requires Ordered(steps) && Inv(steps, config, state)
    ensures var next := Progress(config, state, turn);
      next.timer.Some? ==> Justified(config, state, turn, next.timer.value)
  {
    hide Inv, Ordered, Scan, FirstDueAt;
    var settled := Settle(state, turn);
    SettledSound(steps, config, state, turn);
    ScanJustified(config, Scanned(settled, None), settled.pending, turn);
    var scanned := Scan(config, Scanned(settled, None), settled.pending, turn);
    ScanMonotone(config, Scanned(settled, None), settled.pending, turn);
    assert scanned.state.timer == settled.timer;
  }
}
