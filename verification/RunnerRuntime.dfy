/** The Runner object: its fields change step by step, and each method refines one part of the turn. */
module RunnerRuntime {
  import opened Outcomes
  import opened Triggers
  import opened RunnerLoop
  import opened RunnerAccounting
  import opened RunnerRuns

  class Runner {
    const known: set<string>
    const config: Config
    var pending: seq<Step>
    var outstanding: set<string>
    var results: map<string, Completion>
    var cancelled: map<string, seq<string>>
    var submission: Option<string>
    var timer: Option<Instant>
    var nextWorkerAt: Option<Instant>
    var submissions: seq<string>

    function View(): State
      reads this
    {
      State(pending, outstanding, results, cancelled, submission, timer, nextWorkerAt, submissions)
    }

    constructor (steps: seq<Step>, config: Config)
      ensures View() == Initial(steps) && known == StepIds(steps) && this.config == config
    {
      known := StepIds(steps);
      this.config := config;
      pending, outstanding, results, cancelled := steps, {}, map[], map[];
      submission, timer, nextWorkerAt, submissions := None, None, None, [];
    }

    method DeliverMessages(messages: seq<Message>) returns (accepted: bool)
      modifies this
      ensures accepted <==> DeliverAll(known, config, old(View()), messages).Accepted?
      ensures accepted ==> DeliverAll(known, config, old(View()), messages) == Accepted(View())
    {
      for i := 0 to |messages|
        invariant DeliverAll(known, config, old(View()), messages) == DeliverAll(known, config, View(), messages[i..])
      {
        assert messages[i..][0] == messages[i] && messages[i..][1..] == messages[i + 1..];
        match messages[i]
        case Completed(step, succeeded, at) =>
          if step !in known {
            return false;
          }
          if step !in results {
            if config.cooldown.Some? {
              nextWorkerAt := Some(at + config.cooldown.value);
            }
            results := results[step := Completion(succeeded, at)];
          }
          outstanding := outstanding - {step};
        case CancelledNote(step) =>
          if step !in known {
            return false;
          }
          if step !in cancelled {
            cancelled := cancelled[step := []];
          }
          pending := WithoutStep(pending, step);
        case TimerDue =>
      }
      return true;
    }

    /** Visits the steps that waited when the scan began; a serial Runner stops early. */
    method ScanPending(turn: Turn) returns (nextDue: Option<Instant>)
      modifies this
      ensures Scanned(View(), nextDue) == Scan(config, Scanned(old(View()), None), old(pending), turn)
    {
      nextDue := None;
      var waiting := pending;
      var i := 0;
      while i < |waiting|
        invariant 0 <= i <= |waiting|
        invariant Scan(config, Scanned(old(View()), None), waiting, turn)
               == Scan(config, Scanned(View(), nextDue), waiting[i..], turn)
      {
        hide FailedAmong, StepEligibility, WithoutStep;
        assert waiting[i..][0] == waiting[i] && waiting[i..][1..] == waiting[i + 1..];
        var step := waiting[i];
        if config.cooldown.Some? {
          if outstanding != {} || submission.Some? {
            break;
          }
          if nextWorkerAt.Some? && turn.now < nextWorkerAt.value {
            nextDue := nextWorkerAt;
            break;
          }
        }
        ghost var before := Scanned(View(), nextDue);
        var failed := FailedAmong(View(), step.dependencies);
        if failed != [] {
          cancelled, pending := cancelled[step.id := failed], WithoutStep(pending, step.id);
        } else if forall d | d in step.dependencies :: d in results {
          var eligibility := StepEligibility(step, config.createdAt, turn.now, results);
          if eligibility.blocked {
            cancelled, pending := cancelled[step.id := []], WithoutStep(pending, step.id);
          } else if eligibility.ready {
            if submission.None? && (config.window.None? || |outstanding| < config.window.value)
               && step.id !in turn.late {
              outstanding, submission := outstanding + {step.id}, Some(step.id);
              submissions, pending := submissions + [step.id], WithoutStep(pending, step.id);
            }
          } else if eligibility.dueAt.Some? {
            nextDue := Earliest(nextDue, eligibility.dueAt.value);
          }
        }
        assert Scanned(View(), nextDue) == Visit(config, before, step, turn);
        i := i + 1;
      }
    }

    method TakeTurn(turn: Turn) returns (verdict: Verdict)
      modifies this
      ensures verdict == RunnerLoop.TakeTurn(known, config, old(View()), turn).verdict
      ensures verdict != Refused ==> View() == RunnerLoop.TakeTurn(known, config, old(View()), turn).state
    {
      var accepted := DeliverMessages(turn.messages);
      if !accepted {
        return Refused;
      }
      if turn.submitted {
        submission := None;
      }
      if turn.fired {
        timer := None;
      }
      var nextDue := ScanPending(turn);
      if nextDue.None? {
        timer := None;
      } else if timer.None? || nextDue.value < timer.value {
        timer := nextDue;
      }
      return Judge(View(), turn);
    }

    /**
      Takes turns until the loop exits or the observed turns end. Whatever happens, steps stay
      accounted for and the unresolved-dependency error is never raised.
     */
    method Execute(ghost steps: seq<Step>, turns: seq<Turn>) returns (verdict: Verdict)
      requires Ordered(steps) && config.Valid() && HonestRun(steps, config, turns)
      requires View() == Initial(steps) && known == StepIds(steps)
      modifies this
      ensures RunnerLoop.Run(View(), verdict) == Runs(steps, config, turns)
      ensures Inv(steps, config, View()) && verdict != Unresolved && verdict != Refused
    {
      hide Inv, Ordered, HonestRun, RunnerLoop.TakeTurn;
      verdict := if pending == [] then Finished else Continue;
      HonestUpTo(steps, config, turns, 0);
      for i := 0 to |turns|
        invariant RunnerLoop.Run(View(), verdict) == Runs(steps, config, turns[..i])
        invariant HonestRun(steps, config, turns[..i]) && verdict != Refused
      {
        assert turns[..i + 1][..i] == turns[..i];
        HonestUpTo(steps, config, turns, i + 1);
        RunAccounted(steps, config, turns[..i + 1]);
        if verdict == Continue {
          verdict := TakeTurn(turns[i]);
        }
      }
      assert turns[..|turns|] == turns;
      RunAccounted(steps, config, turns);
    }
  }

  lemma HonestUpTo(steps: seq<Step>, config: Config, turns: seq<Turn>, n: nat)
    requires n <= |turns| && HonestRun(steps, config, turns)
    ensures HonestRun(steps, config, turns[..n])
  {
    forall k | 0 <= k < n && Runs(steps, config, turns[..n][..k]).verdict == Continue
      ensures HonestTurn(Runs(steps, config, turns[..n][..k]).state, turns[..n][k])
    {
      assert turns[..n][..k] == turns[..k];
    }
  }
}
