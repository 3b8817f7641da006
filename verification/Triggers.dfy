/** Pure readiness conditions shared by task graphs and Runner steps. Time is exact. */
module Triggers {
  import opened Outcomes

  type Instant = real

  datatype Completion = Completion(succeeded: bool, completedAt: Instant)

  datatype Eligibility = Eligibility(ready: bool, dueAt: Option<Instant>, blocked: bool)

  function Later(a: Instant, b: Instant): Instant {
    if a < b then b else a
  }

  function DateTrigger(dueAt: Instant, now: Instant): Eligibility {
    Eligibility(now >= dueAt, Some(dueAt), false)
  }

  function DelayTrigger(anchor: Instant, seconds: real, now: Instant): Eligibility {
    DateTrigger(anchor + seconds, now)
  }

  /** The latest completion among the given steps, or the default when there is none. */
  function LatestCompletion(steps: seq<string>, completions: map<string, Completion>, default: Instant): Instant
    requires forall step | step in steps :: step in completions
  {
    if steps == [] then default
    else if |steps| == 1 then completions[steps[0]].completedAt
    else Later(completions[steps[0]].completedAt, LatestCompletion(steps[1..], completions, default))
  }

  function DependencyTrigger(dependencies: seq<string>, createdAt: Instant, delay: real, now: Instant,
                             completions: map<string, Completion>): Eligibility {
    if exists d | d in dependencies :: d in completions && !completions[d].succeeded then
      Eligibility(false, None, true)
    else if exists d | d in dependencies :: d !in completions then
      Eligibility(false, None, false)
    else
      DelayTrigger(LatestCompletion(dependencies, completions, createdAt), delay, now)
  }

  /**
    Blocked by a failure; ready once the delay has passed since every success, or since the creation if
    there is none.
   */
  lemma TriggerExactly(dependencies: seq<string>, createdAt: Instant, delay: real, now: Instant,
                       completions: map<string, Completion>)
    ensures var eligibility := DependencyTrigger(dependencies, createdAt, delay, now, completions);
      && (eligibility.blocked <==> exists d :: d in dependencies && d in completions && !completions[d].succeeded)
      && (eligibility.ready <==>
            && (dependencies == [] ==> createdAt + delay <= now)
            && forall d | d in dependencies ::
                 d in completions && completions[d].succeeded && completions[d].completedAt + delay <= now)
      && (eligibility.ready ==> eligibility.dueAt.Some? && eligibility.dueAt.value <= now)
      && (eligibility.dueAt.Some? ==>
            && (dependencies == [] ==> eligibility.dueAt.value == createdAt + delay)
            && (dependencies != [] ==>
                  exists d :: d in dependencies && d in completions
                              && eligibility.dueAt.value == completions[d].completedAt + delay))
  {
    if forall d | d in dependencies :: d in completions && completions[d].succeeded {
      LatestBounds(dependencies, completions, createdAt);
    }
  }

  lemma AllSucceeded(dependencies: seq<string>, createdAt: Instant, delay: real, now: Instant,
                     completions: map<string, Completion>)
    requires forall d | d in dependencies :: d in completions && completions[d].succeeded
    ensures DependencyTrigger(dependencies, createdAt, delay, now, completions)
         == DateTrigger(LatestCompletion(dependencies, completions, createdAt) + delay, now)
  {
  }

  lemma {:induction false} LatestBounds(steps: seq<string>, completions: map<string, Completion>, default: Instant)
    requires forall step | step in steps :: step in completions
    ensures forall step | step in steps ::
              completions[step].completedAt <= LatestCompletion(steps, completions, default)
    ensures steps == [] || exists step | step in steps ::
              completions[step].completedAt == LatestCompletion(steps, completions, default)
  {
    if |steps| > 1 {
      LatestBounds(steps[1..], completions, default);
      assert forall step | step in steps :: step == steps[0] || step in steps[1..];
      var late :| late in steps[1..]
               && completions[late].completedAt == LatestCompletion(steps[1..], completions, default);
      assert late in steps && steps[0] in steps;
    } else if |steps| == 1 {
      assert steps[0] in steps;
    }
  }
}
