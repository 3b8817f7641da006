/** Over whole runs: no Runner starts while an earlier stage of its campaign is unfinished. */
module RoundBarrier {
  import opened Outcomes
  import opened Rounds

  type Statuses = map<string, Status>

  /** What the database holds, and the Runners published to the ready queue, possibly long ago. */
  datatype State = State(runners: map<string, Runner>, statuses: Statuses, published: set<string>)

  ghost predicate Consistent(state: State) {
    && state.runners.Keys == state.statuses.Keys
    && (forall id | id in state.runners :: state.runners[id].id == id)
  }

  /**
    A pass reads which Runners are queued and, later, the states of their campaigns' rounds. The first
    list may be out of date by then, so any list of Runners can be published that passes the states.
   */
  datatype Event = Publish(listed: seq<Runner>, states: seq<RoundState>) | Start(id: string) | End(id: string)

  /** The states read are those of the round Runners not yet terminal. */
  ghost predicate Observed(state: State, states: seq<RoundState>) {
    forall campaign, round :: Unfinished(states, campaign, round) <==> StageUnfinished(state, campaign, round)
  }

  ghost predicate StageUnfinished(state: State, campaign: string, round: int) {
    exists id | id in state.runners && id in state.statuses ::
      state.runners[id].campaign == campaign && state.runners[id].round == Some(round) && state.statuses[id] != Terminal
  }

  function Ids(runners: seq<Runner>): set<string> {
    set runner | runner in runners :: runner.id
  }

  /** `None` when the event is not enabled; starting a Runner that is no longer queued changes nothing. */
  ghost function Step(state: State, event: Event): Option<State> {
    match event
    case Publish(listed, states) =>
      if Observed(state, states) && forall runner | runner in listed ::
        runner.id in state.runners && state.runners[runner.id] == runner then
        Some(state.(published := state.published + Ids(Passing(listed, states))))
      else None
    case Start(id) =>
      if id !in state.published || id !in state.statuses then None
      else if state.statuses[id] != Queued then Some(state)
      else Some(state.(statuses := state.statuses[id := Running]))
    case End(id) => if id in state.statuses then Some(state.(statuses := state.statuses[id := Terminal])) else None
  }

  ghost function Run(state: State, events: seq<Event>): Option<State>
    decreases |events|
  {
    if events == [] then Some(state)
    else
      var before := Run(state, events[..|events| - 1]);
      if before.None? then None else Step(before.value, events[|events| - 1])
  }

  ghost predicate EarlierStagesDone(state: State, runner: Runner) {
    runner.round.Some? ==> forall round | round < runner.round.value :: !StageUnfinished(state, runner.campaign, round)
  }

  ghost predicate Inv(state: State) {
    && Consistent(state)
    && forall id | id in state.published :: id in state.runners && EarlierStagesDone(state, state.runners[id])
  }

  lemma {:induction false} PassingMembers(runners: seq<Runner>, states: seq<RoundState>)
    ensures forall runner | runner in Passing(runners, states) :: runner in runners && Ready(runner, states)
    decreases |runners|
  {
    if runners != [] {
      var last := |runners| - 1;
      assert runners == runners[..last] + [runners[last]];
      PassingMembers(runners[..last], states);
    }
  }

  lemma PublishKeeps(state: State, listed: seq<Runner>, states: seq<RoundState>)
    requires Inv(state) && Step(state, Publish(listed, states)).Some?
    ensures Inv(Step(state, Publish(listed, states)).value)
  {
    var next := Step(state, Publish(listed, states)).value;
    PassingMembers(listed, states);
    forall id | id in next.published ensures id in next.runners && EarlierStagesDone(next, next.runners[id]) {
      if id !in state.published {
        var runner :| runner in Passing(listed, states) && runner.id == id;
        forall round | runner.round.Some? && round < runner.round.value
          ensures !StageUnfinished(next, runner.campaign, round)
        {
          assert !Unfinished(states, runner.campaign, round);
          assert StageUnfinished(next, runner.campaign, round) ==> StageUnfinished(state, runner.campaign, round);
        }
      } else {
        StagesStayDone(state, next, state.runners[id]);
      }
    }
  }

  /** Finished stages stay finished: no event makes a terminal Runner queued or running again. */
  lemma StagesStayDone(state: State, next: State, runner: Runner)
    requires EarlierStagesDone(state, runner) && next.runners == state.runners
             && next.statuses.Keys == state.statuses.Keys
    requires forall id | id in state.statuses && state.statuses[id] == Terminal :: next.statuses[id] == Terminal
    ensures EarlierStagesDone(next, runner)
  {
    if runner.round.Some? {
      forall round | round < runner.round.value ensures !StageUnfinished(next, runner.campaign, round) {
        assert StageUnfinished(next, runner.campaign, round) ==> StageUnfinished(state, runner.campaign, round);
      }
    }
  }

  lemma StepKeeps(state: State, event: Event)
    requires Inv(state) && Step(state, event).Some?
    ensures Inv(Step(state, event).value)
  {
    if event.Publish? {
      PublishKeeps(state, event.listed, event.states);
    } else {
      var next := Step(state, event).value;
      forall id | id in next.published ensures EarlierStagesDone(next, next.runners[id]) {
        StagesStayDone(state, next, state.runners[id]);
      }
    }
  }

  lemma {:induction false} RunKeeps(state: State, events: seq<Event>)
    requires Inv(state) && Run(state, events).Some?
    ensures Inv(Run(state, events).value)
    decreases |events|
  {
    hide Inv, Step;
    if events != [] {
      RunKeeps(state, events[..|events| - 1]);
      StepKeeps(Run(state, events[..|events| - 1]).value, events[|events| - 1]);
    }
  }

  /**
    The barrier: whatever passes and claims came before, and however stale the queue the Runner was
    claimed from, every Runner of an earlier stage of its campaign is terminal when it starts.
   */
  lemma NoEarlyStart(state: State, events: seq<Event>, id: string, other: string)
    requires Consistent(state) && state.published == {} && Run(state, events).Some?
    requires Step(Run(state, events).value, Start(id)).Some?
    requires Run(state, events).value.statuses[id] == Queued
    requires var last := Run(state, events).value;
      && id in last.runners && other in last.runners && other in last.statuses
      && last.runners[other].campaign == last.runners[id].campaign
      && last.runners[other].round.Some? && last.runners[id].round.Some?
      && last.runners[other].round.value < last.runners[id].round.value
    ensures Run(state, events).value.statuses[other] == Terminal
  {
    hide Run;
    RunKeeps(state, events);
    var last := Run(state, events).value;
    assert EarlierStagesDone(last, last.runners[id]);
    assert !StageUnfinished(last, last.runners[id].campaign, last.runners[other].round.value);
  }

  /** A ready Runner stays ready until it is itself terminal. */
  lemma ReadyStaysReady(state: State, event: Event, id: string)
    requires Consistent(state) && Step(state, event).Some? && id in state.runners && state.runners[id].round.Some?
    requires EarlierStagesDone(state, state.runners[id]) && Step(state, event).value.statuses[id] != Terminal
    ensures var next := Step(state, event).value;
      EarlierStagesDone(next, next.runners[id])
      && StageUnfinished(next, next.runners[id].campaign, next.runners[id].round.value)
  {
    var next := Step(state, event).value;
    StagesStayDone(state, next, state.runners[id]);
    assert id in next.runners && id in next.statuses;
  }

  /** An unfinished campaign always has an executable stage: the earliest unfinished one passes. */
  lemma {:induction false} SomeStagePasses(state: State, states: seq<RoundState>, id: string, lowest: int)
    returns (ready: string)
    requires Consistent(state) && Observed(state, states)
    requires id in state.runners && state.runners[id].round.Some? && state.statuses[id] != Terminal
    requires forall other | other in state.runners && state.runners[other].round.Some? ::
               state.runners[other].round.value >= lowest
    ensures ready in state.runners && state.runners[ready].campaign == state.runners[id].campaign
    ensures state.statuses[ready] != Terminal && Ready(state.runners[ready], states)
    decreases state.runners[id].round.value - lowest
  {
    var runner := state.runners[id];
    assert StageUnfinished(state, runner.campaign, runner.round.value);
    if Ready(runner, states) {
      ready := id;
    } else {
      var round :| round < runner.round.value && Unfinished(states, runner.campaign, round);
      assert StageUnfinished(state, runner.campaign, round);
      var other :| other in state.runners && other in state.statuses && state.runners[other].campaign == runner.campaign
                   && state.runners[other].round == Some(round) && state.statuses[other] != Terminal;
      ready := SomeStagePasses(state, states, other, lowest);
    }
  }

  lemma {:induction false} ReadyPass(runners: seq<Runner>, states: seq<RoundState>)
    ensures forall runner :: runner in Passing(runners, states) <==> runner in runners && Ready(runner, states)
    decreases |runners|
  {
    if runners != [] {
      var last := |runners| - 1;
      assert runners == runners[..last] + [runners[last]];
      ReadyPass(runners[..last], states);
    }
  }

  /** A queued Runner that is ready when a pass lists it can start afterwards, and then runs. */
  lemma ListedCanStart(state: State, listed: seq<Runner>, states: seq<RoundState>, runner: Runner)
    requires Consistent(state) && Step(state, Publish(listed, states)).Some?
    requires runner in listed && Ready(runner, states) && state.statuses[runner.id] == Queued
    ensures var next := Step(state, Publish(listed, states)).value;
      && Step(next, Start(runner.id)).Some?
      && Step(next, Start(runner.id)).value.statuses == state.statuses[runner.id := Running]
  {
    ReadyPass(listed, states);
    assert runner in Passing(listed, states);
  }

  // ------------------------------------------------ every campaign can be finished

  function Open(state: State): set<string> {
    set id | id in state.statuses && state.statuses[id] != Terminal
  }

  ghost predicate Lists(state: State, ids: set<string>, states: seq<RoundState>) {
    forall campaign, round ::
      Unfinished(states, campaign, round) <==> exists id :: id in ids && OpenIn(state, id, campaign, round)
  }

  predicate OpenIn(state: State, id: string, campaign: string, round: int) {
    id in state.runners && id in state.statuses && state.runners[id].campaign == campaign
    && state.runners[id].round == Some(round) && state.statuses[id] != Terminal
  }

  function OwnState(state: State, id: string): seq<RoundState>
    requires id in state.runners && id in state.statuses
  {
    var runner := state.runners[id];
    if runner.round.Some? then [RoundState(runner.campaign, runner.round.value, state.statuses[id])] else []
  }

  /** The states that a pass would read can be listed. */
  lemma {:induction false} StatesListed(state: State, ids: set<string>) returns (states: seq<RoundState>)
    requires Consistent(state) && ids <= state.runners.Keys
    ensures Lists(state, ids, states)
    decreases |ids|
  {
    if ids == {} {
      states := [];
    } else {
      var id :| id in ids;
      var rest := StatesListed(state, ids - {id});
      states := rest + OwnState(state, id);
      OneMoreListed(state, ids, id, rest, states);
    }
  }

  lemma OneMoreListed(state: State, ids: set<string>, id: string, rest: seq<RoundState>, states: seq<RoundState>)
    requires id in ids && id in state.runners && id in state.statuses && Lists(state, ids - {id}, rest)
    requires states == rest + OwnState(state, id)
    ensures Lists(state, ids, states)
  {
    forall campaign, round
      ensures Unfinished(states, campaign, round)
              <==> Unfinished(rest, campaign, round) || OpenIn(state, id, campaign, round)
    {
      var runner := state.runners[id];
      if runner.round.Some? {
        var last := RoundState(runner.campaign, runner.round.value, state.statuses[id]);
        assert last in states && forall other :: other in states <==> other in rest || other == last;
      } else {
        assert states == rest;
      }
    }
    hide Unfinished, OpenIn;
    forall campaign, round
      ensures Unfinished(states, campaign, round) <==> exists other ::
                other in ids && OpenIn(state, other, campaign, round)
    {
      assert ids == (ids - {id}) + {id};
    }
  }

  lemma ListedIsObserved(state: State, states: seq<RoundState>)
    requires Consistent(state) && Lists(state, state.runners.Keys, states)
    ensures Observed(state, states)
  {
    forall campaign, round ensures Unfinished(states, campaign, round) <==> StageUnfinished(state, campaign, round) {
      assert StageUnfinished(state, campaign, round) <==>
               exists id :: id in state.runners.Keys && OpenIn(state, id, campaign, round);
    }
  }

  lemma {:induction false} LowestRound(state: State, ids: set<string>) returns (lowest: int)
    requires ids <= state.runners.Keys
    ensures forall id | id in ids && state.runners[id].round.Some? :: state.runners[id].round.value >= lowest
    decreases |ids|
  {
    if ids == {} {
      lowest := 0;
    } else {
      var id :| id in ids;
      lowest := LowestRound(state, ids - {id});
      if state.runners[id].round.Some? && state.runners[id].round.value < lowest {
        lowest := state.runners[id].round.value;
      }
    }
  }

  /** Some Runner that is not yet terminal passes the barrier. */
  lemma SomeRunnerPasses(state: State) returns (ready: string, states: seq<RoundState>)
    requires Consistent(state) && Open(state) != {}
    ensures ready in Open(state) && ready in state.runners && Observed(state, states)
    ensures Ready(state.runners[ready], states)
  {
    hide Observed, Lists;
    states := StatesListed(state, state.runners.Keys);
    ListedIsObserved(state, states);
    var id :| id in Open(state);
    assert id in state.runners;
    if state.runners[id].round.None? {
      ready := id;
    } else {
      var lowest := LowestRound(state, state.runners.Keys);
      ready := SomeStagePasses(state, states, id, lowest);
    }
  }

  /** Published, started and ended, it is terminal, and all others are as they were. */
  lemma OneFinishes(state: State, id: string, states: seq<RoundState>)
    requires Consistent(state) && id in Open(state) && Observed(state, states) && Ready(state.runners[id], states)
    ensures var published := Step(state, Publish([state.runners[id]], states));
      published.Some? && var started := Step(published.value, Start(id));
      started.Some? && Step(started.value, End(id))
                       == Some(published.value.(statuses := state.statuses[id := Terminal]))
    ensures Step(state, Publish([state.runners[id]], states)).value.runners == state.runners
  {
    var runner := state.runners[id];
    ReadyPass([runner], states);
    assert runner in Passing([runner], states);
    assert state.statuses[id := Running][id := Terminal] == state.statuses[id := Terminal];
  }

  lemma RunMore(state: State, events: seq<Event>, event: Event)
    ensures Run(state, events + [event])
         == if Run(state, events).None? then None else Step(Run(state, events).value, event)
  {
    assert (events + [event])[..|events|] == events;
  }

  lemma {:induction false} CanFinishFrom(state: State, events: seq<Event>) returns (whole: seq<Event>)
    requires Run(state, events).Some? && Consistent(Run(state, events).value)
    ensures Run(state, whole).Some? && Open(Run(state, whole).value) == {}
    decreases |Open(Run(state, events).value)|
  {
    hide Run, Step, Observed;
    var last := Run(state, events).value;
    if Open(last) == {} {
      return events;
    }
    var id, states := SomeRunnerPasses(last);
    OneFinishes(last, id, states);
    var publish := Publish([last.runners[id]], states);
    RunMore(state, events, publish);
    RunMore(state, events + [publish], Start(id));
    RunMore(state, events + [publish] + [Start(id)], End(id));
    var more := events + [publish] + [Start(id)] + [End(id)];
    var next := Run(state, more).value;
    assert Open(next) == Open(last) - {id};
    whole := CanFinishFrom(state, more);
  }

  /** The barrier never locks a campaign out: from every consistent state some run ends all Runners. */
  lemma EveryCampaignCanFinish(state: State) returns (events: seq<Event>)
    requires Consistent(state)
    ensures Run(state, events).Some?
    ensures forall id | id in Run(state, events).value.statuses :: Run(state, events).value.statuses[id] == Terminal
  {
    events := CanFinishFrom(state, []);
    assert forall id | id in Run(state, events).value.statuses :: id !in Open(Run(state, events).value);
  }
}
