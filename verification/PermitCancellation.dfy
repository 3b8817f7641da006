/** Cancelling a Runner: none of its submits starts a Worker any more, and they give back what they hold. */
module PermitCancellation {
  import opened RuntimeTree
  import opened PermitProtocol

  /** The Runner's submits that reserve a Worker or run it. */
  function Started(state: State, runner: string): set<Key> {
    set key | key in state.jobs && key.runner == runner && state.jobs[key].HoldsCapacity()
  }

  lemma StepStartsNothing(state: State, event: Event, runner: string)
    requires Step(state, event).Some? && runner in state.cancelled && event != Unregister(runner)
    ensures runner in Step(state, event).value.cancelled
    ensures Started(Step(state, event).value, runner) <= Started(state, runner)
  {
    hide Strands, WorkersOf, Shared, Dropped;
    if event.Register? {
      AddGatesKeepSubmits(state, event.entries);
    }
  }

  lemma {:induction false} AddGatesKeepSubmits(state: State, entries: seq<Limit>)
    ensures AddGates(state, entries).0.jobs == state.jobs
    ensures AddGates(state, entries).0.cancelled == state.cancelled
    decreases |entries|
  {
    if entries != [] && Usable(state, entries[0]) {
      AddGatesKeepSubmits(AddGate(state, entries[0]), entries[1..]);
    }
  }

  /**
    In every run, from the cancellation until the Runner is unregistered no submit of it gets a Worker
    that had none.
   */
  lemma {:induction false} CancelledStartsNothing(totals: Totals, before: seq<Event>, after: seq<Event>, runner: string)
    requires Run(totals, before + after).Some?
    requires Run(totals, before).Some? && runner in Run(totals, before).value.cancelled
    requires Unregister(runner) !in after
    ensures runner in Run(totals, before + after).value.cancelled
    ensures Started(Run(totals, before + after).value, runner) <= Started(Run(totals, before).value, runner)
    decreases |after|
  {
    hide Step, Started;
    if after == [] {
      assert before + after == before;
    } else {
      var most, last := after[..|after| - 1], after[|after| - 1];
      assert (before + after)[..|before + after| - 1] == before + most;
      assert after == most + [last];
      CancelledStartsNothing(totals, before, most, runner);
      StepStartsNothing(Run(totals, before + most).value, last, runner);
    }
  }

  /**
    A submit of a cancelled Runner that has all its gates leaves as soon as capacity is free, with
    everything given back.
   */
  lemma CancelledLeaves(state: State, key: Key)
    requires key in state.jobs && key.runner in state.cancelled && state.capacity > 0
    requires state.jobs[key].stage == Queued(|state.jobs[key].gates|)
    ensures Step(state, Advance(key)).Some?
    ensures var next := Step(state, Advance(key)).value;
      && key !in next.jobs && next.capacity == state.capacity && next.gates.Keys == state.gates.Keys
      && forall gate | gate in state.gates ::
           next.gates[gate] == state.gates[gate] + if gate in state.jobs[key].gates then 1 else 0
  {
    var gates := state.jobs[key].gates;
    assert gates[..|gates|] == gates;
  }
}
