/** What registration, admission and reservation amount to, in terms of the events of a run. */
module PermitSteps {
  import opened Collections
  import opened RuntimeTree
  import opened PermitProtocol

  // ------------------------------------------------ registration

  /** A gate listed with a limit has that limit, all permits free if it is new; any other is left as it is. */
  ghost predicate GateAdded(state: State, entries: seq<Limit>, next: State, gate: string) {
    && (forall entry | entry in entries && entry.runtime == gate ::
          gate in next.limits && next.limits[gate] == entry.workers
          && gate in next.gates
          && next.gates[gate] == if gate in state.gates then state.gates[gate] else entry.workers)
    && (gate !in Names(entries) ==> SameGate(state, next, gate))
  }

  ghost predicate SameGate(state: State, next: State, gate: string) {
    && (gate in next.limits <==> gate in state.limits) && (gate in next.gates <==> gate in state.gates)
    && (gate in state.limits ==> gate in next.limits && next.limits[gate] == state.limits[gate])
    && (gate in state.gates ==> gate in next.gates && next.gates[gate] == state.gates[gate])
  }

  lemma NamesMembers(entries: seq<Limit>)
    ensures forall gate :: gate in Names(entries) <==> exists entry :: entry in entries && entry.runtime == gate
  {
    forall entry | entry in entries ensures entry.runtime in Names(entries) {
      var k :| 0 <= k < |entries| && entries[k] == entry;
      assert Names(entries)[k] == entry.runtime;
    }
  }

  lemma FirstNameOnce(entries: seq<Limit>)
    requires entries != [] && Distinct(Names(entries))
    ensures Names(entries[1..]) == Names(entries)[1..] && Distinct(Names(entries[1..]))
    ensures entries[0].runtime !in Names(entries[1..])
  {
    assert Names(entries) == [entries[0].runtime] + Names(entries[1..]);
    forall k | 0 <= k < |entries| - 1 ensures Names(entries[1..])[k] != entries[0].runtime {
      assert Names(entries)[k + 1] == Names(entries[1..])[k];
    }
  }

  lemma {:induction false} AddGatesAt(state: State, entries: seq<Limit>, gate: string)
    requires Distinct(Names(entries)) && AddGates(state, entries).1
    ensures GateAdded(state, entries, AddGates(state, entries).0, gate)
    decreases |entries|
  {
    hide Distinct, GateAdded;
    if entries == [] {
      NothingAdded(state, gate);
    } else {
      FirstNameOnce(entries);
      AddGatesAt(AddGate(state, entries[0]), entries[1..], gate);
      FirstAdded(state, entries, AddGates(state, entries).0, gate);
    }
  }

  lemma NothingAdded(state: State, gate: string)
    ensures GateAdded(state, [], state, gate)
  {
  }

  lemma FirstAdded(state: State, entries: seq<Limit>, next: State, gate: string)
    requires entries != [] && Usable(state, entries[0]) && entries[0].runtime !in Names(entries[1..])
    requires GateAdded(AddGate(state, entries[0]), entries[1..], next, gate)
    ensures GateAdded(state, entries, next, gate)
  {
    NamesMembers(entries[1..]);
    if gate == entries[0].runtime {
      OwnGateAdded(state, entries, next);
    } else {
      OtherGateAdded(state, entries, next, gate);
    }
  }

  lemma OwnGateAdded(state: State, entries: seq<Limit>, next: State)
    requires entries != [] && Usable(state, entries[0])
    requires forall entry | entry in entries[1..] :: entry.runtime != entries[0].runtime
    requires SameGate(AddGate(state, entries[0]), next, entries[0].runtime)
    ensures GateAdded(state, entries, next, entries[0].runtime)
  {
    assert Names(entries)[0] == entries[0].runtime;
    assert forall entry | entry in entries :: entry == entries[0] || entry in entries[1..];
    hide Names;
  }

  lemma OtherGateAdded(state: State, entries: seq<Limit>, next: State, gate: string)
    requires entries != [] && gate != entries[0].runtime
    requires GateAdded(AddGate(state, entries[0]), entries[1..], next, gate)
    ensures GateAdded(state, entries, next, gate)
  {
    assert Names(entries) == [entries[0].runtime] + Names(entries[1..]);
    assert forall entry | entry in entries :: entry == entries[0] || entry in entries[1..];
    hide Names;
  }

  lemma OthersAsUsable(state: State, first: Limit)
    ensures forall entry: Limit | entry.runtime != first.runtime ::
              Usable(AddGate(state, first), entry) <==> Usable(state, entry)
    ensures var next := AddGate(state, first); next == state.(limits := next.limits, gates := next.gates)
  {
  }

  lemma {:induction false} AddGatesRest(state: State, entries: seq<Limit>)
    requires Distinct(Names(entries))
    ensures AddGates(state, entries).1 <==> forall entry | entry in entries :: Usable(state, entry)
    ensures var next := AddGates(state, entries).0; next == state.(limits := next.limits, gates := next.gates)
    decreases |entries|
  {
    hide Distinct;
    if entries != [] {
      var first, rest := entries[0], entries[1..];
      FirstNameOnce(entries);
      NamesMembers(rest);
      assert forall entry :: entry in entries <==> entry == first || entry in rest;
      if Usable(state, first) {
        AddGatesRest(AddGate(state, first), rest);
        OthersAsUsable(state, first);
        hide Usable, AddGate;
        assert forall entry | entry in rest :: entry.runtime != first.runtime;
      }
    }
  }

  /** A Runner is registered exactly when all its limits are usable, and then lists exactly these gates. */
  lemma RegisterMeans(state: State, runner: string, entries: seq<Limit>)
    requires Distinct(Names(entries))
    ensures var next := RegisterRunner(state, runner, entries);
      && next == state.(limits := next.limits, gates := next.gates, runtimes := next.runtimes)
      && if forall entry | entry in entries :: Usable(state, entry) then
           next.runtimes == state.runtimes[runner := Names(entries)]
           && forall gate :: GateAdded(state, entries, next, gate)
         else next.runtimes == state.runtimes
  {
    AddGatesRest(state, entries);
    if AddGates(state, entries).1 {
      forall gate ensures GateAdded(state, entries, RegisterRunner(state, runner, entries), gate) {
        AddGatesAt(state, entries, gate);
      }
    }
  }

  /** A gate goes with its Runner exactly when no other Runner lists it; every other gate keeps its permits. */
  lemma UnregisterMeans(state: State, runner: string)
    ensures var next := UnregisterRunner(state, runner);
      && (forall gate :: gate in next.gates <==>
            && gate in state.gates
            && (gate in Listed(state, runner) ==>
                  exists other :: other != runner && other in state.runtimes && gate in state.runtimes[other]))
      && (forall gate | gate in next.gates :: next.gates[gate] == state.gates[gate])
      && runner !in next.runtimes && runner !in next.cancelled
      && (forall other | other != runner ::
            && (other in next.runtimes <==> other in state.runtimes)
            && (other in state.runtimes ==> next.runtimes[other] == state.runtimes[other])
            && (other in next.cancelled <==> other in state.cancelled))
      && next.jobs == state.jobs && next.admitted == state.admitted && next.capacity == state.capacity
  {
    var others := OtherLists(state, runner);
    forall gate
      ensures Shared(others, gate) <==>
              exists other :: other != runner && other in state.runtimes && gate in state.runtimes[other]
    {
      if other :| other != runner && other in state.runtimes && gate in state.runtimes[other] {
        assert other in others;
      }
    }
  }

  // ------------------------------------------------ admission

  /** A submit leaves admission only with a permit in its Runner's name, and then awaits its first gate. */
  lemma AdmissionMeans(state: State, key: Key)
    requires key in state.jobs && state.jobs[key].stage.Admitting?
    ensures Step(state, Advance(key)).Some? <==> key.runner in state.admitted || state.admission > 0
    ensures Step(state, Advance(key)).Some? ==>
              var next := Step(state, Advance(key)).value;
              && next.admitted == state.admitted + {key.runner}
              && next.jobs == state.jobs[key := Job(state.jobs[key].gates, Queued(0))]
              && next.admission == state.admission - (if key.runner in state.admitted then 0 else 1)
  {
    assert key.runner in state.admitted ==> state.admitted + {key.runner} == state.admitted;
  }

  // ------------------------------------------------ reservation

  /** The last word on a submit: was it accepted, or has it finished since? */
  function AcceptedLast(events: seq<Event>, key: Key): bool {
    if events == [] then false
    else
      var last := events[|events| - 1];
      if last == Reserve(key, true) then true
      else if last == Finish(key) then false
      else AcceptedLast(events[..|events| - 1], key)
  }

  predicate Works(state: State, key: Key) {
    key in state.jobs && state.jobs[key].stage.Running?
  }

  lemma StepWorks(state: State, event: Event, key: Key)
    requires Step(state, event).Some?
    ensures Works(Step(state, event).value, key)
       <==> event == Reserve(key, true) || (event != Finish(key) && Works(state, key))
  {
    hide Strands, WorkersOf, Dropped, Shared;
    if event.Register? {
      AddGatesKeepJobs(state, event.entries);
    }
  }

  lemma {:induction false} AddGatesKeepJobs(state: State, entries: seq<Limit>)
    ensures AddGates(state, entries).0.jobs == state.jobs
    decreases |entries|
  {
    if entries != [] && Usable(state, entries[0]) {
      AddGatesKeepJobs(AddGate(state, entries[0]), entries[1..]);
    }
  }

  /**
    In every run the Workers are exactly the submits whose reservation was accepted and that have not
    finished since.
   */
  lemma {:induction false} WorkersAreAccepted(totals: Totals, events: seq<Event>, key: Key)
    requires Run(totals, events).Some?
    ensures Works(Run(totals, events).value, key) <==> AcceptedLast(events, key)
    decreases |events|
  {
    hide Step, Works;
    if events == [] {
      NobodyWorks(totals, key);
    } else {
      var before, last := events[..|events| - 1], events[|events| - 1];
      WorkersAreAccepted(totals, before, key);
      StepWorks(Run(totals, before).value, last, key);
    }
  }

  lemma NobodyWorks(totals: Totals, key: Key)
    ensures !Works(Initial(totals), key)
  {
  }

  /**
    Workers finish, other submits are aborted, and only a submit with every permit of its list and
    capacity is decided.
   */
  lemma EndsExactly(state: State, key: Key)
    ensures Step(state, Finish(key)).Some? <==> Works(state, key)
    ensures Step(state, Abort(key)).Some? <==> key in state.jobs && !Works(state, key)
    ensures forall accepted ::
              Step(state, Reserve(key, accepted)).Some? <==>
              key in state.jobs && !Works(state, key) && state.jobs[key].HoldsCapacity()
    ensures Step(state, Reserve(key, false)).Some? ==> Step(state, Reserve(key, false)) == Step(state, Abort(key))
  {
  }

  /** A refusal comes from the first limit that is not usable; the gates before it stay added. */
  lemma {:induction false} RefusedAtFirst(state: State, entries: seq<Limit>) returns (k: nat)
    requires !AddGates(state, entries).1
    ensures k < |entries| && AddGates(state, entries[..k]) == (AddGates(state, entries).0, true)
    ensures !Usable(AddGates(state, entries).0, entries[k])
    decreases |entries|
  {
    if !Usable(state, entries[0]) {
      k := 0;
    } else {
      var later := RefusedAtFirst(AddGate(state, entries[0]), entries[1..]);
      k := later + 1;
      assert entries[..k][1..] == entries[1..][..later];
    }
  }
}
