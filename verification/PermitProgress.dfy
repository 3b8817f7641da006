/** The fixed order of acquisition excludes deadlock; without a common order of gates it does not. */
module PermitProgress {
  import opened Outcomes
  import opened RuntimeTree
  import opened PermitProtocol
  import opened PermitConservation

  /** Every Runner lists its runtimes, and every submit takes them, child before parent under one order. */
  ghost predicate OrderedGates(state: State, order: string -> nat) {
    && (forall runner | runner in state.runtimes :: Descending(order, state.runtimes[runner]))
    && (forall key | key in state.jobs :: Descending(order, state.jobs[key].gates))
  }

  /** Every registration lists its runtimes in the order. */
  ghost predicate OrderedRegistrations(events: seq<Event>, order: string -> nat) {
    forall event | event in events && event.Register? :: Descending(order, Names(event.entries))
  }

  lemma StepOrdered(state: State, event: Event, order: string -> nat)
    requires Step(state, event).Some? && OrderedGates(state, order)
    requires event.Register? ==> Descending(order, Names(event.entries))
    ensures OrderedGates(Step(state, event).value, order)
  {
    hide Descending;
    match event
    case Register(runner, entries) => AddGatesKeepLists(state, entries);
    case Begin(key) => NothingListed(order);
    case Unregister(runner) =>
    case Advance(key) =>
      StepKeepsGates(state, event);
    case Reserve(key, accepted) =>
    case Abort(key) =>
    case Finish(key) =>
    case Cancel(runner) =>
    case Admit(owner) =>
    case Transfer(slot, owner) =>
    case Dismiss(owner) =>
  }

  lemma StepKeepsGates(state: State, event: Event)
    requires event.Advance? && Step(state, event).Some?
    ensures var next := Step(state, event).value;
      && next.runtimes == state.runtimes
      && forall key | key in next.jobs :: key in state.jobs && next.jobs[key].gates == state.jobs[key].gates
  {
  }

  lemma NothingListed(order: string -> nat)
    ensures Descending(order, [])
  {
  }

  lemma {:induction false} AddGatesKeepLists(state: State, entries: seq<Limit>)
    ensures AddGates(state, entries).0.runtimes == state.runtimes && AddGates(state, entries).0.jobs == state.jobs
    decreases |entries|
  {
    if entries != [] && Usable(state, entries[0]) {
      AddGatesKeepLists(AddGate(state, entries[0]), entries[1..]);
    }
  }

  lemma {:induction false} RunOrdered(totals: Totals, events: seq<Event>, order: string -> nat)
    requires Run(totals, events).Some? && OrderedRegistrations(events, order)
    ensures OrderedGates(Run(totals, events).value, order)
    decreases |events|
  {
    hide Step, Descending;
    if events != [] {
      var before, last := events[..|events| - 1], events[|events| - 1];
      assert forall event | event in before :: event in events;
      RunOrdered(totals, before, order);
      StepOrdered(Run(totals, before).value, last, order);
    }
  }

  /** Some submit is past its waits: a reservation is being written or a Worker runs. */
  predicate Executing(state: State) {
    exists key | key in state.jobs :: !state.jobs[key].Waiting()
  }

  predicate CanAdvance(state: State, key: Key) {
    key in state.jobs && Step(state, Advance(key)).Some?
  }

  lemma IdleCapacity(totals: Totals, state: State)
    requires CapacityBalanced(totals, state) && !Executing(state)
    ensures state.capacity == totals.capacity
  {
    assert CapacityHolders(state.jobs) == {};
  }

  /** Someone holds a gate that has no free permit; while nothing executes, it holds part of its list. */
  lemma BlockerOf(state: State, gate: string) returns (holder: Key)
    requires GatesBalanced(state) && JobsFit(state) && !Executing(state)
    requires gate in state.limits && state.gates[gate] == 0
    ensures holder in state.jobs && state.jobs[holder].stage.Queued? && state.jobs[holder].HoldsGate(gate)
    ensures JobFits(state, holder)
  {
    assert GateBalanced(state, gate);
    assert GateHolders(state.jobs, gate) != {};
    holder :| holder in GateHolders(state.jobs, gate);
    assert state.jobs[holder].Waiting();
  }

  /** Following blockers climbs the order, so it ends at a submit that can go on. */
  lemma {:induction false} ClimbToFree(totals: Totals, state: State, order: string -> nat, key: Key) returns (free: Key)
    requires Conserved(totals, state) && OrderedGates(state, order) && !Executing(state)
    requires totals.capacity >= 1 && key in state.jobs && state.jobs[key].stage.Queued?
    ensures CanAdvance(state, free)
    decreases NextHeight(state, order, key)
  {
    var gates, n := state.jobs[key].gates, state.jobs[key].stage.acquired;
    assert JobFits(state, key);
    if n == |gates| {
      IdleCapacity(totals, state);
      return key;
    }
    if state.gates[gates[n]] > 0 {
      return key;
    }
    var holder := BlockerOf(state, gates[n]);
    HolderIsHigher(state, order, holder, gates[n]);
    free := ClimbToFree(totals, state, order, holder);
  }

  /** One more than the height of the gate awaited; zero when all gates are held. */
  ghost function NextHeight(state: State, order: string -> nat, key: Key): nat
    requires key in state.jobs && state.jobs[key].stage.Queued?
  {
    var job := state.jobs[key];
    if job.stage.acquired < |job.gates| then 1 + order(job.gates[job.stage.acquired]) else 0
  }

  lemma HolderIsHigher(state: State, order: string -> nat, holder: Key, gate: string)
    requires OrderedGates(state, order) && holder in state.jobs && JobFits(state, holder)
    requires state.jobs[holder].stage.Queued? && state.jobs[holder].HoldsGate(gate)
    ensures NextHeight(state, order, holder) <= order(gate)
  {
    var job := state.jobs[holder];
    var k :| 0 <= k < job.stage.acquired && job.gates[k] == gate;
    assert Descending(order, job.gates);
  }

  /** Every admission permit is with an owner that has nothing to submit, and every submit awaits one. */
  predicate HeldByIdleOwners(totals: Totals, state: State) {
    && |state.admitted| == totals.admission && state.admission == 0
    && (forall owner | owner in state.admitted :: !Busy(state, owner))
    && forall key | key in state.jobs :: state.jobs[key].stage.Admitting?
  }

  /** In that case any of these owners lets the given submit go on by giving its permit back. */
  predicate AwaitsDismissal(totals: Totals, state: State, waiting: Key) {
    && HeldByIdleOwners(totals, state) && state.admitted != {}
    && forall owner | owner in state.admitted ::
         Step(state, Dismiss(owner)).Some? && CanAdvance(Step(state, Dismiss(owner)).value, waiting)
  }

  /**
    No deadlock: while a submit waits, some submit can take its next permit, or something executes,
    or it only takes one of the idle owners of all admission permits to give its permit back.
   */
  lemma NoDeadlock(totals: Totals, events: seq<Event>, order: string -> nat, waiting: Key)
    requires totals.admission >= 1 && totals.capacity >= 1 && Run(totals, events).Some?
    requires OrderedRegistrations(events, order)
    requires waiting in Run(totals, events).value.jobs && Run(totals, events).value.jobs[waiting].Waiting()
    ensures var state := Run(totals, events).value;
      Executing(state) || AwaitsDismissal(totals, state, waiting) || exists key :: CanAdvance(state, key)
  {
    hide Run, Conserved, AdvanceJob, AwaitsDismissal;
    RunConserves(totals, events);
    RunOrdered(totals, events, order);
    var state := Run(totals, events).value;
    if HeldByIdleOwners(totals, state) {
      DismissalSuffices(totals, state, waiting);
    } else if !Executing(state) {
      var next := WhoAdvances(totals, state, order, waiting);
      assert CanAdvance(state, next);
    }
  }

  lemma DismissalSuffices(totals: Totals, state: State, waiting: Key)
    requires HeldByIdleOwners(totals, state) && totals.admission >= 1 && waiting in state.jobs
    ensures AwaitsDismissal(totals, state, waiting)
  {
    assert state.jobs[waiting].stage.Admitting?;
    forall owner | owner in state.admitted
      ensures Step(state, Dismiss(owner)).Some? && CanAdvance(Step(state, Dismiss(owner)).value, waiting)
    {
      assert Step(state, Dismiss(owner)).value.jobs[waiting] == state.jobs[waiting];
    }
  }

  lemma WhoAdvances(totals: Totals, state: State, order: string -> nat, waiting: Key) returns (next: Key)
    requires Conserved(totals, state) && OrderedGates(state, order) && totals.capacity >= 1
    requires waiting in state.jobs && !Executing(state) && !HeldByIdleOwners(totals, state)
    ensures CanAdvance(state, next)
  {
    assert state.jobs[waiting].Waiting();
    if queued :| queued in state.jobs && state.jobs[queued].stage.Queued? {
      next := ClimbToFree(totals, state, order, queued);
    } else if state.admission > 0 {
      next := waiting;
    } else {
      assert forall key | key in state.jobs :: state.jobs[key].Waiting();
      var owner :| owner in state.admitted && Busy(state, owner);
      next :| next in state.jobs && next.runner == owner;
      assert state.jobs[next].Waiting();
    }
  }

  /** Every registration passes the limits found by walking the runtime tree from some runtime. */
  ghost predicate FromTree(events: seq<Event>, tree: Tree) {
    forall event | event in events && event.Register? :: Walked(tree, event.entries)
  }

  ghost predicate Walked(tree: Tree, entries: seq<Limit>) {
    exists start :: && Lineage(tree, start, {}).Accepted?
                    && (forall id | id in Lineage(tree, start, {}).value :: id in tree)
                    && entries == LimitsOf(tree, Lineage(tree, start, {}).value)
  }

  lemma TreeGivesOrder(events: seq<Event>, tree: Tree)
    requires FromTree(events, tree)
    ensures OrderedRegistrations(events, id => Height(tree, id))
  {
    hide Descending, Lineage, LimitsOf;
    forall event | event in events && event.Register? ensures Descending(id => Height(tree, id), Names(event.entries)) {
      assert Walked(tree, event.entries);
      var start :| && Lineage(tree, start, {}).Accepted?
                   && (forall id | id in Lineage(tree, start, {}).value :: id in tree)
                   && event.entries == LimitsOf(tree, Lineage(tree, start, {}).value);
      GatesDescend(tree, start);
    }
  }

  /** No deadlock when every Runner's limits were found by walking one tree of runtimes. */
  lemma NoDeadlockFromTree(totals: Totals, events: seq<Event>, tree: Tree, waiting: Key)
    requires totals.admission >= 1 && totals.capacity >= 1 && Run(totals, events).Some? && FromTree(events, tree)
    requires waiting in Run(totals, events).value.jobs && Run(totals, events).value.jobs[waiting].Waiting()
    ensures var state := Run(totals, events).value;
      Executing(state) || AwaitsDismissal(totals, state, waiting) || exists key :: CanAdvance(state, key)
  {
    TreeGivesOrder(events, tree);
    NoDeadlock(totals, events, id => Height(tree, id), waiting);
  }

  // ------------------------------------------------ the order is needed

  const A := Key("a", "s")
  const B := Key("b", "s")

  /** Two Runners list the same two gates in opposite orders. */
  function Registered(): State {
    State(2, {}, map["a" := ["x", "y"], "b" := ["y", "x"]], map["x" := 1, "y" := 1], map["x" := 1, "y" := 1], 2, map[],
          {})
  }

  /** Each holds its first gate and awaits the other's. */
  function Crossed(): State {
    Registered().(admission := 0, admitted := {"a", "b"}, gates := map["x" := 0, "y" := 0],
                  jobs := map[A := Job(["x", "y"], Queued(1)), B := Job(["y", "x"], Queued(1))])
  }

  const REGISTRATIONS := [Register("a", [Limit("x", 1), Limit("y", 1)]), Register("b", [Limit("y", 1), Limit("x", 1)])]
  const CROSSING := [Begin(A), Begin(B), Advance(A), Advance(B), Advance(A), Advance(B)]

  lemma RunStep(totals: Totals, events: seq<Event>, event: Event)
    ensures Run(totals, events + [event])
            == if Run(totals, events).None? then None else Step(Run(totals, events).value, event)
  {
    assert (events + [event])[..|events + [event]| - 1] == events;
  }

  lemma RegistrationsRun()
    ensures Run(Totals(2, 2), REGISTRATIONS) == Some(Registered())
  {
    var (first, second) := (REGISTRATIONS[0], REGISTRATIONS[1]);
    assert [first, second] == [] + [first] + [second];
    RunStep(Totals(2, 2), [], first);
    RunStep(Totals(2, 2), [] + [first], second);
    AddTwo(Initial(Totals(2, 2)), Limit("x", 1), Limit("y", 1));
    var one := RegisterRunner(Initial(Totals(2, 2)), "a", first.entries);
    AddTwo(one, Limit("y", 1), Limit("x", 1));
    assert RegisterRunner(one, "b", second.entries) == Registered();
  }

  lemma AddTwo(state: State, a: Limit, b: Limit)
    requires Usable(state, a) && Usable(AddGate(state, a), b)
    ensures AddGates(state, [a, b]) == (AddGate(AddGate(state, a), b), true)
    ensures Names([a, b]) == [a.runtime, b.runtime]
  {
    assert [a, b][1..] == [b] && [b][1..] == [];
    var two := AddGate(AddGate(state, a), b);
    assert AddGates(two, []) == (two, true);
    assert AddGates(AddGate(state, a), [b]) == (two, true);
  }

  /** With limits of one, nothing can advance any more although no Worker runs. */
  lemma OrderIsNeeded()
    ensures exists events :: Run(Totals(2, 2), events) == Some(Crossed())
    ensures !Executing(Crossed()) && !HeldByIdleOwners(Totals(2, 2), Crossed())
    ensures forall key :: !CanAdvance(Crossed(), key)
  {
    var totals, events := Totals(2, 2), REGISTRATIONS;
    var state := Registered();
    RegistrationsRun();
    for i := 0 to |CROSSING|
      invariant Run(totals, events) == Some(state)
      invariant state == CrossingState(i)
    {
      RunStep(totals, events, CROSSING[i]);
      events := events + [CROSSING[i]];
      CrossingStep(i);
      state := CrossingState(i + 1);
    }
    assert Busy(Crossed(), "a") by { assert A in Crossed().jobs; }
  }

  function CrossingState(i: nat): State
    requires i <= 6
  {
    var start, ab := Registered(), Registered().(jobs := map[A := Job(["x", "y"], Admitting),
                                                             B := Job(["y", "x"], Admitting)]);
    if i == 0 then start
    else if i == 1 then start.(jobs := map[A := Job(["x", "y"], Admitting)])
    else if i == 2 then ab
    else if i == 3 then ab.(admission := 1, admitted := {"a"}, jobs := ab.jobs[A := Job(["x", "y"], Queued(0))])
    else if i == 4 then
      ab.(admission := 0, admitted := {"a", "b"},
          jobs := map[A := Job(["x", "y"], Queued(0)), B := Job(["y", "x"], Queued(0))])
    else if i == 5 then
      ab.(admission := 0, admitted := {"a", "b"}, gates := map["x" := 0, "y" := 1],
          jobs := map[A := Job(["x", "y"], Queued(1)), B := Job(["y", "x"], Queued(0))])
    else Crossed()
  }

  lemma CrossingStep(i: nat)
    requires i < 6
    ensures Step(CrossingState(i), CROSSING[i]) == Some(CrossingState(i + 1))
  {
    hide Step, CrossingState;
    if i < 2 {
      CrossingBegins(i);
    } else if i < 4 {
      CrossingAdmissions(i);
    } else {
      CrossingGates(i);
    }
  }

  lemma CrossingBegins(i: nat)
    requires i < 2
    ensures Step(CrossingState(i), CROSSING[i]) == Some(CrossingState(i + 1))
  {
    hide Strands, WorkersOf, RegisterRunner, UnregisterRunner, ReleaseJob, Busy, TakeCapacity;
    assert CROSSING[i] == Begin(if i == 0 then A else B);
    assert Step(CrossingState(i), CROSSING[i]).value.jobs == CrossingState(i + 1).jobs;
  }

  lemma CrossingAdmissions(i: nat)
    requires 2 <= i < 4
    ensures Step(CrossingState(i), CROSSING[i]) == Some(CrossingState(i + 1))
  {
    hide Strands, WorkersOf, RegisterRunner, UnregisterRunner, ReleaseJob, Busy, TakeCapacity;
    assert CROSSING[i] == Advance(if i == 2 then A else B);
    var next := PassAdmission(CrossingState(i), if i == 2 then A else B).value;
    assert next.jobs == CrossingState(i + 1).jobs && next.admitted == CrossingState(i + 1).admitted;
  }

  lemma CrossingGates(i: nat)
    requires 4 <= i < 6
    ensures Step(CrossingState(i), CROSSING[i]) == Some(CrossingState(i + 1))
  {
    hide Strands, WorkersOf, RegisterRunner, UnregisterRunner, ReleaseJob, Busy, TakeCapacity;
    assert CROSSING[i] == Advance(if i == 4 then A else B);
    var next := TakeGate(CrossingState(i), if i == 4 then A else B, 0).value;
    assert next.jobs == CrossingState(i + 1).jobs && next.gates == CrossingState(i + 1).gates;
  }
}
