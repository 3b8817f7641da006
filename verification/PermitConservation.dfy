/** No permit is ever lost or duplicated, whatever the interleaving, so Workers respect every limit. */
module PermitConservation {
  import opened RuntimeTree
  import opened Collections
  import opened PermitProtocol

  function GateHolders(jobs: map<Key, Job>, gate: string): set<Key> {
    set key | key in jobs && jobs[key].HoldsGate(gate)
  }

  function CapacityHolders(jobs: map<Key, Job>): set<Key> {
    set key | key in jobs && jobs[key].HoldsCapacity()
  }

  ghost predicate AdmissionBalanced(totals: Totals, state: State) {
    state.admission + |state.admitted| == totals.admission
  }

  ghost predicate CapacityBalanced(totals: Totals, state: State) {
    state.capacity + |CapacityHolders(state.jobs)| == totals.capacity
  }

  ghost predicate GateBalanced(state: State, gate: string)
    requires gate in state.limits && gate in state.gates
  {
    state.gates[gate] + |GateHolders(state.jobs, gate)| == state.limits[gate]
  }

  ghost predicate GatesBalanced(state: State) {
    && state.gates.Keys == state.limits.Keys
    && forall gate | gate in state.limits :: state.limits[gate] >= 1 && GateBalanced(state, gate)
  }

  /** Each submit uses gates that exist, each once, whatever its Runner lists by now. */
  ghost predicate JobFits(state: State, key: Key)
    requires key in state.jobs
  {
    var job := state.jobs[key];
    && Distinct(job.gates) && (forall gate | gate in job.gates :: gate in state.limits)
    && (job.stage.Queued? ==> job.stage.acquired <= |job.gates|)
  }

  ghost predicate JobsFit(state: State) {
    forall key | key in state.jobs :: JobFits(state, key)
  }

  ghost predicate ListFits(state: State, runner: string)
    requires runner in state.runtimes
  {
    Distinct(state.runtimes[runner]) && forall gate | gate in state.runtimes[runner] :: gate in state.limits
  }

  ghost predicate ListsFit(state: State) {
    forall runner | runner in state.runtimes :: ListFits(state, runner)
  }

  /** Free permits and held permits always add up to the limit, at each of the three levels. */
  ghost predicate Conserved(totals: Totals, state: State) {
    AdmissionBalanced(totals, state) && CapacityBalanced(totals, state) && GatesBalanced(state)
    && JobsFit(state) && ListsFit(state)
  }

  // ------------------------------------------------ counting holders

  function Count(holds: bool): nat {
    if holds then 1 else 0
  }

  lemma GateCountAfterRemoval(jobs: map<Key, Job>, key: Key, gate: string)
    requires key in jobs
    ensures |GateHolders(jobs, gate)| == |GateHolders(Removed(jobs, key), gate)| + Count(jobs[key].HoldsGate(gate))
  {
    var rest := GateHolders(Removed(jobs, key), gate);
    assert GateHolders(jobs, gate) == if jobs[key].HoldsGate(gate) then rest + {key} else rest;
  }

  lemma CapacityCountAfterRemoval(jobs: map<Key, Job>, key: Key)
    requires key in jobs
    ensures |CapacityHolders(jobs)| == |CapacityHolders(Removed(jobs, key))| + Count(jobs[key].HoldsCapacity())
  {
    var rest := CapacityHolders(Removed(jobs, key));
    assert CapacityHolders(jobs) == if jobs[key].HoldsCapacity() then rest + {key} else rest;
  }

  lemma GateCountAfterUpdate(jobs: map<Key, Job>, key: Key, job: Job, gate: string)
    requires key in jobs
    ensures |GateHolders(jobs[key := job], gate)| - Count(job.HoldsGate(gate))
         == |GateHolders(jobs, gate)| - Count(jobs[key].HoldsGate(gate))
  {
    assert Removed(jobs[key := job], key) == Removed(jobs, key);
    GateCountAfterRemoval(jobs, key, gate);
    GateCountAfterRemoval(jobs[key := job], key, gate);
  }

  lemma CapacityCountAfterUpdate(jobs: map<Key, Job>, key: Key, job: Job)
    requires key in jobs
    ensures |CapacityHolders(jobs[key := job])| - Count(job.HoldsCapacity())
         == |CapacityHolders(jobs)| - Count(jobs[key].HoldsCapacity())
  {
    assert Removed(jobs[key := job], key) == Removed(jobs, key);
    CapacityCountAfterRemoval(jobs, key);
    CapacityCountAfterRemoval(jobs[key := job], key);
  }

  lemma StillFit(before: State, after: State, key: Key)
    requires JobsFit(before) && ListsFit(before)
    requires after.runtimes == before.runtimes && after.limits == before.limits
    requires forall other | other in after.jobs && other != key ::
               other in before.jobs && after.jobs[other] == before.jobs[other]
    requires key in after.jobs ==> JobFits(after, key)
    ensures JobsFit(after) && ListsFit(after)
  {
    forall other | other in after.jobs ensures JobFits(after, other) {
      if other != key {
        assert JobFits(before, other);
      }
    }
    forall runner | runner in after.runtimes ensures ListFits(after, runner) {
      assert ListFits(before, runner);
    }
  }

  // ------------------------------------------------ submits

  lemma BeginConserves(totals: Totals, state: State, key: Key)
    requires Conserved(totals, state) && key !in state.jobs
    ensures Conserved(totals, Step(state, Begin(key)).value)
  {
    var next := Step(state, Begin(key)).value;
    assert Removed(next.jobs, key) == state.jobs;
    CapacityCountAfterRemoval(next.jobs, key);
    forall gate | gate in next.limits ensures GateBalanced(next, gate) {
      assert GateBalanced(state, gate);
      GateCountAfterRemoval(next.jobs, key, gate);
    }
    if key.runner in state.runtimes {
      assert ListFits(state, key.runner);
    }
    StillFit(state, next, key);
  }

  lemma PassAdmissionConserves(totals: Totals, state: State, key: Key)
    requires Conserved(totals, state) && key in state.jobs && state.jobs[key].stage.Admitting?
    requires PassAdmission(state, key).Some?
    ensures Conserved(totals, PassAdmission(state, key).value)
  {
    var next := PassAdmission(state, key).value;
    CapacityCountAfterUpdate(state.jobs, key, next.jobs[key]);
    forall gate | gate in next.limits ensures GateBalanced(next, gate) {
      assert GateBalanced(state, gate);
      GateCountAfterUpdate(state.jobs, key, next.jobs[key], gate);
    }
    assert JobFits(state, key);
    StillFit(state, next, key);
  }

  lemma NextGateIsNew(gates: seq<string>, n: nat, gate: string)
    requires n < |gates| && Distinct(gates)
    ensures gate in gates[..n + 1] <==> gate in gates[..n] || gate == gates[n]
    ensures gates[n] !in gates[..n]
  {
    assert gates[..n + 1] == gates[..n] + [gates[n]];
  }

  lemma TakeGateBalanced(state: State, key: Key, n: nat, gate: string)
    requires GatesBalanced(state) && key in state.jobs && gate in state.limits
    requires state.jobs[key].stage == Queued(n) && n < |state.jobs[key].gates| && Distinct(state.jobs[key].gates)
    requires TakeGate(state, key, n).Some?
    ensures GateBalanced(TakeGate(state, key, n).value, gate)
  {
    assert GateBalanced(state, gate);
    var job := state.jobs[key];
    GateCountAfterUpdate(state.jobs, key, job.(stage := Queued(n + 1)), gate);
    NextGateIsNew(job.gates, n, gate);
  }

  lemma TakeGateConserves(totals: Totals, state: State, key: Key, n: nat)
    requires Conserved(totals, state) && key in state.jobs
    requires state.jobs[key].stage == Queued(n) && n < |state.jobs[key].gates| && TakeGate(state, key, n).Some?
    ensures Conserved(totals, TakeGate(state, key, n).value)
  {
    hide GateBalanced, Distinct;
    var next, job := TakeGate(state, key, n).value, state.jobs[key];
    CapacityCountAfterUpdate(state.jobs, key, job.(stage := Queued(n + 1)));
    assert JobFits(state, key);
    forall gate | gate in next.limits ensures GateBalanced(next, gate) {
      TakeGateBalanced(state, key, n, gate);
    }
    StillFit(state, next, key);
  }

  lemma TakeCapacityConserves(totals: Totals, state: State, key: Key)
    requires Conserved(totals, state) && key in state.jobs && state.jobs[key].stage == Queued(|state.jobs[key].gates|)
    requires key.runner !in state.cancelled && TakeCapacity(state, key).Some?
    ensures Conserved(totals, TakeCapacity(state, key).value)
  {
    var next, gates := TakeCapacity(state, key).value, state.jobs[key].gates;
    CapacityCountAfterUpdate(state.jobs, key, next.jobs[key]);
    forall gate | gate in next.limits ensures GateBalanced(next, gate) {
      assert GateBalanced(state, gate);
      GateCountAfterUpdate(state.jobs, key, next.jobs[key], gate);
      assert gates[..|gates|] == gates;
    }
    assert JobFits(state, key);
    StillFit(state, next, key);
  }

  lemma ReleaseConserves(totals: Totals, state: State, key: Key)
    requires Conserved(totals, state) && key in state.jobs
    ensures Conserved(totals, ReleaseJob(state, key))
  {
    var next := ReleaseJob(state, key);
    CapacityCountAfterRemoval(state.jobs, key);
    forall gate | gate in next.limits ensures GateBalanced(next, gate) {
      assert GateBalanced(state, gate);
      GateCountAfterRemoval(state.jobs, key, gate);
    }
    StillFit(state, next, key);
  }

  lemma AdvanceConserves(totals: Totals, state: State, key: Key)
    requires Conserved(totals, state) && key in state.jobs && AdvanceJob(state, key).Some?
    ensures Conserved(totals, AdvanceJob(state, key).value)
  {
    var job := state.jobs[key];
    assert JobFits(state, key);
    hide Conserved, PassAdmission, TakeGate, ReleaseJob;
    match job.stage
    case Admitting => PassAdmissionConserves(totals, state, key);
    case Queued(n) =>
      if n < |job.gates| {
        TakeGateConserves(totals, state, key, n);
      } else if key.runner in state.cancelled {
        ReleaseConserves(totals, state, key);
      } else {
        TakeCapacityConserves(totals, state, key);
      }
    case Reserving =>
    case Running =>
  }

  lemma AcceptConserves(totals: Totals, state: State, key: Key)
    requires Conserved(totals, state) && key in state.jobs && state.jobs[key].stage.Reserving?
    ensures Conserved(totals, Restage(state, key, Running))
  {
    var next := Restage(state, key, Running);
    CapacityCountAfterUpdate(state.jobs, key, next.jobs[key]);
    forall gate | gate in next.limits ensures GateBalanced(next, gate) {
      assert GateBalanced(state, gate);
      GateCountAfterUpdate(state.jobs, key, next.jobs[key], gate);
    }
    assert JobFits(state, key);
    StillFit(state, next, key);
  }

  // ------------------------------------------------ owners and registration

  lemma AdmitBalanced(totals: Totals, state: State, owner: string)
    requires AdmissionBalanced(totals, state)
    ensures AdmitOwner(state, owner).Some? ==> AdmissionBalanced(totals, AdmitOwner(state, owner).value)
    ensures AdmissionBalanced(totals, DismissOwner(state, owner))
  {
    if owner in state.admitted {
      assert state.admitted == state.admitted - {owner} + {owner};
    } else {
      assert |state.admitted + {owner}| == |state.admitted| + 1;
    }
  }

  /** Events that touch only owners leave the gates, capacity and submits alone. */
  lemma OwnersBalanced(totals: Totals, state: State, event: Event)
    requires AdmissionBalanced(totals, state) && Step(state, event).Some?
    requires event.Admit? || event.Transfer? || event.Dismiss? || event.Cancel?
    ensures AdmissionBalanced(totals, Step(state, event).value)
    ensures var next := Step(state, event).value;
      next == state.(admission := next.admission, admitted := next.admitted, cancelled := next.cancelled)
  {
    hide Strands, WorkersOf, RegisterRunner, UnregisterRunner, AdvanceJob, ReleaseJob, Listed;
    match event
    case Admit(owner) => AdmitBalanced(totals, state, owner);
    case Dismiss(owner) => AdmitBalanced(totals, state, owner);
    case Transfer(slot, owner) =>
      assert slot != owner;
      TransferKeepsCount(totals, state, slot, owner);
    case Cancel(_) =>
  }

  /** The hand-off keeps the admission count exactly when the new owner held no permit of its own. */
  lemma TransferKeepsCount(totals: Totals, state: State, slot: string, owner: string)
    requires AdmissionBalanced(totals, state) && slot in state.admitted && slot != owner
    ensures AdmissionBalanced(totals, TransferPermit(state, slot, owner)) <==> owner !in state.admitted
  {
    assert |state.admitted - {slot}| == |state.admitted| - 1;
    if owner in state.admitted {
      assert state.admitted - {slot} + {owner} == state.admitted - {slot};
    }
  }

  lemma OwnersConserve(totals: Totals, state: State, event: Event)
    requires Conserved(totals, state) && Step(state, event).Some?
    requires event.Admit? || event.Transfer? || event.Dismiss? || event.Cancel?
    ensures Conserved(totals, Step(state, event).value)
  {
    hide Step;
    OwnersBalanced(totals, state, event);
    var next := Step(state, event).value;
    forall gate | gate in next.limits ensures GateBalanced(next, gate) {
      assert GateBalanced(state, gate);
    }
    forall key | key in next.jobs ensures JobFits(next, key) {
      assert JobFits(state, key);
    }
    forall runner | runner in next.runtimes ensures ListFits(next, runner) {
      assert ListFits(state, runner);
    }
  }

  lemma AddGateConserves(totals: Totals, state: State, entry: Limit)
    requires Conserved(totals, state) && Usable(state, entry)
    ensures Conserved(totals, AddGate(state, entry))
  {
    var next := AddGate(state, entry);
    forall gate | gate in next.limits ensures GateBalanced(next, gate) {
      if gate in state.limits {
        assert GateBalanced(state, gate);
      } else {
        NobodyHolds(state, gate);
      }
    }
    forall key | key in next.jobs ensures JobFits(next, key) {
      assert JobFits(state, key);
    }
    forall runner | runner in next.runtimes ensures ListFits(next, runner) {
      assert ListFits(state, runner);
    }
  }

  /** No submit holds a gate that does not exist. */
  lemma NobodyHolds(state: State, gate: string)
    requires JobsFit(state) && gate !in state.limits
    ensures GateHolders(state.jobs, gate) == {}
  {
    forall key | key in state.jobs ensures !state.jobs[key].HoldsGate(gate) {
      assert JobFits(state, key);
    }
  }

  lemma {:induction false} AddGatesConserve(totals: Totals, state: State, entries: seq<Limit>)
    requires Conserved(totals, state)
    ensures Conserved(totals, AddGates(state, entries).0)
    ensures AddGates(state, entries).0.jobs == state.jobs && AddGates(state, entries).0.runtimes == state.runtimes
    ensures state.limits.Keys <= AddGates(state, entries).0.limits.Keys
    ensures AddGates(state, entries).1 ==>
              forall entry | entry in entries :: entry.runtime in AddGates(state, entries).0.limits
    decreases |entries|
  {
    hide Conserved;
    if entries != [] && Usable(state, entries[0]) {
      AddGateConserves(totals, state, entries[0]);
      AddGatesConserve(totals, AddGate(state, entries[0]), entries[1..]);
    }
  }

  lemma RegisterConserves(totals: Totals, state: State, runner: string, entries: seq<Limit>)
    requires Conserved(totals, state) && Distinct(Names(entries))
    ensures Conserved(totals, RegisterRunner(state, runner, entries))
  {
    AddGatesConserve(totals, state, entries);
    var (added, accepted) := AddGates(state, entries);
    if accepted {
      var next := added.(runtimes := added.runtimes[runner := Names(entries)]);
      forall gate | gate in next.limits ensures GateBalanced(next, gate) {
        assert GateBalanced(added, gate);
      }
      forall key | key in next.jobs ensures JobFits(next, key) {
        assert JobFits(added, key);
      }
      forall other | other in next.runtimes ensures ListFits(next, other) {
        if other != runner {
          assert ListFits(added, other);
        }
      }
    }
  }

  lemma UnregisterConserves(totals: Totals, state: State, runner: string)
    requires Conserved(totals, state) && !Strands(state, runner)
    ensures Conserved(totals, UnregisterRunner(state, runner))
  {
    var next := UnregisterRunner(state, runner);
    forall gate | gate in next.limits ensures GateBalanced(next, gate) {
      assert GateBalanced(state, gate);
    }
    forall key | key in next.jobs ensures JobFits(next, key) {
      assert JobFits(state, key);
      assert !UsesAny(state.jobs[key], Dropped(OtherLists(state, runner), Listed(state, runner)));
    }
    forall other | other in next.runtimes ensures ListFits(next, other) {
      assert ListFits(state, other);
      assert forall gate | gate in next.runtimes[other] :: Shared(next.runtimes, gate);
    }
  }

  /** While every submit uses gates its Runner lists, a Runner without submits strands nobody. */
  lemma OwnGatesStrandNobody(state: State, runner: string)
    requires !Busy(state, runner)
    requires forall key, gate | key in state.jobs && gate in state.jobs[key].gates :: gate in Listed(state, key.runner)
    ensures !Strands(state, runner)
  {
    forall key, gate | key in state.jobs && gate in state.jobs[key].gates
      ensures Shared(OtherLists(state, runner), gate)
    {
      assert key.runner != runner && gate in Listed(state, key.runner);
      assert key.runner in OtherLists(state, runner);
    }
  }

  // ------------------------------------------------ ending a Runner's Workers

  lemma HoldersShrink(jobs: map<Key, Job>, runner: string, key: Key, gate: string)
    requires IsWorkerOf(jobs, runner, key)
    ensures |HoldersOf(jobs, runner, gate)|
         == |HoldersOf(Removed(jobs, key), runner, gate)| + Count(jobs[key].HoldsGate(gate))
  {
    var rest := HoldersOf(Removed(jobs, key), runner, gate);
    assert HoldersOf(jobs, runner, gate) == if jobs[key].HoldsGate(gate) then rest + {key} else rest;
  }

  lemma WorkersShrink(jobs: map<Key, Job>, runner: string, key: Key)
    requires IsWorkerOf(jobs, runner, key)
    ensures |WorkersOf(jobs, runner)| == |WorkersOf(Removed(jobs, key), runner)| + 1
    ensures (map other | other in Removed(jobs, key) && !IsWorkerOf(Removed(jobs, key), runner, other) ::
              Removed(jobs, key)[other])
         == map other | other in jobs && !IsWorkerOf(jobs, runner, other) :: jobs[other]
  {
    assert WorkersOf(jobs, runner) == WorkersOf(Removed(jobs, key), runner) + {key};
  }

  lemma EndOne(state: State, runner: string, key: Key)
    requires IsWorkerOf(state.jobs, runner, key)
    ensures EndWorkers(ReleaseJob(state, key), runner) == EndWorkers(state, runner)
    ensures |WorkersOf(ReleaseJob(state, key).jobs, runner)| == |WorkersOf(state.jobs, runner)| - 1
  {
    hide HoldersOf, WorkersOf, Removed;
    WorkersShrink(state.jobs, runner, key);
    forall gate ensures |HoldersOf(state.jobs, runner, gate)|
                     == |HoldersOf(Removed(state.jobs, key), runner, gate)| + Count(state.jobs[key].HoldsGate(gate)) {
      HoldersShrink(state.jobs, runner, key, gate);
    }
    assert state.jobs[key].HoldsCapacity();
    assert EndWorkers(ReleaseJob(state, key), runner).gates == EndWorkers(state, runner).gates;
  }

  lemma NoneToEnd(state: State, runner: string)
    requires WorkersOf(state.jobs, runner) == {}
    ensures EndWorkers(state, runner) == state
  {
    forall gate ensures HoldersOf(state.jobs, runner, gate) == {} {
      assert forall key | key in HoldersOf(state.jobs, runner, gate) :: key in WorkersOf(state.jobs, runner);
    }
    forall key | key in state.jobs ensures !IsWorkerOf(state.jobs, runner, key) {
      assert key !in WorkersOf(state.jobs, runner);
    }
    var ended := EndWorkers(state, runner);
    assert ended.jobs == state.jobs && ended.gates == state.gates;
  }

  /** Ended one by one, in any order, the Workers give back every permit they held. */
  lemma {:induction false} EndWorkersConserves(totals: Totals, state: State, runner: string)
    requires Conserved(totals, state)
    ensures Conserved(totals, EndWorkers(state, runner)) && WorkersOf(EndWorkers(state, runner).jobs, runner) == {}
    decreases |WorkersOf(state.jobs, runner)|
  {
    hide Conserved, EndWorkers, ReleaseJob;
    if WorkersOf(state.jobs, runner) == {} {
      NoneToEnd(state, runner);
    } else {
      var key :| key in WorkersOf(state.jobs, runner);
      ReleaseConserves(totals, state, key);
      EndOne(state, runner, key);
      EndWorkersConserves(totals, ReleaseJob(state, key), runner);
    }
  }

  /** A gate is dropped only when all of its permits are free, so dropping it loses none. */
  lemma DroppedGatesAreFree(totals: Totals, state: State, runner: string, gate: string)
    requires Conserved(totals, state) && !Strands(state, runner)
    requires gate in state.gates && gate !in UnregisterRunner(state, runner).gates
    ensures state.gates[gate] == state.limits[gate]
  {
    UnregisterConserves(totals, state, runner);
    var next := UnregisterRunner(state, runner);
    NobodyHolds(next, gate);
    assert GateBalanced(state, gate);
  }

  // ------------------------------------------------ all runs

  lemma StepConserves(totals: Totals, state: State, event: Event)
    requires Conserved(totals, state) && Step(state, event).Some?
    ensures Conserved(totals, Step(state, event).value)
  {
    hide Conserved, ReleaseJob, AdvanceJob, AdmitOwner, DismissOwner, RegisterRunner, UnregisterRunner, Restage;
    match event
    case Register(runner, entries) => RegisterConserves(totals, state, runner, entries);
    case Unregister(runner) => UnregisterConserves(totals, state, runner);
    case Begin(key) => BeginConserves(totals, state, key);
    case Advance(key) => AdvanceConserves(totals, state, key);
    case Reserve(key, accepted) =>
      if accepted {
        AcceptConserves(totals, state, key);
      } else {
        ReleaseConserves(totals, state, key);
      }
    case Abort(key) => ReleaseConserves(totals, state, key);
    case Finish(key) => ReleaseConserves(totals, state, key);
    case Cancel(_) => OwnersConserve(totals, state, event);
    case Admit(_) => OwnersConserve(totals, state, event);
    case Transfer(_, _) => OwnersConserve(totals, state, event);
    case Dismiss(_) => OwnersConserve(totals, state, event);
  }

  lemma NothingHeld(totals: Totals)
    ensures Conserved(totals, Initial(totals))
  {
    assert CapacityHolders(map[]) == {};
  }

  lemma {:induction false} RunConserves(totals: Totals, events: seq<Event>)
    requires Run(totals, events).Some?
    ensures Conserved(totals, Run(totals, events).value)
    decreases |events|
  {
    hide Step, Conserved, Initial;
    if events == [] {
      NothingHeld(totals);
    } else {
      RunConserves(totals, events[..|events| - 1]);
      StepConserves(totals, Run(totals, events[..|events| - 1]).value, events[|events| - 1]);
    }
  }

  function Workers(jobs: map<Key, Job>): set<Key> {
    set key | key in jobs && jobs[key].stage.Running?
  }

  function WorkersUnder(jobs: map<Key, Job>, gate: string): set<Key> {
    set key | key in jobs && jobs[key].stage.Running? && gate in jobs[key].gates
  }

  /** In every run, Workers exceed neither any runtime's limit nor the global capacity. */
  lemma WorkersWithinLimits(totals: Totals, events: seq<Event>)
    requires Run(totals, events).Some?
    ensures |Workers(Run(totals, events).value.jobs)| <= totals.capacity
    ensures |Run(totals, events).value.admitted| <= totals.admission
    ensures forall gate | gate in Run(totals, events).value.limits ::
              |WorkersUnder(Run(totals, events).value.jobs, gate)| <= Run(totals, events).value.limits[gate]
  {
    hide Run;
    RunConserves(totals, events);
    var state := Run(totals, events).value;
    SubsetSize(Workers(state.jobs), CapacityHolders(state.jobs));
    forall gate | gate in state.limits ensures |WorkersUnder(state.jobs, gate)| <= state.limits[gate] {
      assert GateBalanced(state, gate);
      SubsetSize(WorkersUnder(state.jobs, gate), GateHolders(state.jobs, gate));
    }
  }

  /** When every submit has ended, every permit of every level except admission is free again. */
  lemma EverythingComesBack(totals: Totals, events: seq<Event>)
    requires Run(totals, events).Some? && Run(totals, events).value.jobs == map[]
    ensures Run(totals, events).value.capacity == totals.capacity
    ensures Run(totals, events).value.gates == Run(totals, events).value.limits
  {
    hide Run;
    RunConserves(totals, events);
    var state := Run(totals, events).value;
    assert CapacityHolders(state.jobs) == {};
    forall gate | gate in state.limits ensures state.gates[gate] == state.limits[gate] {
      assert GateBalanced(state, gate) && GateHolders(state.jobs, gate) == {};
    }
  }
}
