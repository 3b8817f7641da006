/** The objects behind the permit hierarchy; each method is the code between two awaits. */
module WorkerDispatcher {
  import opened Collections
  import opened Outcomes
  import opened RuntimeTree
  import opened PermitProtocol
  import opened PermitConservation

  /** A counting semaphore with the set of owners that hold a permit. */
  class RunnerAdmission {
    var capacity: nat
    var active: set<string>

    constructor (capacity: nat)
      ensures this.capacity == capacity && active == {}
    {
      this.capacity, active := capacity, {};
    }

    /** Returns false where the source would wait on the semaphore. */
    method Acquire(runner: string) returns (acquired: bool)
      modifies this
      ensures acquired <==> old(runner in active || capacity > 0)
      ensures active == if acquired && runner !in old(active) then old(active) + {runner} else old(active)
      ensures capacity == old(capacity) - Count(acquired && runner !in old(active))
    {
      if runner in active {
        return true;
      }
      if capacity == 0 {
        return false;
      }
      capacity := capacity - 1;
      active := active + {runner};
      return true;
    }

    /** Releasing twice, or without a permit, changes nothing. */
    method Release(runner: string)
      modifies this
      ensures active == old(active) - {runner}
      ensures capacity == old(capacity) + Count(runner in old(active))
    {
      if runner in active {
        active := active - {runner};
        capacity := capacity + 1;
      } else {
        assert active == active - {runner};
      }
    }
  }

  /** The gates acquired so far, in order. */
  function AcquiredGates(job: Job): seq<string>
    requires job.stage.Queued? ==> job.stage.acquired <= |job.gates|
  {
    match job.stage
    case Admitting => []
    case Queued(acquired) => job.gates[..acquired]
    case Reserving => job.gates
    case Running => job.gates
  }

  function Submitting(jobs: map<Key, Job>): set<Key> {
    set key | key in jobs && (jobs[key].stage.Queued? || jobs[key].stage.Reserving?)
  }

  lemma SetsAfterRestage(jobs: map<Key, Job>, key: Key, job: Job)
    ensures Submitting(jobs[key := job])
            == Submitting(jobs) - {key} + if job.stage.Queued? || job.stage.Reserving? then {key} else {}
    ensures Workers(jobs[key := job]) == Workers(jobs) - {key} + if job.stage.Running? then {key} else {}
  {
  }

  lemma SetsAfterRemoval(jobs: map<Key, Job>, key: Key)
    ensures Submitting(Removed(jobs, key)) == Submitting(jobs) - {key}
            && Workers(Removed(jobs, key)) == Workers(jobs) - {key}
  {
  }

  class Dispatcher {
    ghost const totals: Totals
    const admission: RunnerAdmission
    var capacity: nat
    var limits: map<string, nat>
    var gates: map<string, nat>
    var runtimes: map<string, seq<string>>
    var jobs: map<Key, Job>
    var waiting: set<Key>
    var active: set<Key>
    var cancelled: set<string>

    function View(): State
      reads this, admission
    {
      State(admission.capacity, admission.active, runtimes, limits, gates, capacity, jobs, cancelled)
    }

    ghost predicate Valid()
      reads this, admission
    {
      && Conserved(totals, View())
      && waiting == Submitting(jobs)
      && active == Workers(jobs)
    }

    constructor (admissionLimit: nat, capacity: nat)
      requires capacity >= 1
      ensures Valid() && View() == Initial(Totals(admissionLimit, capacity)) && fresh(admission)
    {
      totals := Totals(admissionLimit, capacity);
      admission := new RunnerAdmission(admissionLimit);
      this.capacity, limits, gates, runtimes, jobs := capacity, map[], map[], map[], map[];
      waiting, active, cancelled := {}, {}, {};
      new;
      NothingHeld(totals);
    }

    /** Adds the Runner's gates one by one; a refusal keeps the gates already added. */
    method Register(runner: string, entries: seq<Limit>) returns (accepted: bool)
      requires Valid() && Distinct(Names(entries))
      modifies this
      ensures Valid() && View() == RegisterRunner(old(View()), runner, entries)
      ensures accepted <==> AddGates(old(View()), entries).1
    {
      hide Conserved, Submitting, Workers;
      RegisterConserves(totals, View(), runner, entries);
      AddGatesConserve(totals, View(), entries);
      ghost var before := View();
      for i := 0 to |entries|
        invariant AddGates(before, entries) == AddGates(View(), entries[i..])
        invariant View() == before.(limits := limits, gates := gates)
        invariant waiting == old(waiting) && active == old(active)
      {
        var entry := entries[i];
        assert entries[i..][0] == entry && entries[i..][1..] == entries[i + 1..];
        if entry.workers < 1 || (entry.runtime in limits && limits[entry.runtime] != entry.workers) {
          return false;
        }
        limits := limits[entry.runtime := entry.workers];
        if entry.runtime !in gates {
          gates := gates[entry.runtime := entry.workers];
        }
      }
      runtimes := runtimes[runner := Names(entries)];
      return true;
    }

    /** Drops each of the given gates that no Runner lists any more. */
    method DropUnshared(ids: seq<string>)
      modifies this`limits, this`gates
      ensures limits == old(limits) - Dropped(runtimes, ids) && gates == old(gates) - Dropped(runtimes, ids)
    {
      hide Shared, Dropped;
      ghost var dropped: set<string> := {};
      assert dropped == Dropped(runtimes, ids[..0]) by { NothingDropped(runtimes, ids); }
      for i := 0 to |ids|
        invariant dropped == Dropped(runtimes, ids[..i])
        invariant limits == old(limits) - dropped && gates == old(gates) - dropped
      {
        DroppedGrows(runtimes, ids, i);
        if !Shared(runtimes, ids[i]) {
          MinusOneMore(old(limits), dropped, ids[i]);
          MinusOneMore(old(gates), dropped, ids[i]);
          limits, gates := limits - {ids[i]}, gates - {ids[i]};
          dropped := dropped + {ids[i]};
        }
      }
      assert ids[..|ids|] == ids;
    }

    /** Cancels the Runner's Workers and awaits their end. */
    method EndAll(runner: string)
      requires Valid()
      modifies this
      ensures Valid() && View() == EndWorkers(old(View()).(cancelled := old(cancelled) + {runner}), runner)
      ensures WorkersOf(jobs, runner) == {}
    {
      hide Conserved, Submitting, EndWorkers, ReleaseJob;
      CancelRunner(runner);
      while exists key | key in active :: key.runner == runner
        invariant Valid()
        invariant EndWorkers(View(), runner) == EndWorkers(old(View()).(cancelled := old(cancelled) + {runner}), runner)
        decreases |WorkersOf(jobs, runner)|
      {
        var key :| key in active && key.runner == runner;
        EndOne(View(), runner, key);
        Release(key);
      }
      assert WorkersOf(jobs, runner) == {} by {
        assert forall key | key in WorkersOf(jobs, runner) :: key in active;
      }
      NoneToEnd(View(), runner);
    }

    /** Ends the Runner's Workers, then forgets it, the gates that only it listed and its cancellation. */
    method Unregister(runner: string)
      requires Valid() && !Strands(EndWorkers(View(), runner), runner)
      modifies this
      ensures Valid() && View() == UnregisterRunner(EndWorkers(old(View()), runner), runner)
    {
      hide Conserved, Shared, Submitting, Workers, WorkersOf, EndWorkers, Strands, Dropped;
      if exists key | key in active :: key.runner == runner {
        EndIgnoresCancelled(View(), cancelled + {runner}, runner);
        EndAll(runner);
      } else {
        assert WorkersOf(jobs, runner) == {} by { NoWorkers(jobs, active, runner); }
        NoneToEnd(View(), runner);
      }
      UnregisterConserves(totals, View(), runner);
      var ids := if runner in runtimes then runtimes[runner] else [];
      cancelled := cancelled - {runner};
      assert cancelled == old(cancelled) - {runner};
      runtimes := map other | other in runtimes && other != runner :: runtimes[other];
      DropUnshared(ids);
    }

    /** A submit starts with the gates its Runner lists; it holds nothing yet. */
    method BeginSubmit(key: Key)
      requires Valid() && key !in jobs
      modifies this
      ensures Valid() && Some(View()) == Step(old(View()), Begin(key))
    {
      hide Conserved, Submitting, Workers, Strands, WorkersOf, RegisterRunner, UnregisterRunner, AdvanceJob, ReleaseJob,
        AdmitOwner, DismissOwner, Busy;
      BeginConserves(totals, View(), key);
      jobs := jobs[key := Job(Listed(View(), key.runner), Admitting)];
      SetsAfterRestage(old(jobs), key, jobs[key]);
      assert key !in waiting && key !in active by { NotSubmitting(old(jobs), key); }
    }

    /** The Runner's own wait; returns false where the source would suspend. */
    method AwaitAdmission(key: Key) returns (moved: bool)
      requires Valid() && key in jobs && jobs[key].stage.Admitting?
      modifies this, admission
      ensures Valid() && moved == Step(old(View()), Advance(key)).Some?
      ensures View() == if moved then Step(old(View()), Advance(key)).value else old(View())
    {
      hide Conserved, Submitting, Workers, Strands, WorkersOf, RegisterRunner, UnregisterRunner, ReleaseJob,
        DismissOwner, Busy;
      if AdvanceJob(View(), key).Some? {
        AdvanceConserves(totals, View(), key);
      }
      moved := admission.Acquire(key.runner);
      if moved {
        jobs, waiting := jobs[key := jobs[key].(stage := Queued(0))], waiting + {key};
        SetsAfterRestage(old(jobs), key, jobs[key]);
        assert key !in active by { NotSubmitting(old(jobs), key); }
      }
    }

    /** One pass of the loop over the Runner's gates. */
    method AwaitGate(key: Key) returns (moved: bool)
      requires Valid() && key in jobs && jobs[key].stage.Queued? && jobs[key].stage.acquired < |jobs[key].gates|
      modifies this
      ensures Valid() && moved == Step(old(View()), Advance(key)).Some?
      ensures View() == if moved then Step(old(View()), Advance(key)).value else old(View())
    {
      hide Conserved, Submitting, Workers, Strands, WorkersOf, RegisterRunner, UnregisterRunner, ReleaseJob,
        DismissOwner, Busy;
      if AdvanceJob(View(), key).Some? {
        AdvanceConserves(totals, View(), key);
      }
      var job, n := jobs[key], jobs[key].stage.acquired;
      moved := job.gates[n] in gates && gates[job.gates[n]] > 0;
      if moved {
        gates := gates[job.gates[n] := gates[job.gates[n]] - 1];
        jobs := jobs[key := job.(stage := Queued(n + 1))];
        SetsAfterRestage(old(jobs), key, jobs[key]);
        assert key in waiting && key !in active by { NotSubmitting(old(jobs), key); }
      }
    }

    /** Capacity comes last; a cancelled Runner gives it back with every gate. */
    method AwaitCapacity(key: Key) returns (moved: bool)
      requires Valid() && key in jobs && jobs[key].stage == Queued(|jobs[key].gates|)
      modifies this
      ensures Valid() && moved == Step(old(View()), Advance(key)).Some?
      ensures View() == if moved then Step(old(View()), Advance(key)).value else old(View())
    {
      hide Conserved, Submitting, Workers, Strands, WorkersOf, RegisterRunner, UnregisterRunner, ReleaseJob,
        DismissOwner, Busy;
      if AdvanceJob(View(), key).Some? {
        AdvanceConserves(totals, View(), key);
      }
      moved := capacity > 0;
      if moved {
        if key.runner in cancelled {
          Release(key);
        } else {
          capacity := capacity - 1;
          jobs := jobs[key := jobs[key].(stage := Reserving)];
          SetsAfterRestage(old(jobs), key, jobs[key]);
          assert key in waiting && key !in active by { NotSubmitting(old(jobs), key); }
        }
      }
    }

    /** From now on the Runner's submits end when they reach capacity. */
    method CancelRunner(runner: string)
      requires Valid()
      modifies this`cancelled
      ensures Valid() && Some(View()) == Step(old(View()), Cancel(runner))
    {
      hide Conserved, Strands, WorkersOf, RegisterRunner, UnregisterRunner, AdvanceJob, ReleaseJob, AdmitOwner,
        DismissOwner, Busy;
      StepConserves(totals, View(), Cancel(runner));
      cancelled := cancelled + {runner};
    }

    /** Returns one permit to each gate, last acquired first. */
    method ReturnGates(acquired: seq<string>)
      requires Distinct(acquired) && forall gate | gate in acquired :: gate in gates
      modifies this`gates
      ensures gates == Returned(old(gates), acquired)
    {
      for i := |acquired| downto 0
        invariant gates.Keys == old(gates).Keys
        invariant forall gate | gate in gates :: gates[gate] == old(gates)[gate] + Count(gate in acquired[i..])
      {
        assert acquired[i..] == [acquired[i]] + acquired[i + 1..];
        gates := gates[acquired[i] := gates[acquired[i]] + 1];
      }
      assert acquired[0..] == acquired;
    }

    /** Gives back capacity and then the acquired gates in reverse. */
    method Release(key: Key)
      requires Valid() && key in jobs
      modifies this
      ensures Valid() && View() == ReleaseJob(old(View()), key)
    {
      hide Conserved, JobFits, Submitting, Workers, WorkersOf, Distinct;
      ReleaseConserves(totals, View(), key);
      GatesExist(totals, View(), key);
      var job := jobs[key];
      ReleasedGates(View(), key);
      hide ReleaseJob, AcquiredGates;
      ReleasedRest(View(), key);
      if job.stage.Reserving? || job.stage.Running? {
        capacity := capacity + 1;
      }
      ReturnGates(AcquiredGates(job));
      jobs := map other | other in jobs && other != key :: jobs[other];
      waiting, active := waiting - {key}, active - {key};
      SetsAfterRemoval(old(jobs), key);
    }

    /** The store's answer: a Worker starts and keeps every permit, or all of them are given back. */
    method FinishReservation(key: Key, accepted: bool)
      requires Valid() && key in jobs && jobs[key].stage.Reserving?
      modifies this
      ensures Valid() && Some(View()) == Step(old(View()), Reserve(key, accepted))
    {
      hide Conserved, Submitting, Workers, Strands, WorkersOf, RegisterRunner, UnregisterRunner, AdvanceJob, ReleaseJob,
        AdmitOwner, DismissOwner, Busy;
      if accepted {
        AcceptConserves(totals, View(), key);
        jobs := jobs[key := jobs[key].(stage := Running)];
        waiting, active := waiting - {key}, active + {key};
        SetsAfterRestage(old(jobs), key, jobs[key]);
      } else {
        Release(key);
      }
    }
  }

  lemma NotSubmitting(jobs: map<Key, Job>, key: Key)
    ensures key !in jobs || jobs[key].stage.Admitting? ==> key !in Submitting(jobs) && key !in Workers(jobs)
    ensures key in jobs && jobs[key].stage.Queued? ==> key in Submitting(jobs) && key !in Workers(jobs)
  {
  }

  function Returned(gates: map<string, nat>, acquired: seq<string>): map<string, nat> {
    map gate | gate in gates :: gates[gate] + Count(gate in acquired)
  }

  /** Exactly the held gates come back, and they were acquired once each. */
  lemma ReleasedGates(state: State, key: Key)
    requires key in state.jobs && Distinct(state.jobs[key].gates)
    requires state.jobs[key].stage.Queued? ==> state.jobs[key].stage.acquired <= |state.jobs[key].gates|
    requires forall gate | gate in state.jobs[key].gates :: gate in state.gates
    ensures Distinct(AcquiredGates(state.jobs[key]))
    ensures forall gate | gate in AcquiredGates(state.jobs[key]) :: gate in state.gates
    ensures ReleaseJob(state, key).gates == Returned(state.gates, AcquiredGates(state.jobs[key]))
  {
    var job := state.jobs[key];
    assert forall gate :: gate in AcquiredGates(job) <==> job.HoldsGate(gate);
  }

  lemma ReleasedRest(state: State, key: Key)
    requires key in state.jobs
    ensures ReleaseJob(state, key) == state.(gates := ReleaseJob(state, key).gates,
                                             capacity := state.capacity
                                             + Count(state.jobs[key].stage.Reserving?
                                                     || state.jobs[key].stage.Running?),
                                             jobs := Removed(state.jobs, key))
  {
  }

  lemma GatesExist(totals: Totals, state: State, key: Key)
    requires Conserved(totals, state) && key in state.jobs
    ensures Distinct(state.jobs[key].gates)
    ensures state.jobs[key].stage.Queued? ==> state.jobs[key].stage.acquired <= |state.jobs[key].gates|
    ensures forall gate | gate in state.jobs[key].gates :: gate in state.gates
  {
    assert JobFits(state, key);
  }

  lemma EndIgnoresCancelled(state: State, cancelled: set<string>, runner: string)
    ensures EndWorkers(state.(cancelled := cancelled), runner) == EndWorkers(state, runner).(cancelled := cancelled)
    ensures EndWorkers(state, runner).cancelled == state.cancelled
    ensures Strands(EndWorkers(state.(cancelled := cancelled), runner), runner)
            <==> Strands(EndWorkers(state, runner), runner)
  {
  }

  lemma NoWorkers(jobs: map<Key, Job>, active: set<Key>, runner: string)
    requires active == Workers(jobs) && !exists key | key in active :: key.runner == runner
    ensures WorkersOf(jobs, runner) == {}
  {
  }

  lemma MinusOneMore(counts: map<string, nat>, dropped: set<string>, id: string)
    ensures counts - dropped - {id} == counts - (dropped + {id})
  {
  }

  lemma NothingDropped(runtimes: map<string, seq<string>>, ids: seq<string>)
    ensures Dropped(runtimes, ids[..0]) == {}
  {
  }

  lemma DroppedGrows(runtimes: map<string, seq<string>>, ids: seq<string>, i: nat)
    requires i < |ids|
    ensures Dropped(runtimes, ids[..i + 1])
            == Dropped(runtimes, ids[..i]) + if Shared(runtimes, ids[i]) then {} else {ids[i]}
  {
    hide Shared;
    assert ids[..i + 1] == ids[..i] + [ids[i]];
  }
}
