/**
  The permit hierarchy: Runner admission, then runtime gates from child to parent, then global
  capacity. Every await is one point where other tasks may act, so a state machine over the
  acquisitions covers every interleaving.
 */
module PermitProtocol {
  import opened Collections
  import opened Outcomes
  import opened RuntimeTree

  datatype Key = Key(runner: string, step: string)

  /** A submit waits for admission, then holds a prefix of its gates, then all gates and capacity. */
  datatype Stage = Admitting | Queued(acquired: nat) | Reserving | Running

  datatype Job = Job(gates: seq<string>, stage: Stage) {
    predicate HoldsGate(gate: string) {
      match stage
      case Admitting => false
      case Queued(acquired) => acquired <= |gates| && gate in gates[..acquired]
      case Reserving => gate in gates
      case Running => gate in gates
    }

    predicate HoldsCapacity() {
      stage.Reserving? || stage.Running?
    }

    predicate Waiting() {
      stage.Admitting? || stage.Queued?
    }
  }

  datatype Totals = Totals(admission: nat, capacity: nat)

  datatype State = State(
    admission: nat,                    // free Runner permits
    admitted: set<string>,             // owners of the taken ones
    runtimes: map<string, seq<string>>, // the gates each registered Runner lists
    limits: map<string, nat>,
    gates: map<string, nat>,           // free permits of each gate
    capacity: nat,                     // free permits of the whole scheduler
    jobs: map<Key, Job>,               // submits that still hold or await something
    cancelled: set<string>)

  function Initial(totals: Totals): State {
    State(totals.admission, {}, map[], map[], map[], totals.capacity, map[], {})
  }

  datatype Event =
    | Register(runner: string, entries: seq<Limit>)
    | Unregister(runner: string)
    | Begin(key: Key)
    | Advance(key: Key)
    | Reserve(key: Key, accepted: bool)
    | Abort(key: Key)
    | Finish(key: Key)
    | Cancel(runner: string)
    | Admit(owner: string)
    | Transfer(slot: string, owner: string)
    | Dismiss(owner: string)

  // ------------------------------------------------ registration

  /** A limit is usable when it is positive and does not change a gate that exists. */
  predicate Usable(state: State, entry: Limit) {
    entry.workers >= 1 && (entry.runtime in state.limits ==> state.limits[entry.runtime] == entry.workers)
  }

  function AddGate(state: State, entry: Limit): State {
    state.(limits := state.limits[entry.runtime := entry.workers],
           gates := if entry.runtime in state.gates then state.gates
                    else state.gates[entry.runtime := entry.workers])
  }

  /** Entries before a refused one stay added. */
  function AddGates(state: State, entries: seq<Limit>): (State, bool)
    decreases |entries|
  {
    if entries == [] then (state, true)
    else if !Usable(state, entries[0]) then (state, false)
    else AddGates(AddGate(state, entries[0]), entries[1..])
  }

  function RegisterRunner(state: State, runner: string, entries: seq<Limit>): State {
    var (added, accepted) := AddGates(state, entries);
    if accepted then added.(runtimes := added.runtimes[runner := Names(entries)]) else added
  }

  function Listed(state: State, runner: string): seq<string> {
    if runner in state.runtimes then state.runtimes[runner] else []
  }

  predicate Shared(runtimes: map<string, seq<string>>, gate: string) {
    exists runner | runner in runtimes :: gate in runtimes[runner]
  }

  /** The given gates that no Runner lists. */
  function Dropped(runtimes: map<string, seq<string>>, gates: seq<string>): set<string> {
    set gate | gate in gates && !Shared(runtimes, gate)
  }

  function OtherLists(state: State, runner: string): map<string, seq<string>> {
    map other | other in state.runtimes && other != runner :: state.runtimes[other]
  }

  /** Some submit would be left with a gate that only this Runner lists. */
  predicate Strands(state: State, runner: string) {
    exists key | key in state.jobs ::
      UsesAny(state.jobs[key], Dropped(OtherLists(state, runner), Listed(state, runner)))
  }

  predicate UsesAny(job: Job, gates: set<string>) {
    exists gate | gate in job.gates :: gate in gates
  }

  /** Forgets the Runner and every gate that only it listed. */
  function UnregisterRunner(state: State, runner: string): State {
    var left := OtherLists(state, runner);
    var dropped := Dropped(left, Listed(state, runner));
    state.(runtimes := left, limits := state.limits - dropped, gates := state.gates - dropped,
           cancelled := state.cancelled - {runner})
  }

  predicate Busy(state: State, runner: string) {
    exists key | key in state.jobs :: key.runner == runner
  }

  predicate IsWorkerOf(jobs: map<Key, Job>, runner: string, key: Key) {
    key in jobs && key.runner == runner && jobs[key].stage.Running?
  }

  function WorkersOf(jobs: map<Key, Job>, runner: string): set<Key> {
    set key | key in jobs && IsWorkerOf(jobs, runner, key)
  }

  function HoldersOf(jobs: map<Key, Job>, runner: string, gate: string): set<Key> {
    set key | key in jobs && IsWorkerOf(jobs, runner, key) && jobs[key].HoldsGate(gate)
  }

  /** All Workers of the Runner have ended and given back what they held. */
  function EndWorkers(state: State, runner: string): State {
    state.(
      gates := map gate | gate in state.gates :: state.gates[gate] + |HoldersOf(state.jobs, runner, gate)|,
      capacity := state.capacity + |WorkersOf(state.jobs, runner)|,
      jobs := map key | key in state.jobs && !IsWorkerOf(state.jobs, runner, key) :: state.jobs[key])
  }

  // ------------------------------------------------ admission

  /** An owner already admitted passes at once; another takes a permit when one is free. */
  function AdmitOwner(state: State, owner: string): Option<State> {
    if owner in state.admitted then Some(state)
    else if state.admission == 0 then None
    else Some(state.(admission := state.admission - 1, admitted := state.admitted + {owner}))
  }

  function DismissOwner(state: State, owner: string): State {
    if owner in state.admitted then state.(admission := state.admission + 1, admitted := state.admitted - {owner})
    else state
  }

  /** The slot's permit becomes the owner's without being released in between. */
  function TransferPermit(state: State, slot: string, owner: string): State {
    state.(admitted := state.admitted - {slot} + {owner})
  }

  // ------------------------------------------------ submits

  function Restage(state: State, key: Key, stage: Stage): State
    requires key in state.jobs
  {
    state.(jobs := state.jobs[key := state.jobs[key].(stage := stage)])
  }

  /** Gives back capacity and every gate the job holds, once, and forgets the job. */
  function ReleaseJob(state: State, key: Key): State
    requires key in state.jobs
  {
    var job := state.jobs[key];
    state.(
      gates := map gate | gate in state.gates :: state.gates[gate] + if job.HoldsGate(gate) then 1 else 0,
      capacity := state.capacity + if job.HoldsCapacity() then 1 else 0,
      jobs := Removed(state.jobs, key))
  }

  function Removed(jobs: map<Key, Job>, key: Key): map<Key, Job> {
    map other | other in jobs && other != key :: jobs[other]
  }

  function PassAdmission(state: State, key: Key): Option<State>
    requires key in state.jobs
  {
    var admitted := AdmitOwner(state, key.runner);
    if admitted.None? then None else Some(Restage(admitted.value, key, Queued(0)))
  }

  function TakeGate(state: State, key: Key, acquired: nat): Option<State>
    requires key in state.jobs && acquired < |state.jobs[key].gates|
  {
    var gate := state.jobs[key].gates[acquired];
    if gate in state.gates && state.gates[gate] > 0 then
      Some(Restage(state.(gates := state.gates[gate := state.gates[gate] - 1]), key, Queued(acquired + 1)))
    else None
  }

  /** A cancelled Runner takes capacity only to give everything back. */
  function TakeCapacity(state: State, key: Key): Option<State>
    requires key in state.jobs
  {
    if state.capacity == 0 then None
    else if key.runner in state.cancelled then Some(ReleaseJob(state, key))
    else Some(Restage(state.(capacity := state.capacity - 1), key, Reserving))
  }

  /** One more permit in the fixed order, if it is free. */
  function AdvanceJob(state: State, key: Key): Option<State>
    requires key in state.jobs
  {
    var job := state.jobs[key];
    match job.stage
    case Admitting => PassAdmission(state, key)
    case Queued(acquired) =>
      if acquired < |job.gates| then TakeGate(state, key, acquired) else TakeCapacity(state, key)
    case Reserving => None
    case Running => None
  }

  /** `None` when the event is not enabled. */
  function Step(state: State, event: Event): Option<State> {
    match event
    case Register(runner, entries) =>
      if !Distinct(Names(entries)) then None else Some(RegisterRunner(state, runner, entries))
    case Unregister(runner) =>
      if WorkersOf(state.jobs, runner) != {} || Strands(state, runner) then None
      else Some(UnregisterRunner(state, runner))
    case Begin(key) =>
      if key in state.jobs then None
      else Some(state.(jobs := state.jobs[key := Job(Listed(state, key.runner), Admitting)]))
    case Advance(key) => if key in state.jobs then AdvanceJob(state, key) else None
    case Reserve(key, accepted) =>
      if key !in state.jobs || !state.jobs[key].stage.Reserving? then None
      else Some(if accepted then Restage(state, key, Running) else ReleaseJob(state, key))
    case Abort(key) =>
      if key in state.jobs && !state.jobs[key].stage.Running? then Some(ReleaseJob(state, key)) else None
    case Finish(key) =>
      if key in state.jobs && state.jobs[key].stage.Running? then Some(ReleaseJob(state, key)) else None
    case Cancel(runner) => Some(state.(cancelled := state.cancelled + {runner}))
    case Admit(owner) => AdmitOwner(state, owner)
    case Transfer(slot, owner) =>
      if slot in state.admitted && owner !in state.admitted then Some(TransferPermit(state, slot, owner)) else None
    case Dismiss(owner) => Some(DismissOwner(state, owner))
  }

  function Run(totals: Totals, events: seq<Event>): Option<State>
    decreases |events|
  {
    if events == [] then Some(Initial(totals))
    else
      var before := Run(totals, events[..|events| - 1]);
      if before.None? then None else Step(before.value, events[|events| - 1])
  }
}
