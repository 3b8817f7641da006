/** Round-robin admission of requests across Runners, onto the least busy of a fixed set of actors. */
module RouterProtocol {
  import opened Collections
  import opened FairQueues
  import opened Outcomes

  /** The local state of a request that has been dispatched: whose it is and the slot it occupies. */
  datatype Execution = Execution(runner: string, actor: nat)

  datatype Pool = Pool(actors: nat, limit: nat, capacity: nat, maxPending: nat) {
    predicate Valid() {
      actors >= 1 && limit >= 1 && maxPending >= 1 && capacity <= actors * limit
    }
  }

  /** Only a positive request bound can be exceeded. */
  predicate Exceeds(requests: nat, maxRequests: Option<nat>) {
    maxRequests.Some? && 0 < maxRequests.value < requests
  }

  /** A missing or zero request bound means every slot of every actor. */
  function NewPool(actors: nat, limit: nat, maxPending: nat, maxRequests: Option<nat>): (pool: Outcome<Pool>)
    ensures pool.Accepted? <==> actors >= 1 && limit >= 1 && maxPending >= 1
    ensures pool.Accepted? ==> pool.value.Valid() && pool.value.capacity >= 1
    ensures pool.Accepted? && maxRequests.Some? && maxRequests.value > 0 ==> pool.value.capacity <= maxRequests.value
    ensures pool.Accepted? ==>
              && pool.value.actors == actors && pool.value.limit == limit && pool.value.maxPending == maxPending
              && forall c: nat | c <= actors * limit && !Exceeds(c, maxRequests) :: c <= pool.value.capacity
  {
    if actors == 0 || limit < 1 || maxPending < 1 then Rejected
    else
      var slots := actors * limit;
      assert slots >= 1;
      var bound := if maxRequests.None? || maxRequests.value == 0 then slots else maxRequests.value;
      Accepted(Pool(actors, limit, if slots <= bound then slots else bound, maxPending))
  }

  datatype State = State(
    busy: seq<nat>,
    queues: map<string, seq<nat>>,
    order: seq<string>,
    cancelled: set<string>,
    perRunner: map<string, nat>,
    running: map<nat, Execution>)

  function Initial(pool: Pool): State {
    State(seq(pool.actors, _ => 0), map[], [], {}, map[], map[])
  }

  datatype Event =
    | Arrive(runner: string, waiter: nat)
    | Leave(runner: string, waiter: nat)
    | Admit(runner: string, waiter: nat)
    | Finish(waiter: nat)
    | Cancel(runner: string)
    | Forget(runner: string)

  function Sum(counts: seq<nat>): nat {
    if counts == [] then 0 else counts[0] + Sum(counts[1..])
  }

  /** The first of the least busy actors. */
  function LeastBusy(busy: seq<nat>): (actor: nat)
    requires busy != []
    ensures actor < |busy|
    ensures forall k | 0 <= k < |busy| :: busy[actor] <= busy[k]
    ensures forall k | 0 <= k < actor :: busy[actor] < busy[k]
  {
    if |busy| == 1 then 0
    else
      var last := |busy| - 1;
      var best := LeastBusy(busy[..last]);
      if busy[last] < busy[best] then last else best
  }

  function Count(counts: map<string, nat>, runner: string): nat {
    if runner in counts then counts[runner] else 0
  }

  function Less(counts: map<string, nat>, runner: string): map<string, nat>
    requires runner in counts && counts[runner] >= 1
  {
    if counts[runner] == 1 then counts - {runner} else counts[runner := counts[runner] - 1]
  }

  /** Takes a request out of its queue; the last one takes the Runner out of the order too. */
  function RemoveWaiter(state: State, runner: string, waiter: nat): State {
    if runner !in state.queues || waiter !in state.queues[runner] then state
    else
      var queue := RemoveFirst(state.queues[runner], waiter);
      if queue == [] then state.(queues := state.queues - {runner}, order := RemoveFirst(state.order, runner))
      else state.(queues := state.queues[runner := queue])
  }

  function Enqueue(state: State, runner: string, waiter: nat): State {
    if runner in state.queues then state.(queues := state.queues[runner := state.queues[runner] + [waiter]])
    else state.(queues := state.queues[runner := [waiter]], order := state.order + [runner])
  }

  /** The first Runner's oldest request goes when an actor has room and the pool is below capacity. */
  predicate MayGo(pool: Pool, state: State, runner: string, waiter: nat) {
    && state.busy != [] && state.order != [] && state.order[0] == runner
    && runner in state.queues && state.queues[runner] != [] && state.queues[runner][0] == waiter
    && state.busy[LeastBusy(state.busy)] < pool.limit && Sum(state.busy) < pool.capacity
  }

  /** Occupies a slot, sends the Runner to the back and takes the request out of its queue. */
  function Dispatch(state: State, runner: string, waiter: nat): State
    requires state.busy != [] && state.order != []
  {
    var actor := LeastBusy(state.busy);
    RemoveWaiter(state.(busy := state.busy[actor := state.busy[actor] + 1],
                        perRunner := state.perRunner[runner := Count(state.perRunner, runner) + 1],
                        order := state.order[1..] + [state.order[0]],
                        running := state.running[waiter := Execution(runner, actor)]), runner, waiter)
  }

  predicate Known(state: State, waiter: nat) {
    waiter in state.running || exists runner | runner in state.queues :: waiter in state.queues[runner]
  }

  predicate Waits(state: State, runner: string, waiter: nat) {
    runner in state.queues && waiter in state.queues[runner]
  }

  /** `None` when the event is not enabled. */
  function Step(pool: Pool, state: State, event: Event): Option<State> {
    match event
    case Arrive(runner, waiter) =>
      if Known(state, waiter) || Pending(state.order, state.queues) >= pool.maxPending then None
      else Some(Enqueue(state, runner, waiter))
    case Leave(runner, waiter) =>
      if Waits(state, runner, waiter) then Some(RemoveWaiter(state, runner, waiter)) else None
    case Admit(runner, waiter) =>
      if runner !in state.cancelled && MayGo(pool, state, runner, waiter) then Some(Dispatch(state, runner, waiter))
      else None
    case Finish(waiter) =>
      if waiter in state.running && state.running[waiter].actor < |state.busy|
         && state.busy[state.running[waiter].actor] >= 1
            && Count(state.perRunner, state.running[waiter].runner) >= 1 then
        Some(Complete(state, waiter))
      else None
    case Cancel(runner) => Some(state.(cancelled := state.cancelled + {runner}))
    case Forget(runner) => Some(state.(cancelled := state.cancelled - {runner}))
  }

  function Complete(state: State, waiter: nat): State
    requires waiter in state.running && state.running[waiter].actor < |state.busy|
    requires state.busy[state.running[waiter].actor] >= 1 && Count(state.perRunner, state.running[waiter].runner) >= 1
  {
    var Execution(runner, actor) := state.running[waiter];
    state.(busy := state.busy[actor := state.busy[actor] - 1], perRunner := Less(state.perRunner, runner),
           running := state.running - {waiter})
  }

  function Run(pool: Pool, state: State, events: seq<Event>): Option<State>
    decreases |events|
  {
    if events == [] then Some(state)
    else
      var next := Step(pool, state, events[0]);
      if next.None? then None else Run(pool, next.value, events[1..])
  }

  // ------------------------------------------------ the invariant

  /** The order lists exactly the Runners with waiting requests, each once. */
  ghost predicate Listing(state: State) {
    && Distinct(state.order)
    && (forall runner :: runner in state.order <==> runner in state.queues)
    && (forall runner | runner in state.queues :: state.queues[runner] != [] && Distinct(state.queues[runner]))
  }

  /** A request waits in one queue or executes, never both. */
  ghost predicate OnePlace(state: State) {
    && (forall runner, waiter | runner in state.queues && waiter in state.queues[runner] :: waiter !in state.running)
    && (forall a, b, waiter | a in state.queues && b in state.queues && waiter in state.queues[a]
        && waiter in state.queues[b] :: a == b)
  }

  function On(running: map<nat, Execution>, actor: nat): set<nat> {
    set waiter | waiter in running && running[waiter].actor == actor
  }

  function Of(running: map<nat, Execution>, runner: string): set<nat> {
    set waiter | waiter in running && running[waiter].runner == runner
  }

  /** The three counters count the same executions: per actor, per Runner and in total. */
  ghost predicate Counted(pool: Pool, state: State) {
    && |state.busy| == pool.actors
    && (forall waiter | waiter in state.running :: state.running[waiter].actor < pool.actors)
    && (forall actor | 0 <= actor < pool.actors :: state.busy[actor] == |On(state.running, actor)|)
    && (forall runner :: Count(state.perRunner, runner) == |Of(state.running, runner)|)
    && (forall runner | runner in state.perRunner :: state.perRunner[runner] >= 1)
    && Sum(state.busy) == |state.running|
  }

  ghost predicate Bounded(pool: Pool, state: State) {
    && (forall actor | 0 <= actor < |state.busy| :: state.busy[actor] <= pool.limit)
    && Sum(state.busy) <= pool.capacity
    && Pending(state.order, state.queues) <= pool.maxPending
  }

  ghost predicate Inv(pool: Pool, state: State) {
    Listing(state) && OnePlace(state) && Counted(pool, state) && Bounded(pool, state)
  }
}
