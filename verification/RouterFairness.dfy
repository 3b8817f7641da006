/** What every run of the router keeps, and why no Runner starves. */
module RouterFairness {
  import opened FairQueues
  import opened Outcomes
  import opened RouterProtocol

  // ------------------------------------------------ sums

  lemma {:induction false} SumUpdate(counts: seq<nat>, k: nat, value: nat)
    requires k < |counts|
    ensures Sum(counts[k := value]) + counts[k] == Sum(counts) + value
  {
    if k == 0 {
      assert counts[k := value][1..] == counts[1..];
    } else {
      assert counts[k := value][1..] == counts[1..][k - 1 := value];
      SumUpdate(counts[1..], k - 1, value);
    }
  }

  lemma {:induction false} SumAtLeast(counts: seq<nat>, least: nat)
    requires forall k | 0 <= k < |counts| :: counts[k] >= least
    ensures Sum(counts) >= |counts| * least
  {
    if counts != [] {
      SumAtLeast(counts[1..], least);
      assert |counts| * least == least + |counts[1..]| * least;
    }
  }

  lemma {:induction false} SumZeros(n: nat)
    ensures Sum(seq(n, _ => 0)) == 0
  {
    if n > 0 {
      assert seq(n, _ => 0)[1..] == seq(n - 1, _ => 0);
      SumZeros(n - 1);
    }
  }

  /** Spare capacity means that the least busy actor has room: the averaging argument. */
  lemma SpareMeansRoom(pool: Pool, state: State)
    requires pool.Valid() && |state.busy| == pool.actors && Sum(state.busy) < pool.capacity
    ensures state.busy[LeastBusy(state.busy)] < pool.limit
  {
    var least := state.busy[LeastBusy(state.busy)];
    if least >= pool.limit {
      SumAtLeast(state.busy, pool.limit);
    }
  }

  // ------------------------------------------------ removing a waiting request

  lemma RemoveKeepsListing(state: State, runner: string, waiter: nat)
    requires Listing(state)
    ensures Listing(RemoveWaiter(state, runner, waiter))
    ensures forall other, w :: Waits(RemoveWaiter(state, runner, waiter), other, w)
              <==> Waits(state, other, w) && !(other == runner && w == waiter)
  {
    if Waits(state, runner, waiter) {
      RemoveFirstMembers(state.queues[runner], waiter);
      RemoveFirstMembers(state.order, runner);
    }
  }

  lemma RemovePending(state: State, runner: string, waiter: nat)
    requires Listing(state) && Waits(state, runner, waiter)
    ensures var next := RemoveWaiter(state, runner, waiter);
      Pending(next.order, next.queues) + 1 == Pending(state.order, state.queues)
  {
    var queue := RemoveFirst(state.queues[runner], waiter);
    RemoveFirstMembers(state.queues[runner], waiter);
    if queue == [] {
      PendingRemoval(state.order, state.queues, runner);
    } else {
      PendingUpdate(state.order, state.queues, runner, queue);
    }
  }

  lemma LeaveKeeps(pool: Pool, state: State, runner: string, waiter: nat)
    requires Inv(pool, state) && Waits(state, runner, waiter)
    ensures Inv(pool, RemoveWaiter(state, runner, waiter))
  {
    hide Listing, Pending, Counted;
    var next := RemoveWaiter(state, runner, waiter);
    SameCounters(pool, state, next);
    RemoveKeepsListing(state, runner, waiter);
    RemovePending(state, runner, waiter);
    SubWaitersOnePlace(state, next);
  }

  lemma SubWaitersOnePlace(state: State, next: State)
    requires OnePlace(state) && next.running == state.running
    requires forall runner, waiter | Waits(next, runner, waiter) :: Waits(state, runner, waiter)
    ensures OnePlace(next)
  {
    forall runner, waiter | runner in next.queues && waiter in next.queues[runner] ensures waiter !in next.running {
      assert Waits(next, runner, waiter);
    }
    forall a, b, waiter | a in next.queues && b in next.queues && waiter in next.queues[a] && waiter in next.queues[b]
      ensures a == b
    {
      assert Waits(next, a, waiter) && Waits(next, b, waiter);
    }
  }

  // ------------------------------------------------ arrivals

  lemma ArriveListing(state: State, runner: string, waiter: nat)
    requires Listing(state) && !Known(state, waiter)
    ensures Listing(Enqueue(state, runner, waiter))
    ensures forall other, w ::
              Waits(Enqueue(state, runner, waiter), other, w)
              <==> Waits(state, other, w) || (other == runner && w == waiter)
  {
    if runner in state.queues {
      assert waiter !in state.queues[runner];
    }
  }

  lemma ArrivePending(state: State, runner: string, waiter: nat)
    requires Listing(state)
    ensures var next := Enqueue(state, runner, waiter);
      Pending(next.order, next.queues) == Pending(state.order, state.queues) + 1
  {
    var next := Enqueue(state, runner, waiter);
    if runner in state.queues {
      PendingUpdate(state.order, state.queues, runner, state.queues[runner] + [waiter]);
    } else {
      PendingIgnores(state.order, state.queues, next.queues);
      PendingAppend(state.order, runner, next.queues);
    }
  }

  lemma ArriveOnePlace(state: State, runner: string, waiter: nat)
    requires OnePlace(state) && !Known(state, waiter)
    ensures OnePlace(Enqueue(state, runner, waiter))
  {
  }

  lemma ArriveKeeps(pool: Pool, state: State, runner: string, waiter: nat)
    requires Inv(pool, state) && !Known(state, waiter) && Pending(state.order, state.queues) < pool.maxPending
    ensures Inv(pool, Enqueue(state, runner, waiter))
  {
    hide Listing, OnePlace, Pending, Known;
    ArriveListing(state, runner, waiter);
    ArrivePending(state, runner, waiter);
    ArriveOnePlace(state, runner, waiter);
  }

  // ------------------------------------------------ dispatch and completion

  lemma CountStarted(running: map<nat, Execution>, waiter: nat, execution: Execution)
    requires waiter !in running
    ensures forall actor: nat ::
              |On(running[waiter := execution], actor)|
              == |On(running, actor)| + if actor == execution.actor then 1 else 0
    ensures forall runner ::
              |Of(running[waiter := execution], runner)|
              == |Of(running, runner)| + if runner == execution.runner then 1 else 0
  {
    forall actor: nat
      ensures |On(running[waiter := execution], actor)|
              == |On(running, actor)| + if actor == execution.actor then 1 else 0
    {
      OnStarted(running, waiter, execution, actor);
    }
    forall runner
      ensures |Of(running[waiter := execution], runner)|
              == |Of(running, runner)| + if runner == execution.runner then 1 else 0
    {
      OfStarted(running, waiter, execution, runner);
    }
  }

  lemma OnStarted(running: map<nat, Execution>, waiter: nat, execution: Execution, actor: nat)
    requires waiter !in running
    ensures |On(running[waiter := execution], actor)|
            == |On(running, actor)| + if actor == execution.actor then 1 else 0
  {
    assert On(running[waiter := execution], actor)
           == On(running, actor) + if actor == execution.actor then {waiter} else {};
  }

  lemma OfStarted(running: map<nat, Execution>, waiter: nat, execution: Execution, runner: string)
    requires waiter !in running
    ensures |Of(running[waiter := execution], runner)|
            == |Of(running, runner)| + if runner == execution.runner then 1 else 0
  {
    assert Of(running[waiter := execution], runner)
           == Of(running, runner) + if runner == execution.runner then {waiter} else {};
  }

  /** The slot is taken and the Runner rotated, before the request leaves its queue. */
  function Started(state: State, runner: string, waiter: nat): State
    requires state.busy != [] && state.order != []
  {
    var actor := LeastBusy(state.busy);
    state.(busy := state.busy[actor := state.busy[actor] + 1],
           perRunner := state.perRunner[runner := Count(state.perRunner, runner) + 1],
           order := state.order[1..] + [state.order[0]],
           running := state.running[waiter := Execution(runner, actor)])
  }

  lemma StartedCounted(pool: Pool, state: State, runner: string, waiter: nat)
    requires Counted(pool, state) && waiter !in state.running && state.busy != [] && state.order != []
    ensures Counted(pool, Started(state, runner, waiter))
  {
    hide On, Of;
    var actor, started := LeastBusy(state.busy), Started(state, runner, waiter);
    CountStarted(state.running, waiter, Execution(runner, actor));
    SumUpdate(state.busy, actor, state.busy[actor] + 1);
    forall other ensures Count(started.perRunner, other) == |Of(started.running, other)| {
      assert Count(state.perRunner, other) == |Of(state.running, other)|;
    }
  }

  lemma StartedListing(state: State, runner: string, waiter: nat)
    requires Listing(state) && state.busy != [] && state.order != []
    ensures Listing(Started(state, runner, waiter))
    ensures Pending(Started(state, runner, waiter).order, state.queues) == Pending(state.order, state.queues)
  {
    var rotated := state.order[1..] + [state.order[0]];
    PendingAppend(state.order[1..], state.order[0], state.queues);
    forall other ensures other in rotated <==> other in state.order {
      assert state.order == [state.order[0]] + state.order[1..];
    }
  }

  lemma DispatchOnePlace(state: State, runner: string, waiter: nat)
    requires Listing(state) && OnePlace(state) && state.busy != [] && state.order != [] && Waits(state, runner, waiter)
    ensures OnePlace(Dispatch(state, runner, waiter))
  {
    hide RemoveWaiter, Listing;
    var started, next := Started(state, runner, waiter), Dispatch(state, runner, waiter);
    StartedListing(state, runner, waiter);
    RemoveKeepsListing(started, runner, waiter);
    RemoveTouchesQueues(started, runner, waiter);
    forall other, w | other in next.queues && w in next.queues[other] ensures w !in next.running {
      assert Waits(next, other, w) && Waits(started, other, w);
    }
    forall a, b, w | a in next.queues && b in next.queues && w in next.queues[a] && w in next.queues[b] ensures a == b {
      assert Waits(next, a, w) && Waits(next, b, w);
    }
  }

  lemma RemoveTouchesQueues(state: State, runner: string, waiter: nat)
    ensures RemoveWaiter(state, runner, waiter)
         == state.(queues := RemoveWaiter(state, runner, waiter).queues,
                   order := RemoveWaiter(state, runner, waiter).order)
  {
  }

  lemma DispatchKeeps(pool: Pool, state: State, runner: string, waiter: nat)
    requires Inv(pool, state) && MayGo(pool, state, runner, waiter)
    ensures Inv(pool, Dispatch(state, runner, waiter))
  {
    hide Listing, OnePlace, Pending, RemoveWaiter, Counted;
    var started := Started(state, runner, waiter);
    assert waiter !in state.running by { NotBoth(state, runner, waiter); }
    StartedListing(state, runner, waiter);
    StartedCounted(pool, state, runner, waiter);
    RemoveKeepsListing(started, runner, waiter);
    RemoveTouchesQueues(started, runner, waiter);
    RemovePending(started, runner, waiter);
    DispatchOnePlace(state, runner, waiter);
    SumUpdate(state.busy, LeastBusy(state.busy), state.busy[LeastBusy(state.busy)] + 1);
    SameCounters(pool, started, Dispatch(state, runner, waiter));
  }

  lemma NotBoth(state: State, runner: string, waiter: nat)
    requires OnePlace(state) && Waits(state, runner, waiter)
    ensures waiter !in state.running
  {
  }

  lemma SameCounters(pool: Pool, state: State, next: State)
    requires Counted(pool, state) && next.busy == state.busy && next.running == state.running
             && next.perRunner == state.perRunner
    ensures Counted(pool, next)
  {
  }

  lemma CompleteCounted(pool: Pool, state: State, waiter: nat)
    requires Counted(pool, state) && Step(pool, state, Finish(waiter)).Some?
    ensures Counted(pool, Complete(state, waiter))
  {
    var left := state.running - {waiter};
    var execution := state.running[waiter];
    assert left[waiter := execution] == state.running;
    CountStarted(left, waiter, execution);
    SumUpdate(state.busy, execution.actor, state.busy[execution.actor] - 1);
  }

  lemma CompleteKeeps(pool: Pool, state: State, waiter: nat)
    requires Inv(pool, state) && Step(pool, state, Finish(waiter)).Some?
    ensures Inv(pool, Complete(state, waiter))
  {
    CompleteCounted(pool, state, waiter);
    hide Counted, Pending;
    var actor := state.running[waiter].actor;
    SumUpdate(state.busy, actor, state.busy[actor] - 1);
  }

  /** An execution can always give its slot back: the counters it decreases are positive. */
  lemma FinishEnabled(pool: Pool, state: State, waiter: nat)
    requires Counted(pool, state) && waiter in state.running
    ensures Step(pool, state, Finish(waiter)).Some?
  {
    var execution := state.running[waiter];
    assert waiter in On(state.running, execution.actor) && waiter in Of(state.running, execution.runner);
  }

  // ------------------------------------------------ all runs

  lemma StepKeeps(pool: Pool, state: State, event: Event)
    requires Inv(pool, state) && Step(pool, state, event).Some?
    ensures Inv(pool, Step(pool, state, event).value)
  {
    hide Inv, Enqueue, RemoveWaiter, Dispatch, Complete, MayGo;
    match event
    case Arrive(runner, waiter) => ArriveKeeps(pool, state, runner, waiter);
    case Leave(runner, waiter) => LeaveKeeps(pool, state, runner, waiter);
    case Admit(runner, waiter) => DispatchKeeps(pool, state, runner, waiter);
    case Finish(waiter) => CompleteKeeps(pool, state, waiter);
    case Cancel(_) => MarksKeep(pool, state, Step(pool, state, event).value);
    case Forget(_) => MarksKeep(pool, state, Step(pool, state, event).value);
  }

  lemma MarksKeep(pool: Pool, state: State, next: State)
    requires Inv(pool, state) && next == state.(cancelled := next.cancelled)
    ensures Inv(pool, next)
  {
    hide Pending, Counted;
    SameCounters(pool, state, next);
  }

  lemma {:induction false} RunKeeps(pool: Pool, state: State, events: seq<Event>)
    requires Inv(pool, state) && Run(pool, state, events).Some?
    ensures Inv(pool, Run(pool, state, events).value)
    decreases |events|
  {
    hide Inv, Step;
    if events != [] {
      StepKeeps(pool, state, events[0]);
      RunKeeps(pool, Step(pool, state, events[0]).value, events[1..]);
    }
  }

  lemma InitialKeeps(pool: Pool)
    requires pool.Valid()
    ensures Inv(pool, Initial(pool))
  {
    SumZeros(pool.actors);
    assert forall actor :: On(map[], actor) == {};
    assert forall runner :: Of(map[], runner) == {};
  }

  /** The bounds every run respects, and that the three busy counters agree. */
  lemma RouterBounds(pool: Pool, events: seq<Event>)
    requires pool.Valid() && Run(pool, Initial(pool), events).Some?
    ensures var state := Run(pool, Initial(pool), events).value;
      && Listing(state)
      && |state.running| == Sum(state.busy) <= pool.capacity
      && Pending(state.order, state.queues) <= pool.maxPending
      && (forall actor | 0 <= actor < |state.busy| :: state.busy[actor] == |On(state.running, actor)| <= pool.limit)
      && (forall runner :: Count(state.perRunner, runner) == |Of(state.running, runner)|)
  {
    hide Run, Initial;
    InitialKeeps(pool);
    RunKeeps(pool, Initial(pool), events);
  }

  // ------------------------------------------------ fairness

  /** The request is the oldest of its Runner. */
  predicate IsHead(state: State, runner: string, waiter: nat) {
    runner in state.queues && state.queues[runner] != [] && state.queues[runner][0] == waiter
  }

  function Admissions(events: seq<Event>): nat {
    if events == [] then 0 else (if events[0].Admit? then 1 else 0) + Admissions(events[1..])
  }

  /** The request neither gives up nor is admitted in these events. */
  predicate KeepsWaiting(events: seq<Event>, runner: string, waiter: nat) {
    forall event | event in events :: event != Leave(runner, waiter) && event != Admit(runner, waiter)
  }

  /** Another Runner's admission moves this one up by at least one place. */
  lemma AdmissionAdvances(pool: Pool, state: State, runner: string, waiter: nat, other: string, admitted: nat)
    requires Listing(state) && IsHead(state, runner, waiter) && MayGo(pool, state, other, admitted)
    requires other != runner || admitted != waiter
    ensures var next := Dispatch(state, other, admitted);
      IsHead(next, runner, waiter) && Position(next.order, runner) + 1 <= Position(state.order, runner)
  {
    assert other != runner;
    assert state.order == [other] + state.order[1..];
    var started, next := Started(state, other, admitted), Dispatch(state, other, admitted);
    PositionAppend(state.order[1..], other, runner);
    PositionAfterRemoval(started.order, other, runner);
  }

  lemma LeaveKeepsPlace(state: State, runner: string, waiter: nat, other: string, leaver: nat)
    requires Listing(state) && IsHead(state, runner, waiter) && Waits(state, other, leaver)
    requires other != runner || leaver != waiter
    ensures var next := RemoveWaiter(state, other, leaver);
      IsHead(next, runner, waiter) && Position(next.order, runner) <= Position(state.order, runner)
  {
    if other != runner {
      PositionAfterRemoval(state.order, other, runner);
    }
  }

  lemma StepKeepsPlace(pool: Pool, state: State, runner: string, waiter: nat, event: Event)
    requires Inv(pool, state) && IsHead(state, runner, waiter) && Step(pool, state, event).Some?
    requires event != Leave(runner, waiter) && event != Admit(runner, waiter)
    ensures var next := Step(pool, state, event).value;
      && IsHead(next, runner, waiter)
      && Position(next.order, runner) + (if event.Admit? then 1 else 0) <= Position(state.order, runner)
  {
    match event
    case Arrive(other, _) => PositionAppend(state.order, other, runner);
    case Leave(other, leaver) => LeaveKeepsPlace(state, runner, waiter, other, leaver);
    case Admit(other, admitted) => AdmissionAdvances(pool, state, runner, waiter, other, admitted);
    case Finish(_) =>
    case Cancel(_) =>
    case Forget(_) =>
  }

  /**
    Round-robin fairness: the oldest request of the Runner at position k of the order waits for at most
    k other admissions, whatever arrives, leaves, finishes or is cancelled meanwhile.
   */
  lemma {:induction false} AdmittedWithinPosition(pool: Pool, state: State, runner: string, waiter: nat,
                                                  events: seq<Event>)
    requires Inv(pool, state) && IsHead(state, runner, waiter)
    requires Run(pool, state, events).Some? && KeepsWaiting(events, runner, waiter)
    ensures IsHead(Run(pool, state, events).value, runner, waiter)
    ensures Admissions(events) + Position(Run(pool, state, events).value.order, runner) <= Position(state.order, runner)
    decreases |events|
  {
    hide Inv, Step, IsHead;
    if events != [] {
      StepKeeps(pool, state, events[0]);
      assert events[0] in events && forall event | event in events[1..] :: event in events;
      StepKeepsPlace(pool, state, runner, waiter, events[0]);
      AdmittedWithinPosition(pool, Step(pool, state, events[0]).value, runner, waiter, events[1..]);
    }
  }

  /** The pool never idles: with a request waiting and spare capacity, the head of the order can act. */
  lemma HeadCanAct(pool: Pool, state: State)
    requires pool.Valid() && Inv(pool, state) && state.order != [] && Sum(state.busy) < pool.capacity
    ensures var runner := state.order[0];
      && runner in state.queues && state.queues[runner] != []
      && var waiter := state.queues[runner][0];
        Step(pool, state, if runner in state.cancelled then Leave(runner, waiter) else Admit(runner, waiter)).Some?
  {
    SpareMeansRoom(pool, state);
  }

  // ------------------------------------------------ cancellation

  /** The last word on a Runner: was it cancelled, or forgotten since? */
  function CancelledLast(events: seq<Event>, runner: string): bool {
    if events == [] then false
    else
      var last := events[|events| - 1];
      if last == Cancel(runner) then true
      else if last == Forget(runner) then false
      else CancelledLast(events[..|events| - 1], runner)
  }

  lemma {:induction false} RunSplits(pool: Pool, state: State, events: seq<Event>, last: Event)
    ensures Run(pool, state, events + [last])
         == if Run(pool, state, events).None? then None else Step(pool, Run(pool, state, events).value, last)
    decreases |events|
  {
    hide Step;
    if events == [] {
      assert [] + [last] == [last] && [last][1..] == [];
    } else {
      assert (events + [last])[1..] == events[1..] + [last];
      var next := Step(pool, state, events[0]);
      if next.Some? {
        RunSplits(pool, next.value, events[1..], last);
      }
    }
  }

  /** In every run exactly those Runners are cancelled whose last word was a cancellation. */
  lemma {:induction false} CancelledAsTold(pool: Pool, events: seq<Event>, runner: string)
    requires Run(pool, Initial(pool), events).Some?
    ensures runner in Run(pool, Initial(pool), events).value.cancelled <==> CancelledLast(events, runner)
    decreases |events|
  {
    hide Run, MayGo, Dispatch, RemoveWaiter, Complete, Known, Waits;
    if events == [] {
      NoneCancelled(pool);
    } else {
      var before, last := events[..|events| - 1], events[|events| - 1];
      assert events == before + [last];
      RunSplits(pool, Initial(pool), before, last);
      CancelledAsTold(pool, before, runner);
      StepCancels(pool, Run(pool, Initial(pool), before).value, last, runner);
    }
  }

  lemma NoneCancelled(pool: Pool)
    ensures Run(pool, Initial(pool), []) == Some(Initial(pool)) && Initial(pool).cancelled == {}
  {
  }

  lemma StepCancels(pool: Pool, state: State, event: Event, runner: string)
    requires Step(pool, state, event).Some?
    ensures runner in Step(pool, state, event).value.cancelled
       <==> event == Cancel(runner) || (event != Forget(runner) && runner in state.cancelled)
  {
  }

  lemma StepDispatchesNothing(pool: Pool, state: State, event: Event, runner: string)
    requires Step(pool, state, event).Some? && runner in state.cancelled
    ensures Of(Step(pool, state, event).value.running, runner) <= Of(state.running, runner)
  {
  }

  /** From a cancellation on no request of the Runner is dispatched until it is forgotten. */
  lemma {:induction false} CancelledDispatchesNothing(pool: Pool, state: State, events: seq<Event>, runner: string)
    requires Run(pool, state, events).Some? && runner in state.cancelled && Forget(runner) !in events
    ensures Of(Run(pool, state, events).value.running, runner) <= Of(state.running, runner)
    ensures runner in Run(pool, state, events).value.cancelled
    decreases |events|
  {
    hide Step, Of;
    if events != [] {
      StepDispatchesNothing(pool, state, events[0], runner);
      StepCancels(pool, state, events[0], runner);
      CancelledDispatchesNothing(pool, Step(pool, state, events[0]).value, events[1..], runner);
    }
  }
}
