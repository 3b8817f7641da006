/** The router object: one array of busy counters, a queue per Runner and the round-robin order. */
module RequestRouter {
  import opened FairQueues
  import opened Outcomes
  import opened RouterProtocol
  import opened RouterFairness

  datatype Attempt = Dispatched(actor: nat) | Waiting | Refused

  class Router {
    const pool: Pool
    const busy: array<nat>
    var queues: map<string, seq<nat>>
    var order: seq<string>
    var cancelled: set<string>
    var perRunner: map<string, nat>
    var running: map<nat, Execution>

    function View(): State
      reads this, busy
    {
      State(busy[..], queues, order, cancelled, perRunner, running)
    }

    ghost predicate Valid()
      reads this, busy
    {
      pool.Valid() && Inv(pool, View())
    }

    constructor (pool: Pool)
      requires pool.Valid()
      ensures Valid() && this.pool == pool && View() == Initial(pool) && fresh(busy)
    {
      this.pool := pool;
      busy := new nat[pool.actors](_ => 0);
      queues, order, cancelled, perRunner, running := map[], [], {}, map[], map[];
      new;
      assert busy[..] == seq(pool.actors, _ => 0);
      InitialKeeps(pool);
    }

    /** The first least busy actor, found in one scan. */
    method Candidate() returns (actor: nat)
      requires busy.Length >= 1
      ensures actor < busy.Length && actor == LeastBusy(busy[..])
    {
      actor := 0;
      for i := 1 to busy.Length
        invariant actor < i && actor == LeastBusy(busy[..i])
      {
        assert busy[..i + 1][..i] == busy[..i];
        if busy[i] < busy[actor] {
          actor := i;
        }
      }
      assert busy[..busy.Length] == busy[..];
    }

    method Executing() returns (total: nat)
      ensures total == Sum(busy[..])
    {
      total := 0;
      for i := busy.Length downto 0
        invariant total == Sum(busy[i..])
      {
        assert busy[i..] == [busy[i]] + busy[i + 1..];
        total := total + busy[i];
      }
      assert busy[0..] == busy[..];
    }

    method Queued() returns (total: nat)
      requires Valid()
      ensures total == Pending(order, queues)
    {
      OrderIsQueued(pool, View());
      hide Inv;
      total := 0;
      for i := |order| downto 0
        invariant total == Pending(order[i..], queues)
      {
        assert order[i..] == [order[i]] + order[i + 1..];
        total := total + |queues[order[i]]|;
      }
    }

    method Remove(runner: string, waiter: nat)
      modifies this`queues, this`order
      ensures View() == RemoveWaiter(old(View()), runner, waiter)
    {
      if runner in queues && waiter in queues[runner] {
        var queue := RemoveFirst(queues[runner], waiter);
        if queue == [] {
          queues, order := queues - {runner}, RemoveFirst(order, runner);
        } else {
          queues := queues[runner := queue];
        }
      }
    }

    /** A request joins its Runner's queue unless the router holds too many already. */
    method Enter(runner: string, waiter: nat) returns (accepted: bool)
      requires Valid() && !Known(View(), waiter)
      modifies this
      ensures Valid() && accepted == Step(pool, old(View()), Arrive(runner, waiter)).Some?
      ensures accepted <==> old(Pending(order, queues)) < pool.maxPending
      ensures View() == if accepted then Step(pool, old(View()), Arrive(runner, waiter)).value else old(View())
    {
      hide Inv;
      var pending := Queued();
      if pending >= pool.maxPending {
        return false;
      }
      StepKeeps(pool, View(), Arrive(runner, waiter));
      if runner !in queues {
        queues, order := queues[runner := []], order + [runner];
      }
      queues := queues[runner := queues[runner] + [waiter]];
      ghost var joined := if runner in old(queues) then old(queues)[runner] + [waiter] else [waiter];
      assert queues[runner] == joined && queues == old(queues)[runner := joined];
      return true;
    }

    /** Requests of the Runner that wait are refused from now on, and no new ones dispatched. */
    method Cancel(runner: string)
      requires Valid()
      modifies this`cancelled
      ensures Valid() && Some(View()) == Step(pool, old(View()), Event.Cancel(runner)) && runner in cancelled
    {
      StepKeeps(pool, View(), Event.Cancel(runner));
      hide Inv;
      cancelled := cancelled + {runner};
    }

    method Forget(runner: string)
      requires Valid()
      modifies this`cancelled
      ensures Valid() && Some(View()) == Step(pool, old(View()), Event.Forget(runner)) && runner !in cancelled
    {
      StepKeeps(pool, View(), Event.Forget(runner));
      hide Inv;
      cancelled := cancelled - {runner};
    }

    /** Takes the slot, sends the Runner to the back of the order and leaves the queue. */
    method Occupy(candidate: nat, runner: string, waiter: nat)
      requires Valid() && runner !in cancelled && MayGo(pool, View(), runner, waiter)
      requires candidate == LeastBusy(busy[..])
      modifies this, busy
      ensures Valid() && Some(View()) == Step(pool, old(View()), Admit(runner, waiter))
      ensures running == old(running)[waiter := Execution(runner, candidate)]
    {
      hide Inv, RemoveWaiter;
      StepKeeps(pool, View(), Admit(runner, waiter));
      ghost var before := View();
      busy[candidate] := busy[candidate] + 1;
      perRunner := perRunner[runner := (if runner in perRunner then perRunner[runner] else 0) + 1];
      order := order[1..] + [order[0]];
      running := running[waiter := Execution(runner, candidate)];
      assert View() == Started(before, runner, waiter);
      RemoveTouchesQueues(View(), runner, waiter);
      Remove(runner, waiter);
    }

    /** One pass of a waiting request: it is refused, takes a slot, or goes on waiting. */
    method Attempt(runner: string, waiter: nat) returns (result: Attempt)
      requires Valid() && Waits(View(), runner, waiter)
      modifies this, busy
      ensures Valid()
      ensures result == Refused <==> runner in old(cancelled)
      ensures result.Dispatched? <==> runner !in old(cancelled) && MayGo(pool, old(View()), runner, waiter)
      ensures View() == match result
                case Refused => Step(pool, old(View()), Leave(runner, waiter)).value
                case Dispatched(_) => Step(pool, old(View()), Admit(runner, waiter)).value
                case Waiting => old(View())
      ensures result.Dispatched? ==> running[waiter] == Execution(runner, result.actor)
    {
      assert order != [] && busy.Length >= 1 && queues[runner] != [] && (order[0] == runner ==> runner in queues);
      hide Inv, RemoveWaiter, Dispatch;
      if runner in cancelled {
        StepKeeps(pool, View(), Leave(runner, waiter));
        Remove(runner, waiter);
        return Refused;
      }
      var candidate := Candidate();
      var executing := Executing();
      if order[0] == runner && queues[runner][0] == waiter && busy[candidate] < pool.limit
      && executing < pool.capacity {
        Occupy(candidate, runner, waiter);
        return Dispatched(candidate);
      }
      return Waiting;
    }

    /** The slot comes back when the physical execution ends. */
    method Release(waiter: nat)
      requires Valid() && waiter in running
      modifies this, busy
      ensures Valid() && Some(View()) == Step(pool, old(View()), Finish(waiter))
    {
      FinishEnabled(pool, View(), waiter);
      hide Inv, Less;
      ghost var before := View();
      StepKeeps(pool, before, Finish(waiter));
      LessInSteps(perRunner, running[waiter].runner);
      var Execution(runner, actor) := running[waiter];
      busy[actor] := busy[actor] - 1;
      perRunner := perRunner[runner := perRunner[runner] - 1];
      if perRunner[runner] == 0 {
        perRunner := perRunner - {runner};
      }
      running := running - {waiter};
      assert View() == Complete(before, waiter);
    }
  }

  lemma OrderIsQueued(pool: Pool, state: State)
    requires Inv(pool, state)
    ensures forall k | 0 <= k < |state.order| :: state.order[k] in state.queues
  {
  }

  lemma LessInSteps(counts: map<string, nat>, runner: string)
    requires runner in counts && counts[runner] >= 1
    ensures var lowered := counts[runner := counts[runner] - 1];
      Less(counts, runner) == if lowered[runner] == 0 then lowered - {runner} else lowered
  {
    assert counts[runner := 0] - {runner} == counts - {runner};
  }
}
