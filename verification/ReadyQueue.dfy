/** The coordinator's in-memory queue of ready Runners: bounded, without repeats, fair over campaigns. */
module ReadyQueue {
  import opened Collections
  import opened FairQueues
  import opened Outcomes

  datatype Entry = Entry(id: string, campaign: string)

  datatype State = State(queues: map<string, seq<string>>, order: seq<string>, admitted: set<string>)

  const EMPTY := State(map[], [], {})

  /** A Runner already admitted is passed over. */
  function Add(state: State, entry: Entry): State {
    if entry.id in state.admitted then state
    else if entry.campaign in state.queues then
      state.(queues := state.queues[entry.campaign := state.queues[entry.campaign] + [entry.id]],
             admitted := state.admitted + {entry.id})
    else
      State(state.queues[entry.campaign := [entry.id]], state.order + [entry.campaign], state.admitted + {entry.id})
  }

  /** Publishing stops at the first Runner that finds the queue full. */
  function AddAll(state: State, capacity: nat, entries: seq<Entry>): State
    decreases |entries|
  {
    if entries == [] || Pending(state.order, state.queues) >= capacity then state
    else AddAll(Add(state, entries[0]), capacity, entries[1..])
  }

  predicate Claimable(state: State) {
    state.order != [] && state.order[0] in state.queues && state.queues[state.order[0]] != []
  }

  /** The first campaign gives its oldest Runner and goes to the back if it has more. */
  function TakeHead(state: State): (string, State)
    requires Claimable(state)
  {
    var campaign := state.order[0];
    var queue := state.queues[campaign];
    if |queue| > 1 then
      (queue[0], state.(queues := state.queues[campaign := queue[1..]], order := state.order[1..] + [campaign]))
    else (queue[0], state.(queues := state.queues - {campaign}, order := state.order[1..]))
  }

  predicate IsQueued(state: State, id: string) {
    exists campaign | campaign in state.queues :: id in state.queues[campaign]
  }

  /** Each campaign with waiting Runners is listed once; each waiting Runner waits once and is admitted. */
  ghost predicate Listing(state: State) {
    && Distinct(state.order)
    && (forall campaign :: campaign in state.order <==> campaign in state.queues)
    && (forall campaign | campaign in state.queues :: state.queues[campaign] != [] && Distinct(state.queues[campaign]))
  }

  ghost predicate Once(state: State) {
    && (forall campaign, id | campaign in state.queues && id in state.queues[campaign] :: id in state.admitted)
    && (forall a, b, id | a in state.queues && b in state.queues && id in state.queues[a] && id in state.queues[b] ::
        a == b)
  }

  ghost predicate Inv(state: State, capacity: nat) {
    Listing(state) && Once(state) && Pending(state.order, state.queues) <= capacity
  }

  // ------------------------------------------------ adding

  lemma AddListing(state: State, entry: Entry)
    requires Listing(state) && Once(state)
    ensures Listing(Add(state, entry)) && Once(Add(state, entry))
  {
    AddOnce(state, entry);
    assert entry.id !in state.admitted ==> forall campaign | campaign in state.queues ::
             entry.id !in state.queues[campaign];
  }

  lemma AddOnce(state: State, entry: Entry)
    requires Once(state)
    ensures Once(Add(state, entry))
  {
  }

  lemma AddPending(state: State, entry: Entry)
    requires Listing(state)
    ensures Pending(Add(state, entry).order, Add(state, entry).queues)
         <= Pending(state.order, state.queues) + 1
  {
    if entry.id !in state.admitted {
      var next := Add(state, entry);
      if entry.campaign in state.queues {
        PendingUpdate(state.order, state.queues, entry.campaign, next.queues[entry.campaign]);
      } else {
        PendingIgnores(state.order, state.queues, next.queues);
        PendingAppend(state.order, entry.campaign, next.queues);
      }
    }
  }

  lemma AddKeeps(state: State, capacity: nat, entry: Entry)
    requires Inv(state, capacity) && Pending(state.order, state.queues) < capacity
    ensures Inv(Add(state, entry), capacity)
  {
    hide Listing, Once, Pending, Add;
    AddListing(state, entry);
    AddPending(state, entry);
  }

  lemma {:induction false} AddAllKeeps(state: State, capacity: nat, entries: seq<Entry>)
    requires Inv(state, capacity)
    ensures Inv(AddAll(state, capacity, entries), capacity)
    decreases |entries|
  {
    hide Inv, Add, Pending;
    if entries != [] && Pending(state.order, state.queues) < capacity {
      AddKeeps(state, capacity, entries[0]);
      AddAllKeeps(Add(state, entries[0]), capacity, entries[1..]);
    }
  }

  /** What publishing leaves as it was: each campaign keeps its place and each queue its beginning. */
  ghost predicate Extends(state: State, next: State) {
    && state.order <= next.order && state.admitted <= next.admitted
    && forall campaign | campaign in state.queues ::
         campaign in next.queues && state.queues[campaign] <= next.queues[campaign]
  }

  lemma AddExtends(state: State, entry: Entry)
    ensures Extends(state, Add(state, entry)) && Add(state, entry).admitted == state.admitted + {entry.id}
    ensures entry.id !in state.admitted ==>
              && entry.campaign in Add(state, entry).queues && entry.id in Add(state, entry).queues[entry.campaign]
  {
    if entry.id !in state.admitted {
      var queue := Add(state, entry).queues[entry.campaign];
      assert queue[|queue| - 1] == entry.id;
    }
  }

  /** Newly admitted Runners wait in their own campaigns. */
  ghost predicate WaitInOwn(state: State, next: State, entries: seq<Entry>) {
    forall id | id in next.admitted && id !in state.admitted ::
      exists entry :: && entry in entries && entry.id == id
                      && entry.campaign in next.queues && id in next.queues[entry.campaign]
  }

  /** Every Runner published is admitted unless the queue is full at the end, and waits behind those there before. */
  lemma {:induction false} AddAllPublishes(state: State, capacity: nat, entries: seq<Entry>)
    ensures var next := AddAll(state, capacity, entries);
      && Extends(state, next) && WaitInOwn(state, next, entries)
      && (Pending(next.order, next.queues) >= capacity || forall entry | entry in entries :: entry.id in next.admitted)
    decreases |entries|
  {
    hide Pending, Add;
    if entries != [] && Pending(state.order, state.queues) < capacity {
      var added := Add(state, entries[0]);
      AddExtends(state, entries[0]);
      AddAllPublishes(added, capacity, entries[1..]);
      var next := AddAll(added, capacity, entries[1..]);
      assert forall entry :: entry in entries <==> entry == entries[0] || entry in entries[1..];
      forall id | id in next.admitted && id !in state.admitted
        ensures exists entry :: && entry in entries && entry.id == id && entry.campaign in next.queues
                                && id in next.queues[entry.campaign]
      {
        if id == entries[0].id {
          var campaign := entries[0].campaign;
          assert added.queues[campaign] <= next.queues[campaign];
          assert entries[0] in entries;
        } else {
          assert id !in added.admitted;
        }
      }
    }
  }

  // ------------------------------------------------ claiming

  lemma HeadExists(state: State, capacity: nat)
    requires Inv(state, capacity) && state.order != []
    ensures Claimable(state)
  {
  }

  /** The claimed Runner waits nowhere any more, and it stays admitted. */
  lemma TakeKeeps(state: State, capacity: nat)
    requires Inv(state, capacity) && state.order != []
    ensures Claimable(state)
    ensures Inv(TakeHead(state).1, capacity) && !IsQueued(TakeHead(state).1, TakeHead(state).0)
    ensures TakeHead(state).0 in state.admitted && TakeHead(state).1.admitted == state.admitted
  {
    var campaign := state.order[0];
    var queue, next := state.queues[campaign], TakeHead(state).1;
    assert state.order == [campaign] + state.order[1..];
    if |queue| > 1 {
      PendingAppend(state.order[1..], campaign, next.queues);
      PendingIgnores(state.order[1..], state.queues, next.queues);
      assert campaign in next.order;
    } else {
      PendingIgnores(state.order[1..], state.queues, next.queues);
    }
    TakeListing(state);
  }

  lemma TakeListing(state: State)
    requires Listing(state) && Once(state) && state.order != []
    ensures Claimable(state)
    ensures Listing(TakeHead(state).1) && Once(TakeHead(state).1) && !IsQueued(TakeHead(state).1, TakeHead(state).0)
  {
    var campaign := state.order[0];
    var queue, next := state.queues[campaign], TakeHead(state).1;
    TailWithout(state.order);
    TailWithout(queue);
    forall other, id | other in next.queues && id in next.queues[other]
      ensures id in state.queues[other] && id != queue[0]
    {
    }
  }

  lemma TailWithout(items: seq<string>)
    requires Distinct(items) && items != []
    ensures Distinct(items[1..]) && forall item :: item in items[1..] <==> item in items && item != items[0]
  {
    assert items == [items[0]] + items[1..];
    forall k | 0 <= k < |items[1..]| ensures items[1..][k] != items[0] {
    }
  }

  // ------------------------------------------------ runs

  datatype Event = Publish(entries: seq<Entry>) | Claim | Discard(id: string)

  /** A Runner that waits is never discarded: only its claimer or its execution gives it back. */
  function Step(state: State, capacity: nat, event: Event): Option<State> {
    match event
    case Publish(entries) => Some(AddAll(state, capacity, entries))
    case Claim =>
      if Claimable(state) then Some(TakeHead(state).1) else None
    case Discard(id) => if IsQueued(state, id) then None else Some(state.(admitted := state.admitted - {id}))
  }

  function Run(state: State, capacity: nat, events: seq<Event>): Option<State>
    decreases |events|
  {
    if events == [] then Some(state)
    else
      var next := Step(state, capacity, events[0]);
      if next.None? then None else Run(next.value, capacity, events[1..])
  }

  lemma StepKeeps(state: State, capacity: nat, event: Event)
    requires Inv(state, capacity) && Step(state, capacity, event).Some?
    ensures Inv(Step(state, capacity, event).value, capacity)
  {
    match event
    case Publish(entries) => AddAllKeeps(state, capacity, entries);
    case Claim => TakeKeeps(state, capacity);
    case Discard(_) =>
  }

  // ------------------------------------------------ no Runner is claimed twice

  /** Claimed and not given back: it waits nowhere, and publishing passes it over. */
  ghost predicate Taken(state: State, id: string) {
    id in state.admitted && !IsQueued(state, id)
  }

  lemma {:induction false} AddAllKeepsTaken(state: State, capacity: nat, entries: seq<Entry>, id: string)
    requires Taken(state, id)
    ensures Taken(AddAll(state, capacity, entries), id)
    decreases |entries|
  {
    hide Pending;
    if entries != [] && Pending(state.order, state.queues) < capacity {
      AddAllKeepsTaken(Add(state, entries[0]), capacity, entries[1..], id);
    }
  }

  lemma StepKeepsTaken(state: State, capacity: nat, event: Event, id: string)
    requires Taken(state, id) && Step(state, capacity, event).Some? && event != Discard(id)
    ensures Taken(Step(state, capacity, event).value, id)
  {
    match event
    case Publish(entries) => AddAllKeepsTaken(state, capacity, entries, id);
    case Claim =>
    case Discard(_) =>
  }

  lemma {:induction false} RunKeepsTaken(state: State, capacity: nat, events: seq<Event>, id: string)
    requires Inv(state, capacity) && Taken(state, id) && Run(state, capacity, events).Some? && Discard(id) !in events
    ensures Inv(Run(state, capacity, events).value, capacity) && Taken(Run(state, capacity, events).value, id)
    decreases |events|
  {
    hide Inv, Step, Taken;
    if events != [] {
      StepKeeps(state, capacity, events[0]);
      StepKeepsTaken(state, capacity, events[0], id);
      RunKeepsTaken(Step(state, capacity, events[0]).value, capacity, events[1..], id);
    }
  }

  lemma {:induction false} RunKeeps(state: State, capacity: nat, events: seq<Event>)
    requires Inv(state, capacity) && Run(state, capacity, events).Some?
    ensures Inv(Run(state, capacity, events).value, capacity)
    decreases |events|
  {
    hide Inv, Step;
    if events != [] {
      StepKeeps(state, capacity, events[0]);
      RunKeeps(Step(state, capacity, events[0]).value, capacity, events[1..]);
    }
  }

  /** Between two claims of one Runner, in any run, it was given back. */
  lemma ClaimedOncePerDiscard(capacity: nat, before: seq<Event>, between: seq<Event>, first: State, second: State,
                              id: string)
    requires Run(EMPTY, capacity, before) == Some(first) && Claimable(first) && TakeHead(first).0 == id
    requires Run(TakeHead(first).1, capacity, between) == Some(second) && Claimable(second) && TakeHead(second).0 == id
    ensures Discard(id) in between
  {
    hide Run, TakeHead;
    RunKeeps(EMPTY, capacity, before);
    TakeKeeps(first, capacity);
    if Discard(id) !in between {
      RunKeepsTaken(TakeHead(first).1, capacity, between, id);
      HeadIsQueued(second);
    }
  }

  lemma HeadIsQueued(state: State)
    requires Claimable(state)
    ensures IsQueued(state, TakeHead(state).0)
  {
    assert state.queues[state.order[0]][0] in state.queues[state.order[0]];
  }

  /** A Runner given back can be published again, and then waits. */
  lemma DiscardedComesBack(state: State, capacity: nat, entry: Entry)
    requires Step(state, capacity, Discard(entry.id)).Some?
    requires Pending(state.order, state.queues) < capacity
    ensures var given := Step(state, capacity, Discard(entry.id)).value;
      && entry.id !in given.admitted && given.queues == state.queues && given.order == state.order
      && IsQueued(AddAll(given, capacity, [entry]), entry.id)
  {
    var given := Step(state, capacity, Discard(entry.id)).value;
    AddExtends(given, entry);
    assert [entry][1..] == [];
    assert AddAll(Add(given, entry), capacity, []) == Add(given, entry);
  }

  // ------------------------------------------------ fairness

  predicate IsHead(state: State, campaign: string, id: string) {
    campaign in state.queues && state.queues[campaign] != [] && state.queues[campaign][0] == id
  }

  function Claims(events: seq<Event>): nat {
    if events == [] then 0 else (if events[0].Claim? then 1 else 0) + Claims(events[1..])
  }

  lemma {:induction false} AddAllKeepsPlace(state: State, capacity: nat, entries: seq<Entry>, campaign: string,
                                            id: string)
    requires Listing(state) && Once(state) && IsHead(state, campaign, id)
    ensures IsHead(AddAll(state, capacity, entries), campaign, id)
    ensures Position(AddAll(state, capacity, entries).order, campaign) == Position(state.order, campaign)
    decreases |entries|
  {
    if entries != [] && Pending(state.order, state.queues) < capacity {
      AddListing(state, entries[0]);
      if entries[0].campaign !in state.queues {
        PositionAppend(state.order, entries[0].campaign, campaign);
      }
      AddAllKeepsPlace(Add(state, entries[0]), capacity, entries[1..], campaign, id);
    }
  }

  lemma StepKeepsPlace(state: State, capacity: nat, event: Event, campaign: string, id: string)
    requires Inv(state, capacity) && IsHead(state, campaign, id) && Step(state, capacity, event).Some?
    requires event.Claim? ==> state.order[0] != campaign
    ensures var next := Step(state, capacity, event).value;
      IsHead(next, campaign, id)
      && Position(next.order, campaign) + (if event.Claim? then 1 else 0) == Position(state.order, campaign)
  {
    match event
    case Publish(entries) => AddAllKeepsPlace(state, capacity, entries, campaign, id);
    case Claim =>
      assert campaign in state.order && state.order == [state.order[0]] + state.order[1..];
      PositionAppend(state.order[1..], state.order[0], campaign);
    case Discard(_) =>
  }

  /** The campaign is not claimed from in this run. */
  predicate Waits(state: State, capacity: nat, events: seq<Event>, campaign: string)
    decreases |events|
  {
    events == []
    || ((events[0].Claim? ==> state.order != [] && state.order[0] != campaign)
        && (var next := Step(state, capacity, events[0]);
            next.Some? && Waits(next.value, capacity, events[1..], campaign)))
  }

  /** Fairness: the campaign at position k waits for exactly the k campaigns ahead of it, one claim each. */
  lemma {:induction false} ClaimedAfterPosition(state: State, capacity: nat, events: seq<Event>, campaign: string,
                                                id: string)
    requires Inv(state, capacity) && IsHead(state, campaign, id) && Waits(state, capacity, events, campaign)
    ensures Run(state, capacity, events).Some? && IsHead(Run(state, capacity, events).value, campaign, id)
    ensures Claims(events) + Position(Run(state, capacity, events).value.order, campaign)
            == Position(state.order, campaign)
    decreases |events|
  {
    hide Inv, Step, IsHead;
    if events != [] {
      StepKeeps(state, capacity, events[0]);
      StepKeepsPlace(state, capacity, events[0], campaign, id);
      ClaimedAfterPosition(Step(state, capacity, events[0]).value, capacity, events[1..], campaign, id);
    }
  }

  // ------------------------------------------------ the object

  class RuntimeCoordinator {
    const capacity: nat
    var queues: map<string, seq<string>>
    var order: seq<string>
    var admitted: set<string>

    function View(): State
      reads this
    {
      State(queues, order, admitted)
    }

    ghost predicate Valid()
      reads this
    {
      Inv(View(), capacity)
    }

    constructor (capacity: nat)
      ensures Valid() && View() == EMPTY && this.capacity == capacity
    {
      this.capacity, queues, order, admitted := capacity, map[], [], {};
    }

    method Queued() returns (total: nat)
      requires Valid()
      ensures total == Pending(order, queues)
    {
      OrderIsQueued(View(), capacity);
      hide Inv;
      total := 0;
      for i := |order| downto 0
        invariant total == Pending(order[i..], queues)
      {
        assert order[i..] == [order[i]] + order[i + 1..];
        total := total + |queues[order[i]]|;
      }
    }

    method EnqueueRunners(entries: seq<Entry>)
      requires Valid()
      modifies this
      ensures Valid() && View() == AddAll(old(View()), capacity, entries)
    {
      hide Inv, Add, Pending;
      AddAllKeeps(View(), capacity, entries);
      for i := 0 to |entries|
        invariant Valid() && AddAll(old(View()), capacity, entries) == AddAll(View(), capacity, entries[i..])
      {
        assert entries[i..][0] == entries[i] && entries[i..][1..] == entries[i + 1..];
        var queued := Queued();
        if queued >= capacity {
          break;
        }
        AddKeeps(View(), capacity, entries[i]);
        Insert(entries[i]);
      }
    }

    method Insert(entry: Entry)
      modifies this
      ensures View() == Add(old(View()), entry)
    {
      if entry.id in admitted {
        return;
      }
      if entry.campaign !in queues {
        queues, order := queues[entry.campaign := []], order + [entry.campaign];
      }
      queues := queues[entry.campaign := queues[entry.campaign] + [entry.id]];
      admitted := admitted + {entry.id};
      ghost var joined := if entry.campaign in old(queues) then old(queues)[entry.campaign] + [entry.id]
        else [entry.id];
      assert queues[entry.campaign] == joined && queues == old(queues)[entry.campaign := joined];
    }

    /** Pops the first campaign's oldest Runner; the caller still has to win the database row. */
    method Claim() returns (id: Option<string>)
      requires Valid()
      modifies this
      ensures Valid() && id.Some? == (old(order) != [])
      ensures id.None? ==> View() == old(View())
      ensures id.Some? ==>
                && Claimable(old(View())) && (id.value, View()) == TakeHead(old(View()))
                && Some(View()) == Step(old(View()), capacity, Event.Claim) && !IsQueued(View(), id.value)
      ensures id.Some? ==>
                var campaign, waiting := old(order)[0], old(queues)[old(order)[0]];
                && id.value == waiting[0] && admitted == old(admitted)
                && if |waiting| == 1 then queues == old(queues) - {campaign} && order == old(order)[1..]
                   else queues == old(queues)[campaign := waiting[1..]] && order == old(order)[1..] + [campaign]
    {
      if order == [] {
        return None;
      }
      hide Inv, IsQueued, Listing, Once, Pending;
      HeadExists(View(), capacity);
      TakeKeeps(View(), capacity);
      var campaign := order[0];
      var queue := queues[campaign];
      order, queues := order[1..], queues[campaign := queue[1..]];
      if queues[campaign] != [] {
        order := order + [campaign];
      } else {
        queues := queues - {campaign};
        assert queues == old(queues) - {campaign};
      }
      return Some(queue[0]);
    }

    method Discard(id: string)
      requires Valid() && !IsQueued(View(), id)
      modifies this`admitted
      ensures Valid() && Some(View()) == Step(old(View()), capacity, Event.Discard(id))
    {
      StepKeeps(View(), capacity, Event.Discard(id));
      hide Inv;
      admitted := admitted - {id};
    }
  }

  lemma OrderIsQueued(state: State, capacity: nat)
    requires Inv(state, capacity)
    ensures forall k | 0 <= k < |state.order| :: state.order[k] in state.queues
  {
  }
}
