/**
  One consumer's mailbox: a bounded buffer over a durable store. Store reads and receipts are separate
  awaits, so they race; a revision counter makes snapshots taken before a receipt stale.
 */
module Mailbox {
  import opened Collections
  import opened Outcomes

  /** The buffered identifiers in insertion order, which of them came from the store, and the counter. */
  datatype Subscription = Subscription(buffer: seq<string>, recovered: set<string>, revision: nat)

  /** Buffers a freshly committed message when there is room. */
  function Offered(subscription: Subscription, capacity: nat, id: string): Subscription {
    if |subscription.buffer| < capacity && id !in subscription.buffer then
      subscription.(buffer := subscription.buffer + [id])
    else subscription
  }

  /** Buffers a message read from the store unless a receipt made the read stale. */
  function Recovered(subscription: Subscription, capacity: nat, id: string, revision: nat): Subscription {
    if subscription.revision == revision && |subscription.buffer| < capacity && id !in subscription.buffer then
      subscription.(buffer := subscription.buffer + [id], recovered := subscription.recovered + {id})
    else subscription
  }

  function Except(buffer: seq<string>, id: string): seq<string> {
    if buffer == [] then []
    else if buffer[0] == id then Except(buffer[1..], id)
    else [buffer[0]] + Except(buffer[1..], id)
  }

  function Settled(subscription: Subscription, id: string): Subscription {
    Subscription(Except(subscription.buffer, id), subscription.recovered - {id}, subscription.revision + 1)
  }

  function SettledAll(subscription: Subscription, ids: seq<string>): Subscription
    decreases |ids|
  {
    if ids == [] then subscription else SettledAll(Settled(subscription, ids[0]), ids[1..])
  }

  /** A read in progress: its snapshot revision, then also what the store answered. */
  datatype Reading = Opened(revision: nat) | Fetched(revision: nat, ids: seq<string>)

  datatype State = State(
    stored: set<string>,
    acked: set<string>,
    announced: multiset<string>,   // committed, with deliver_committed still to run
    subscription: Subscription,
    readings: map<nat, Reading>,
    receipt: seq<string>)          // acknowledged in the store, not yet in the buffer

  const INITIAL := State({}, {}, multiset{}, Subscription([], {}, 0), map[], [])

  datatype Event =
    | Publish(id: string)
    | Deliver(id: string)
    | Lose(id: string)
    | Open(reader: nat)
    | Fetch(reader: nat, ids: seq<string>)
    | Recover(reader: nat)
    | Acknowledge(ids: seq<string>)
    | Settle

  /** What the store may answer: unacknowledged messages, at least one if any exists. */
  predicate Answer(state: State, ids: seq<string>) {
    && (forall id | id in ids :: id in state.stored && id !in state.acked)
    && (state.stored != state.acked ==> ids != [])
  }

  function AfterRecover(state: State, capacity: nat, reader: nat): State
    requires reader in state.readings && state.readings[reader].Fetched? && state.readings[reader].ids != []
  {
    var reading := state.readings[reader];
    state.(subscription := Recovered(state.subscription, capacity, reading.ids[0], reading.revision),
           readings := state.readings[reader := Fetched(reading.revision, reading.ids[1..])])
  }

  /** `None` when the event is not enabled. */
  function Step(state: State, capacity: nat, event: Event): Option<State> {
    match event
    case Publish(id) =>
      Some(state.(stored := state.stored + {id}, announced := state.announced + multiset{id}))
    case Deliver(id) =>
      if id in state.announced then
        Some(state.(announced := state.announced - multiset{id},
                    subscription := Offered(state.subscription, capacity, id)))
      else None
    case Lose(id) =>
      if id in state.announced then Some(state.(announced := state.announced - multiset{id})) else None
    case Open(reader) =>
      if reader !in state.readings && |state.subscription.buffer| < capacity then
        Some(state.(readings := state.readings[reader := Opened(state.subscription.revision)]))
      else None
    case Fetch(reader, ids) =>
      if reader in state.readings && state.readings[reader].Opened? && Answer(state, ids) then
        Some(state.(readings := state.readings[reader := Fetched(state.readings[reader].revision, ids)]))
      else None
    case Recover(reader) =>
      if reader !in state.readings || state.readings[reader].Opened? then None
      else if state.readings[reader].ids == [] then Some(state.(readings := state.readings - {reader}))
      else Some(AfterRecover(state, capacity, reader))
    case Acknowledge(ids) =>
      if state.receipt == [] && ids != [] && Distinct(ids)
         && forall id | id in ids :: id in state.subscription.buffer then
        Some(state.(acked := state.acked + SetOf(ids), receipt := ids))
      else None
    case Settle =>
      if state.receipt != [] then
        Some(state.(subscription := SettledAll(state.subscription, state.receipt), receipt := []))
      else None
  }

  function SetOf(ids: seq<string>): set<string> {
    set id | id in ids
  }

  function Run(state: State, capacity: nat, events: seq<Event>): Option<State>
    decreases |events|
  {
    if events == [] then Some(state)
    else
      var next := Step(state, capacity, events[0]);
      if next.None? then None else Run(next.value, capacity, events[1..])
  }

  // ------------------------------------------------ the invariant

  ghost predicate Sound(state: State, capacity: nat) {
    && Distinct(state.subscription.buffer) && |state.subscription.buffer| <= capacity
    && (forall id | id in state.subscription.buffer :: id in state.stored)
    && (forall id | id in state.subscription.recovered :: id in state.subscription.buffer)
    && state.acked <= state.stored
    && (forall id | id in state.announced :: id in state.stored)
  }

  /** A receipt half done covers buffered messages only, each once. */
  ghost predicate ReceiptSound(state: State) {
    && Distinct(state.receipt)
    && forall id | id in state.receipt :: id in state.subscription.buffer && id in state.acked
  }

  /** What a snapshot that is not stale offers is unacknowledged or still buffered. */
  ghost predicate ReadingSound(state: State, reading: Reading) {
    && reading.revision <= state.subscription.revision
    && (reading.Fetched? ==> forall id | id in reading.ids :: id in state.stored)
    && (reading.Fetched? && reading.revision == state.subscription.revision ==>
          forall id | id in reading.ids :: id !in state.acked || id in state.receipt)
  }

  ghost predicate ReadsSound(state: State) {
    forall reader | reader in state.readings :: ReadingSound(state, state.readings[reader])
  }

  ghost predicate Inv(state: State, capacity: nat) {
    Sound(state, capacity) && ReceiptSound(state) && ReadsSound(state)
  }

  // ------------------------------------------------ settling receipts

  lemma {:induction false} ExceptMembers(buffer: seq<string>, id: string)
    ensures forall other :: other in Except(buffer, id) <==> other in buffer && other != id
    ensures |Except(buffer, id)| <= |buffer|
  {
    if buffer != [] {
      ExceptMembers(buffer[1..], id);
      assert buffer == [buffer[0]] + buffer[1..];
    }
  }

  lemma {:induction false} ExceptDistinct(buffer: seq<string>, id: string)
    requires Distinct(buffer)
    ensures Distinct(Except(buffer, id))
  {
    if buffer != [] {
      ExceptDistinct(buffer[1..], id);
      ExceptMembers(buffer[1..], id);
      var rest := Except(buffer[1..], id);
      forall i, j | 0 <= i < j < |Except(buffer, id)| ensures Except(buffer, id)[i] != Except(buffer, id)[j] {
        if buffer[0] != id && i == 0 {
          assert rest[j - 1] in buffer[1..];
        }
      }
    }
  }

  lemma {:induction false} SettledAllMembers(subscription: Subscription, ids: seq<string>)
    ensures forall other ::
              other in SettledAll(subscription, ids).buffer <==> other in subscription.buffer && other !in ids
    ensures forall other ::
              other in SettledAll(subscription, ids).recovered <==> other in subscription.recovered && other !in ids
    ensures SettledAll(subscription, ids).revision == subscription.revision + |ids|
    ensures |SettledAll(subscription, ids).buffer| <= |subscription.buffer|
    decreases |ids|
  {
    if ids != [] {
      SettledAllMembers(Settled(subscription, ids[0]), ids[1..]);
      ExceptMembers(subscription.buffer, ids[0]);
      assert ids == [ids[0]] + ids[1..];
    }
  }

  lemma {:induction false} SettledAllDistinct(subscription: Subscription, ids: seq<string>)
    requires Distinct(subscription.buffer)
    ensures Distinct(SettledAll(subscription, ids).buffer)
    decreases |ids|
  {
    if ids != [] {
      ExceptDistinct(subscription.buffer, ids[0]);
      SettledAllDistinct(Settled(subscription, ids[0]), ids[1..]);
    }
  }

  // ------------------------------------------------ preservation

  lemma BufferGrows(state: State, capacity: nat, id: string)
    requires Sound(state, capacity) && id in state.stored
    ensures Sound(state.(subscription := Offered(state.subscription, capacity, id)), capacity)
    ensures forall revision :: Sound(state.(subscription := Recovered(state.subscription, capacity, id, revision)),
                                     capacity)
  {
  }

  lemma RecoverKeeps(state: State, capacity: nat, reader: nat)
    requires Inv(state, capacity) && reader in state.readings && state.readings[reader].Fetched?
             && state.readings[reader].ids != []
    ensures Inv(AfterRecover(state, capacity, reader), capacity)
  {
    var reading, next := state.readings[reader], AfterRecover(state, capacity, reader);
    assert ReadingSound(state, reading);
    BufferGrows(state, capacity, reading.ids[0]);
    forall other | other in next.readings ensures ReadingSound(next, next.readings[other]) {
      assert ReadingSound(state, state.readings[other]);
    }
  }

  lemma SettleKeeps(state: State, capacity: nat)
    requires Inv(state, capacity) && state.receipt != []
    ensures Inv(Step(state, capacity, Settle).value, capacity)
  {
    SettledAllMembers(state.subscription, state.receipt);
    SettledAllDistinct(state.subscription, state.receipt);
    var next := Step(state, capacity, Settle).value;
    forall other | other in next.readings ensures ReadingSound(next, next.readings[other]) {
      assert ReadingSound(state, state.readings[other]);
    }
  }

  lemma OtherStepsKeepSound(state: State, capacity: nat, event: Event)
    requires Inv(state, capacity) && Step(state, capacity, event).Some? && !event.Recover? && !event.Settle?
    ensures Sound(Step(state, capacity, event).value, capacity)
    ensures ReceiptSound(Step(state, capacity, event).value)
  {
    if event.Deliver? {
      BufferGrows(state, capacity, event.id);
    }
  }

  lemma OtherStepsKeepReads(state: State, capacity: nat, event: Event)
    requires Inv(state, capacity) && Step(state, capacity, event).Some? && !event.Recover? && !event.Settle?
    ensures ReadsSound(Step(state, capacity, event).value)
  {
    var next := Step(state, capacity, event).value;
    forall other | other in next.readings ensures ReadingSound(next, next.readings[other]) {
      if other in state.readings {
        assert ReadingSound(state, state.readings[other]);
      }
    }
  }

  lemma StepKeeps(state: State, capacity: nat, event: Event)
    requires Inv(state, capacity) && Step(state, capacity, event).Some?
    ensures Inv(Step(state, capacity, event).value, capacity)
  {
    if event.Settle? {
      SettleKeeps(state, capacity);
    } else if event.Recover? {
      if state.readings[event.reader].ids != [] {
        RecoverKeeps(state, capacity, event.reader);
      }
    } else {
      OtherStepsKeepSound(state, capacity, event);
      OtherStepsKeepReads(state, capacity, event);
    }
  }

  lemma {:induction false} RunKeeps(state: State, capacity: nat, events: seq<Event>)
    requires Inv(state, capacity) && Run(state, capacity, events).Some?
    ensures Inv(Run(state, capacity, events).value, capacity)
    decreases |events|
  {
    hide Inv, Step;
    if events != [] {
      StepKeeps(state, capacity, events[0]);
      RunKeeps(Step(state, capacity, events[0]).value, capacity, events[1..]);
    }
  }

  /** However reads, receipts and deliveries interleave, a buffer never exceeds its capacity. */
  lemma BufferBounded(capacity: nat, events: seq<Event>)
    requires Run(INITIAL, capacity, events).Some?
    ensures |Run(INITIAL, capacity, events).value.subscription.buffer| <= capacity
    ensures Distinct(Run(INITIAL, capacity, events).value.subscription.buffer)
  {
    RunKeeps(INITIAL, capacity, events);
  }

  /** Recovery never buffers again a message that the consumer has acknowledged. */
  lemma RecoveryNeverResurrects(capacity: nat, events: seq<Event>, reader: nat, id: string)
    requires Run(INITIAL, capacity, events).Some?
    requires Step(Run(INITIAL, capacity, events).value, capacity, Recover(reader)).Some?
    requires id !in Run(INITIAL, capacity, events).value.subscription.buffer
    requires id in Step(Run(INITIAL, capacity, events).value, capacity, Recover(reader)).value.subscription.buffer
    ensures id !in Run(INITIAL, capacity, events).value.acked
  {
    hide Run;
    RunKeeps(INITIAL, capacity, events);
    var state := Run(INITIAL, capacity, events).value;
    assert ReadingSound(state, state.readings[reader]);
  }

  /**
    Exactly what can: of all events, in every reachable state, only the late delivery of an acknowledged
    message that has left the buffer puts it back, and it does whenever there is room.
   */
  lemma OnlyLateDeliveryResurrects(capacity: nat, events: seq<Event>, event: Event, id: string)
    requires Run(INITIAL, capacity, events).Some?
    requires Step(Run(INITIAL, capacity, events).value, capacity, event).Some?
    requires id in Run(INITIAL, capacity, events).value.acked
    requires id !in Run(INITIAL, capacity, events).value.subscription.buffer
    ensures id in Step(Run(INITIAL, capacity, events).value, capacity, event).value.subscription.buffer
       <==> event == Deliver(id) && |Run(INITIAL, capacity, events).value.subscription.buffer| < capacity
  {
    hide Run;
    RunKeeps(INITIAL, capacity, events);
    ResurrectedByStep(Run(INITIAL, capacity, events).value, capacity, event, id);
  }

  lemma ResurrectedByStep(state: State, capacity: nat, event: Event, id: string)
    requires Inv(state, capacity) && Step(state, capacity, event).Some?
    requires id in state.acked && id !in state.subscription.buffer
    ensures id in Step(state, capacity, event).value.subscription.buffer
       <==> event == Deliver(id) && |state.subscription.buffer| < capacity
  {
    if event.Settle? {
      SettledAllMembers(state.subscription, state.receipt);
    } else if event.Recover? {
      assert ReadingSound(state, state.readings[event.reader]);
    }
  }

  /** The input: a message recovered and settled before its own delivery runs. */
  function Overtaken(id: string): seq<Event> {
    [Publish(id), Open(0), Fetch(0, [id]), Recover(0), Acknowledge([id]), Settle, Deliver(id)]
  }

  /** Its run, with any room at all, ends with the message both acknowledged and buffered again. */
  lemma LateDeliveryResurrects(capacity: nat, id: string)
    requires capacity >= 1
    ensures Run(INITIAL, capacity, Overtaken(id)).Some?
    ensures var last := Run(INITIAL, capacity, Overtaken(id)).value;
      last.acked == {id} && last.receipt == [] && last.subscription.buffer == [id]
  {
    hide SetOf, Answer, SettledAll;
    var events := Overtaken(id);
    var published := INITIAL.(stored := {} + {id}, announced := multiset{} + multiset{id});
    var begun := published.(readings := map[][0 := Opened(0)]);
    OnlyAnswer(begun, id);
    var fetched := begun.(readings := begun.readings[0 := Fetched(0, [id])]);
    var recovered := fetched.(subscription := Subscription([] + [id], {} + {id}, 0),
                              readings := fetched.readings[0 := Fetched(0, [id][1..])]);
    var acknowledged := recovered.(acked := {} + SetOf([id]), receipt := [id]);
    OnlyMember(id);
    var settled := acknowledged.(subscription := SettledAll(recovered.subscription, [id]), receipt := []);
    SettledAlone(id);
    assert recovered.subscription == Subscription([id], {id}, 0);
    var delivered := settled.(announced := settled.announced - multiset{id},
                              subscription := Offered(settled.subscription, capacity, id));
    Followed([INITIAL, published, begun, fetched, recovered, acknowledged, settled, delivered], capacity, events);
  }

  lemma SettledAlone(id: string)
    ensures SettledAll(Subscription([id], {id}, 0), [id]) == Subscription([], {}, 1)
  {
    assert Except([id], id) == [];
    assert [id][1..] == [];
    assert {id} - {id} == {};
  }

  lemma {:induction false} Followed(states: seq<State>, capacity: nat, events: seq<Event>)
    requires |states| == |events| + 1
    requires forall i | 0 <= i < |events| :: Step(states[i], capacity, events[i]) == Some(states[i + 1])
    ensures Run(states[0], capacity, events) == Some(states[|events|])
    decreases |events|
  {
    hide Step;
    if events != [] {
      assert Step(states[0], capacity, events[0]) == Some(states[1]);
      Followed(states[1..], capacity, events[1..]);
    }
  }

  lemma OnlyAnswer(state: State, id: string)
    requires state.stored == {id} && state.acked == {}
    ensures Answer(state, [id])
  {
  }

  lemma OnlyMember(id: string)
    ensures SetOf([id]) == {id}
  {
    assert id in [id];
  }

  // ------------------------------------------------ order

  /** What stays buffered keeps its order. */
  lemma {:induction false} ExceptAppend(buffer: seq<string>, more: seq<string>, id: string)
    ensures Except(buffer + more, id) == Except(buffer, id) + Except(more, id)
    ensures id !in buffer ==> Except(buffer, id) == buffer
  {
    if buffer == [] {
      assert buffer + more == more;
    } else {
      assert (buffer + more)[1..] == buffer[1..] + more;
      ExceptAppend(buffer[1..], more, id);
      assert buffer == [buffer[0]] + buffer[1..];
    }
  }

  /** One receipt takes out exactly its message; whatever was buffered before and after it stays in order. */
  lemma SettledInOrder(subscription: Subscription, before: seq<string>, id: string, after: seq<string>)
    requires subscription.buffer == before + [id] + after && id !in before && id !in after
    ensures Settled(subscription, id).buffer == before + after
  {
    ExceptAppend(before + [id], after, id);
    ExceptAppend(before, [id], id);
    ExceptAppend(after, [], id);
    assert Except([id], id) == [];
  }

  /** A reader turns to the store only while the buffer has room for what it may find, and once at a time. */
  lemma ReadsWithRoom(state: State, capacity: nat, reader: nat)
    ensures Step(state, capacity, Open(reader)).Some? <==>
            |state.subscription.buffer| < capacity && reader !in state.readings
    ensures Step(state, capacity, Open(reader)).Some? ==>
              var next := Step(state, capacity, Open(reader)).value;
              next == state.(readings := next.readings)
              && next.readings == state.readings[reader := Opened(state.subscription.revision)]
  {
  }
}
