/** Every message is acknowledged in the end, and how often one can be handed out is bounded. */
module MailboxDrain {
  import opened Outcomes
  import opened Collections
  import opened Mailbox

  /** Buffered although acknowledged: late deliveries and a receipt half done. */
  function Stale(state: State): set<string> {
    set id | id in state.subscription.buffer && id in state.acked
  }

  /** Work left: messages to acknowledge, stale entries to clear, deliveries still to come. */
  function Measure(state: State): nat {
    |state.stored - state.acked| + |Stale(state)| + |state.announced|
  }

  predicate NoPublish(events: seq<Event>) {
    forall event | event in events :: !event.Publish?
  }

  /** Receipts this event completes. */
  function Completed(state: State, event: Event): nat {
    if event.Settle? then |state.receipt| else 0
  }

  function CompletedIn(state: State, capacity: nat, events: seq<Event>): nat
    decreases |events|
  {
    if events == [] then 0
    else
      var next := Step(state, capacity, events[0]);
      Completed(state, events[0]) + if next.None? then 0 else CompletedIn(next.value, capacity, events[1..])
  }

  // ------------------------------------------------ one event

  lemma RemoveOne(announced: multiset<string>, id: string)
    requires id in announced
    ensures |announced - multiset{id}| == |announced| - 1
  {
  }

  lemma OneMore(before: set<string>, after: set<string>, id: string)
    requires after <= before + {id}
    ensures |after| <= |before| + 1
  {
    SubsetSize(after, before + {id});
  }

  lemma PublishCosts(state: State, capacity: nat, id: string)
    requires Inv(state, capacity)
    ensures var next := Step(state, capacity, Publish(id)).value;
      Measure(next) - |next.stored| <= Measure(state) - |state.stored| + 1
  {
    var next := Step(state, capacity, Publish(id)).value;
    assert Stale(next) == Stale(state);
    if id in state.stored {
      assert next.stored == state.stored;
    } else {
      assert next.stored - next.acked == state.stored - state.acked + {id};
    }
  }

  lemma DeliverCosts(state: State, capacity: nat, id: string)
    requires Inv(state, capacity) && id in state.announced
    ensures Measure(Step(state, capacity, Deliver(id)).value) <= Measure(state)
  {
    var next := Step(state, capacity, Deliver(id)).value;
    RemoveOne(state.announced, id);
    OneMore(Stale(state), Stale(next), id);
  }

  lemma LoseCosts(state: State, capacity: nat, id: string)
    requires id in state.announced
    ensures Measure(Step(state, capacity, Lose(id)).value) <= Measure(state)
  {
    RemoveOne(state.announced, id);
    assert Stale(Step(state, capacity, Lose(id)).value) == Stale(state);
  }

  /** What recovery adds is unacknowledged, so it adds nothing to the work left. */
  lemma RecoverCosts(state: State, capacity: nat, reader: nat)
    requires Inv(state, capacity) && Step(state, capacity, Recover(reader)).Some?
    ensures Measure(Step(state, capacity, Recover(reader)).value) <= Measure(state)
  {
    var next := Step(state, capacity, Recover(reader)).value;
    assert ReadingSound(state, state.readings[reader]);
    assert Stale(next) == Stale(state);
  }

  /** An acknowledged message moves from unacknowledged to stale until its receipt is settled. */
  lemma AcknowledgeCosts(state: State, capacity: nat, ids: seq<string>)
    requires Inv(state, capacity) && Step(state, capacity, Acknowledge(ids)).Some?
    ensures Measure(Step(state, capacity, Acknowledge(ids)).value) <= Measure(state)
  {
    var next := Step(state, capacity, Acknowledge(ids)).value;
    var newly := SetOf(ids) - state.acked;
    var before, after := state.stored - state.acked, next.stored - next.acked;
    assert after == before - newly && newly <= before;
    assert Stale(next) == Stale(state) + newly;
  }

  lemma {:induction false} DistinctSize(ids: seq<string>)
    requires Distinct(ids)
    ensures |SetOf(ids)| == |ids|
  {
    if ids != [] {
      DistinctSize(ids[1..]);
      assert SetOf(ids) == {ids[0]} + SetOf(ids[1..]);
    }
  }

  lemma SettleCosts(state: State, capacity: nat)
    requires Inv(state, capacity) && state.receipt != []
    ensures Measure(Step(state, capacity, Settle).value) + |state.receipt| <= Measure(state)
  {
    var next := Step(state, capacity, Settle).value;
    SettledAllMembers(state.subscription, state.receipt);
    DistinctSize(state.receipt);
    assert Stale(next) == Stale(state) - SetOf(state.receipt);
    assert SetOf(state.receipt) <= Stale(state);
  }

  /** Completing receipts is what uses the work left up; only publishing adds to it. */
  lemma StepCosts(state: State, capacity: nat, event: Event)
    requires Inv(state, capacity) && Step(state, capacity, event).Some? && !event.Publish?
    ensures Measure(Step(state, capacity, event).value) + Completed(state, event) <= Measure(state)
    ensures Step(state, capacity, event).value.stored == state.stored
  {
    hide Inv, Measure;
    match event
    case Deliver(id) => DeliverCosts(state, capacity, id);
    case Lose(id) => LoseCosts(state, capacity, id);
    case Open(_) => SameWork(state, Step(state, capacity, event).value);
    case Fetch(_, _) => SameWork(state, Step(state, capacity, event).value);
    case Recover(reader) => RecoverCosts(state, capacity, reader);
    case Acknowledge(ids) => AcknowledgeCosts(state, capacity, ids);
    case Settle => SettleCosts(state, capacity);
  }

  lemma SameWork(state: State, next: State)
    requires next == state.(readings := next.readings)
    ensures Measure(next) == Measure(state)
  {
    assert Stale(next) == Stale(state);
  }

  // ------------------------------------------------ runs

  function Publishes(events: seq<Event>): nat {
    if events == [] then 0 else (if events[0].Publish? then 1 else 0) + Publishes(events[1..])
  }

  lemma {:induction false} RunCosts(state: State, capacity: nat, events: seq<Event>)
    requires Inv(state, capacity) && Run(state, capacity, events).Some?
    ensures var last := Run(state, capacity, events).value;
      Measure(last) + CompletedIn(state, capacity, events) + |state.stored|
        <= Measure(state) + |last.stored| + Publishes(events)
    decreases |events|
  {
    hide Inv, Step, Measure, Completed;
    if events != [] {
      var next := Step(state, capacity, events[0]).value;
      StepKeeps(state, capacity, events[0]);
      if events[0].Publish? {
        PublishCosts(state, capacity, events[0].id);
        assert Completed(state, events[0]) == 0 by { NotCompleting(state, events[0]); }
        assert next.stored == next.stored;
      } else {
        StepCosts(state, capacity, events[0]);
      }
      RunCosts(next, capacity, events[1..]);
    }
  }

  lemma NotCompleting(state: State, event: Event)
    requires !event.Settle?
    ensures Completed(state, event) == 0
  {
  }

  /**
    Redelivery is bounded in every run: receipts never number more than the messages stored plus the
    publish calls made, so a message published once is handed to its consumer at most twice on average.
   */
  lemma ReceiptsBounded(capacity: nat, events: seq<Event>)
    requires Run(INITIAL, capacity, events).Some?
    ensures CompletedIn(INITIAL, capacity, events)
         <= |Run(INITIAL, capacity, events).value.stored| + Publishes(events)
  {
    RunCosts(INITIAL, capacity, events);
  }

  // ------------------------------------------------ draining

  predicate Settles(events: seq<Event>) {
    Settle in events
  }

  lemma {:induction false} RunSplits(state: State, capacity: nat, first: seq<Event>, second: seq<Event>)
    ensures Run(state, capacity, first + second)
         == if Run(state, capacity, first).None? then None else Run(Run(state, capacity, first).value, capacity, second)
    decreases |first|
  {
    if first == [] {
      assert first + second == second;
    } else {
      assert (first + second)[1..] == first[1..] + second;
      var next := Step(state, capacity, first[0]);
      if next.Some? {
        RunSplits(next.value, capacity, first[1..], second);
      }
    }
  }

  /** Without publishing the work left never grows; a settled receipt shrinks it. */
  lemma {:induction false} QuietRunCosts(state: State, capacity: nat, events: seq<Event>)
    requires Inv(state, capacity) && Run(state, capacity, events).Some? && NoPublish(events)
    ensures Measure(Run(state, capacity, events).value) <= Measure(state)
    ensures Settles(events) ==> Measure(Run(state, capacity, events).value) < Measure(state)
    ensures Run(state, capacity, events).value.stored == state.stored
    decreases |events|
  {
    hide Inv, Measure;
    if events != [] {
      StepKeeps(state, capacity, events[0]);
      StepCosts(state, capacity, events[0]);
      QuietRunCosts(Step(state, capacity, events[0]).value, capacity, events[1..]);
      assert events == [events[0]] + events[1..];
    }
  }

  lemma StepKeepsBuffer(state: State, capacity: nat, event: Event)
    requires Step(state, capacity, event).Some? && !event.Settle?
    ensures Step(state, capacity, event).value.subscription.revision == state.subscription.revision
    ensures state.subscription.buffer <= Step(state, capacity, event).value.subscription.buffer
  {
  }

  /** While no receipt settles, buffered messages stay and the revision does not move. */
  lemma {:induction false} BufferStays(state: State, capacity: nat, events: seq<Event>)
    requires Run(state, capacity, events).Some? && !Settles(events)
    ensures Run(state, capacity, events).value.subscription.revision == state.subscription.revision
    ensures state.subscription.buffer <= Run(state, capacity, events).value.subscription.buffer
    decreases |events|
  {
    hide Step;
    if events != [] {
      assert events == [events[0]] + events[1..];
      StepKeepsBuffer(state, capacity, events[0]);
      BufferStays(Step(state, capacity, events[0]).value, capacity, events[1..]);
    }
  }

  /** No message published and no receipt settled. */
  predicate Quiet(events: seq<Event>) {
    NoPublish(events) && !Settles(events)
  }

  predicate EndsEmpty(state: State, capacity: nat, events: seq<Event>) {
    Run(state, capacity, events).Some? && Run(state, capacity, events).value.subscription.buffer == []
  }

  lemma EmptyStep(state: State, capacity: nat, event: Event)
    requires Step(state, capacity, event).Some? && !event.Settle? && !event.Publish?
    requires Step(state, capacity, event).value.subscription.buffer == []
    ensures Step(state, capacity, event).value.acked == state.acked
    ensures Step(state, capacity, event).value.stored == state.stored
  {
    StepKeepsBuffer(state, capacity, event);
  }

  /** While the buffer stays empty there is nothing to acknowledge. */
  lemma {:induction false} EmptyBufferAcknowledgesNothing(state: State, capacity: nat, events: seq<Event>)
    requires Quiet(events) && EndsEmpty(state, capacity, events)
    ensures state.subscription.buffer == []
    ensures Run(state, capacity, events).value.acked == state.acked
    ensures Run(state, capacity, events).value.stored == state.stored
    decreases |events|
  {
    hide Step;
    BufferStays(state, capacity, events);
    if events != [] {
      assert events == [events[0]] + events[1..];
      EmptyBufferAcknowledgesNothing(Step(state, capacity, events[0]).value, capacity, events[1..]);
      EmptyStep(state, capacity, events[0]);
    }
  }

  /** Other events leave a reader's reading alone. */
  predicate LeavesAlone(events: seq<Event>, reader: nat) {
    forall event | event in events :: event != Recover(reader) && !(event.Fetch? && event.reader == reader)
  }

  lemma {:induction false} ReadingStays(state: State, capacity: nat, events: seq<Event>, reader: nat)
    requires Run(state, capacity, events).Some? && reader in state.readings && LeavesAlone(events, reader)
    ensures reader in Run(state, capacity, events).value.readings
    ensures Run(state, capacity, events).value.readings[reader] == state.readings[reader]
    decreases |events|
  {
    if events != [] {
      assert events == [events[0]] + events[1..];
      ReadingStays(Step(state, capacity, events[0]).value, capacity, events[1..], reader);
    }
  }

  lemma HeadFirst(state: State, capacity: nat, head: Event, rest: seq<Event>, more: seq<Event>)
    requires Quiet([head] + rest + more) && EndsEmpty(state, capacity, [head] + rest + more)
    ensures Step(state, capacity, head).Some? && Quiet(rest) && Quiet(more)
    ensures Run(Step(state, capacity, head).value, capacity, rest).Some?
    ensures EndsEmpty(Run(Step(state, capacity, head).value, capacity, rest).value, capacity, more)
    ensures Run(state, capacity, [head] + rest + more)
         == Run(Run(Step(state, capacity, head).value, capacity, rest).value, capacity, more)
  {
    hide Step;
    var events := [head] + rest + more;
    assert events[1..] == rest + more;
    RunSplits(Step(state, capacity, head).value, capacity, rest, more);
    forall event | event in rest || event in more ensures event in events {
    }
  }

  /** Recovery into an empty buffer leaves it empty only when the store answered nothing. */
  lemma EmptyRecovery(state: State, capacity: nat, reader: nat, ids: seq<string>, after: seq<Event>)
    requires capacity >= 1 && reader in state.readings
             && state.readings[reader] == Fetched(state.subscription.revision, ids)
    requires Quiet([Recover(reader)] + after + []) && EndsEmpty(state, capacity, [Recover(reader)] + after + [])
    ensures ids == []
  {
    HeadFirst(state, capacity, Recover(reader), after, []);
    BufferStays(Step(state, capacity, Recover(reader)).value, capacity, after);
  }

  /** The store answers nothing only when everything it holds is acknowledged. */
  lemma EmptyFetch(state: State, capacity: nat, reader: nat, ids: seq<string>, second: seq<Event>, after: seq<Event>)
    requires capacity >= 1 && reader in state.readings && state.readings[reader] == Opened(state.subscription.revision)
    requires LeavesAlone(second, reader)
    requires Quiet([Fetch(reader, ids)] + second + ([Recover(reader)] + after + []))
    requires EndsEmpty(state, capacity, [Fetch(reader, ids)] + second + ([Recover(reader)] + after + []))
    ensures state.acked == state.stored
  {
    hide Run;
    HeadFirst(state, capacity, Fetch(reader, ids), second, [Recover(reader)] + after + []);
    var fetched := Step(state, capacity, Fetch(reader, ids)).value;
    ReadingStays(fetched, capacity, second, reader);
    BufferStays(fetched, capacity, second);
    EmptyRecovery(Run(fetched, capacity, second).value, capacity, reader, ids, after);
  }

  /** A reader's whole pass, with anything else going on between its steps and after. */
  datatype Pass = Pass(reader: nat, first: seq<Event>, ids: seq<string>, second: seq<Event>, after: seq<Event>) {
    function Events(): seq<Event> {
      [Open(reader)] + first + ([Fetch(reader, ids)] + second + ([Recover(reader)] + after + []))
    }

    predicate Undisturbed() {
      LeavesAlone(first, reader) && LeavesAlone(second, reader)
    }
  }

  /** A pass that ends with an empty buffer, no receipt settled meanwhile, proves the mailbox drained. */
  lemma EmptyPassFoundNothing(state: State, capacity: nat, pass: Pass)
    requires capacity >= 1 && pass.Undisturbed() && Quiet(pass.Events()) && EndsEmpty(state, capacity, pass.Events())
    ensures state.acked == state.stored
    ensures Run(state, capacity, pass.Events()).value.acked == Run(state, capacity, pass.Events()).value.stored
  {
    hide Run;
    var reader, fetching := pass.reader,
      [Fetch(pass.reader, pass.ids)] + pass.second + ([Recover(pass.reader)] + pass.after + []);
    HeadFirst(state, capacity, Open(reader), pass.first, fetching);
    var ready := Step(state, capacity, Open(reader)).value;
    ReadingStays(ready, capacity, pass.first, reader);
    BufferStays(ready, capacity, pass.first);
    EmptyFetch(Run(ready, capacity, pass.first).value, capacity, reader, pass.ids, pass.second, pass.after);
    EmptyBufferAcknowledgesNothing(Run(ready, capacity, pass.first).value, capacity, fetching);
    EmptyBufferAcknowledgesNothing(state, capacity, pass.Events());
  }

  /**
    A round without publishing in which the consumer settles a receipt, or a reader makes a whole pass
    and whatever it buffered was consumed by the end.
   */
  ghost predicate FairRound(state: State, capacity: nat, events: seq<Event>) {
    && NoPublish(events) && Run(state, capacity, events).Some?
    && (Settles(events)
        || (EndsEmpty(state, capacity, events) && exists pass: Pass :: pass.Undisturbed() && pass.Events() == events))
  }

  ghost predicate FairRounds(state: State, capacity: nat, rounds: seq<seq<Event>>)
    decreases |rounds|
  {
    rounds == [] || (FairRound(state, capacity, rounds[0])
                     && FairRounds(Run(state, capacity, rounds[0]).value, capacity, rounds[1..]))
  }

  ghost function AfterRounds(state: State, capacity: nat, rounds: seq<seq<Event>>): State
    requires FairRounds(state, capacity, rounds)
    decreases |rounds|
  {
    if rounds == [] then state else AfterRounds(Run(state, capacity, rounds[0]).value, capacity, rounds[1..])
  }

  lemma FairRoundProgresses(state: State, capacity: nat, events: seq<Event>)
    requires capacity >= 1 && Inv(state, capacity) && FairRound(state, capacity, events)
    ensures var next := Run(state, capacity, events).value;
      next.acked == next.stored || Measure(next) < Measure(state)
  {
    hide Run, Inv, Measure;
    QuietRunCosts(state, capacity, events);
    if !Settles(events) {
      var pass: Pass :| pass.Undisturbed() && pass.Events() == events;
      EmptyPassFoundNothing(state, capacity, pass);
    }
  }

  lemma {:induction false} AcknowledgedStays(state: State, capacity: nat, events: seq<Event>)
    requires Inv(state, capacity) && Run(state, capacity, events).Some? && NoPublish(events)
             && state.acked == state.stored
    ensures Run(state, capacity, events).value.acked == Run(state, capacity, events).value.stored
    decreases |events|
  {
    hide Inv, Step;
    if events != [] {
      assert events == [events[0]] + events[1..];
      StepKeeps(state, capacity, events[0]);
      AcknowledgedStep(state, capacity, events[0]);
      AcknowledgedStays(Step(state, capacity, events[0]).value, capacity, events[1..]);
    }
  }

  lemma AcknowledgedStep(state: State, capacity: nat, event: Event)
    requires Inv(state, capacity) && Step(state, capacity, event).Some? && !event.Publish?
             && state.acked == state.stored
    ensures Step(state, capacity, event).value.acked == Step(state, capacity, event).value.stored
  {
  }

  /**
    Drain: whatever was lost, overflowed or delivered late before, once publishing stops more fair
    rounds than there is work left acknowledge every message.
   */
  lemma {:induction false} Drained(state: State, capacity: nat, rounds: seq<seq<Event>>)
    requires capacity >= 1 && Inv(state, capacity) && FairRounds(state, capacity, rounds)
    requires state.acked == state.stored || |rounds| > Measure(state)
    ensures AfterRounds(state, capacity, rounds).acked == AfterRounds(state, capacity, rounds).stored
    decreases |rounds|
  {
    hide Run, Inv, Measure, FairRound;
    if rounds != [] {
      FairRoundRuns(state, capacity, rounds[0]);
      RunKeeps(state, capacity, rounds[0]);
      FairRoundProgresses(state, capacity, rounds[0]);
      if state.acked == state.stored {
        AcknowledgedStays(state, capacity, rounds[0]);
      }
      Drained(Run(state, capacity, rounds[0]).value, capacity, rounds[1..]);
    }
  }

  lemma FairRoundRuns(state: State, capacity: nat, events: seq<Event>)
    requires FairRound(state, capacity, events)
    ensures NoPublish(events) && Run(state, capacity, events).Some?
  {
  }

  /** The claim from the start of any run: what was ever published ends up acknowledged. */
  lemma EverythingIsAcknowledged(capacity: nat, events: seq<Event>, rounds: seq<seq<Event>>)
    requires capacity >= 1 && Run(INITIAL, capacity, events).Some?
    requires FairRounds(Run(INITIAL, capacity, events).value, capacity, rounds)
    requires |rounds| > Measure(Run(INITIAL, capacity, events).value)
    ensures var last := AfterRounds(Run(INITIAL, capacity, events).value, capacity, rounds);
      last.acked == last.stored && Run(INITIAL, capacity, events).value.stored <= last.stored
  {
    hide Run, FairRounds, Measure;
    InitialSound(capacity);
    RunKeeps(INITIAL, capacity, events);
    Drained(Run(INITIAL, capacity, events).value, capacity, rounds);
    RoundsKeepStored(Run(INITIAL, capacity, events).value, capacity, rounds);
  }

  lemma InitialSound(capacity: nat)
    ensures Inv(INITIAL, capacity)
  {
  }

  lemma {:induction false} RoundsKeepStored(state: State, capacity: nat, rounds: seq<seq<Event>>)
    requires Inv(state, capacity) && FairRounds(state, capacity, rounds)
    ensures AfterRounds(state, capacity, rounds).stored == state.stored
    decreases |rounds|
  {
    hide Run, Inv, Measure, FairRound;
    if rounds != [] {
      FairRoundRuns(state, capacity, rounds[0]);
      RunKeeps(state, capacity, rounds[0]);
      QuietRunCosts(state, capacity, rounds[0]);
      RoundsKeepStored(Run(state, capacity, rounds[0]).value, capacity, rounds[1..]);
    }
  }

  // ------------------------------------------------ fair rounds are there for the taking

  lemma RunCons(state: State, capacity: nat, event: Event, rest: seq<Event>)
    requires Step(state, capacity, event).Some?
    ensures Run(state, capacity, [event] + rest) == Run(Step(state, capacity, event).value, capacity, rest)
  {
    assert ([event] + rest)[1..] == rest;
  }

  /** The consumer's answer to a pass: one receipt for all that is buffered, unless one is under way. */
  function Answered(state: State): seq<Event> {
    if state.receipt != [] then [Settle]
    else if state.subscription.buffer != [] then [Acknowledge(state.subscription.buffer), Settle]
    else []
  }

  lemma AnswerRuns(state: State, capacity: nat)
    requires Inv(state, capacity)
    ensures Run(state, capacity, Answered(state)).Some? && NoPublish(Answered(state))
    ensures Answered(state) == [] <==> !Settles(Answered(state))
    ensures Answered(state) == [] ==> state.subscription.buffer == []
  {
    assert [Settle] == [Settle] + [] && [Settle][0] == Settle;
    if state.receipt != [] {
      RunCons(state, capacity, Settle, []);
    } else if state.subscription.buffer != [] {
      var receipt := Acknowledge(state.subscription.buffer);
      RunCons(Step(state, capacity, receipt).value, capacity, Settle, []);
      RunCons(state, capacity, receipt, [Settle]);
      assert [receipt, Settle] == [receipt] + [Settle] && [receipt, Settle][1] == Settle;
    }
  }

  /** A consumer that answers every pass makes fair rounds, whatever goes on during the pass. */
  lemma AnsweredPassIsFair(state: State, capacity: nat, pass: Pass)
    requires Inv(state, capacity) && pass.Undisturbed() && NoPublish(pass.Events())
    requires Run(state, capacity, pass.Events()).Some?
    ensures FairRound(state, capacity, pass.Events() + Answered(Run(state, capacity, pass.Events()).value))
  {
    hide Run, Inv, Answered;
    var last := Run(state, capacity, pass.Events()).value;
    RunKeeps(state, capacity, pass.Events());
    AnswerRuns(last, capacity);
    RunSplits(state, capacity, pass.Events(), Answered(last));
    var round := pass.Events() + Answered(last);
    if Answered(last) == [] {
      assert round == pass.Events();
    } else {
      assert forall event | event in Answered(last) :: event in round;
    }
  }

  lemma {:induction false} Above(readings: set<nat>) returns (bound: nat)
    ensures forall reader | reader in readings :: reader < bound
    decreases |readings|
  {
    if readings == {} {
      bound := 0;
    } else {
      var some :| some in readings;
      var rest := Above(readings - {some});
      bound := if some < rest then rest else some + 1;
      assert readings == (readings - {some}) + {some};
    }
  }

  /** A new reader can always make a whole pass over an empty buffer and fetch a message that is due. */
  lemma PassRuns(state: State, capacity: nat, pass: Pass)
    requires |state.subscription.buffer| < capacity && pass.reader !in state.readings && Answer(state, pass.ids)
    requires pass.first == [] && pass.second == [] && pass.after == []
    ensures pass.Undisturbed() && NoPublish(pass.Events()) && Run(state, capacity, pass.Events()).Some?
  {
    var reader, ids := pass.reader, pass.ids;
    var open, fetch, recover := Open(reader), Fetch(reader, ids), Recover(reader);
    var ready := Step(state, capacity, open).value;
    var fetched := Step(ready, capacity, fetch).value;
    assert Step(fetched, capacity, recover).Some?;
    hide Step, Answer;
    RunCons(fetched, capacity, recover, []);
    RunCons(ready, capacity, fetch, [recover]);
    RunCons(state, capacity, open, [fetch] + [recover]);
    assert [recover] + [] == [recover];
    assert pass.Events() == [open] + ([fetch] + [recover]);
  }

  /** While a message is unacknowledged, a fair round can be taken from every reachable state. */
  lemma FairRoundExists(state: State, capacity: nat) returns (events: seq<Event>)
    requires capacity >= 1 && Inv(state, capacity) && state.acked != state.stored
    ensures FairRound(state, capacity, events)
  {
    hide Inv, Run, Answered;
    AnswerRuns(state, capacity);
    if Answered(state) != [] {
      events := Answered(state);
    } else {
      var reader := Above(state.readings.Keys);
      var id := MessageLeft(state, capacity);
      var pass := Pass(reader, [], [id], [], []);
      PassRuns(state, capacity, pass);
      AnsweredPassIsFair(state, capacity, pass);
      events := pass.Events() + Answered(Run(state, capacity, pass.Events()).value);
    }
  }

  lemma MessageLeft(state: State, capacity: nat) returns (id: string)
    requires Inv(state, capacity) && state.acked != state.stored
    ensures Answer(state, [id])
  {
    id :| id in state.stored && id !in state.acked;
  }
}
