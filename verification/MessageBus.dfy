/** One Runner's bus: every consumer and destination has its own subscription, updated in place. */
module MessageBus {
  import opened Mailbox

  datatype Message = Message(id: string, runner: string, destination: string)

  datatype Address = Address(consumer: string, destination: string)

  type Subscriptions = map<Address, Subscription>

  const EMPTY := Subscription([], {}, 0)

  /** One receipt: the message leaves the buffer it was addressed to. */
  function SettleMessage(subscriptions: Subscriptions, consumer: string, message: Message): Subscriptions {
    var address := Address(consumer, message.destination);
    if address in subscriptions then subscriptions[address := Settled(subscriptions[address], message.id)]
    else subscriptions
  }

  function SettleMessages(subscriptions: Subscriptions, consumer: string, messages: seq<Message>): Subscriptions
    decreases |messages|
  {
    if messages == [] then subscriptions
    else SettleMessages(SettleMessage(subscriptions, consumer, messages[0]), consumer, messages[1..])
  }

  function IdsFor(messages: seq<Message>, destination: string): seq<string> {
    if messages == [] then []
    else (if messages[0].destination == destination then [messages[0].id] else []) + IdsFor(messages[1..], destination)
  }

  /** Receipts of many destinations settle each subscription as if only its own had been given. */
  lemma {:induction false} ReceiptsStayApart(subscriptions: Subscriptions, consumer: string, messages: seq<Message>,
                                             address: Address)
    ensures SettleMessages(subscriptions, consumer, messages).Keys == subscriptions.Keys
    ensures address in subscriptions ==>
              SettleMessages(subscriptions, consumer, messages)[address]
              == if address.consumer == consumer
                 then SettledAll(subscriptions[address], IdsFor(messages, address.destination))
                 else subscriptions[address]
    decreases |messages|
  {
    if messages != [] {
      var next := SettleMessage(subscriptions, consumer, messages[0]);
      ReceiptsStayApart(next, consumer, messages[1..], address);
      var ids := IdsFor(messages, address.destination);
      if messages[0].destination == address.destination {
        assert ids[0] == messages[0].id && ids[1..] == IdsFor(messages[1..], address.destination);
      } else {
        assert ids == IdsFor(messages[1..], address.destination);
      }
    }
  }

  class RunnerMessageBus {
    const runner: string
    const capacity: nat
    var generation: nat
    var closed: bool
    var subscriptions: Subscriptions
    var order: seq<Address>

    ghost predicate Valid()
      reads this
    {
      && capacity >= 1
      && (forall i, j | 0 <= i < j < |order| :: order[i] != order[j])
      && (forall address :: address in order <==> address in subscriptions)
    }

    constructor (runner: string, capacity: nat)
      requires capacity >= 1
      ensures Valid() && this.runner == runner && this.capacity == capacity
      ensures subscriptions == map[] && !closed
    {
      this.runner, this.capacity := runner, capacity;
      generation, closed, subscriptions, order := 0, false, map[], [];
    }

    /** Offers a committed message to every subscription of its destination; a closed bus ignores it. */
    method DeliverCommitted(message: Message) returns (accepted: bool)
      requires Valid()
      modifies this
      ensures Valid() && accepted == (message.runner == runner) && closed == old(closed)
      ensures subscriptions.Keys == old(subscriptions).Keys
      ensures accepted && !closed ==> generation == old(generation) + 1
      ensures forall address | address in subscriptions :: subscriptions[address]
                == if accepted && !closed && address.destination == message.destination
                   then Offered(old(subscriptions)[address], capacity, message.id) else old(subscriptions)[address]
    {
      if message.runner != runner {
        return false;
      }
      if closed {
        return true;
      }
      for i := 0 to |order|
        invariant subscriptions.Keys == old(subscriptions).Keys && order == old(order) && closed == old(closed)
        invariant generation == old(generation)
        invariant forall k | 0 <= k < |order| :: subscriptions[order[k]]
                    == if k < i && order[k].destination == message.destination
                       then Offered(old(subscriptions)[order[k]], capacity, message.id)
                            else old(subscriptions)[order[k]]
      {
        if order[i].destination == message.destination {
          var subscription := subscriptions[order[i]];
          if |subscription.buffer| < capacity && message.id !in subscription.buffer {
            subscriptions := subscriptions[order[i] := subscription.(buffer := subscription.buffer + [message.id])];
          }
        }
      }
      generation := generation + 1;
      return true;
    }

    /** Buffers one message of a store read, unless a receipt overtook the read. */
    method Recover(message: Message, consumer: string, revision: nat)
      requires Valid()
      modifies this
      ensures Valid() && closed == old(closed) && subscriptions.Keys == old(subscriptions).Keys
      ensures forall address | address in subscriptions :: subscriptions[address]
                == if !closed && address == Address(consumer, message.destination)
                   then Recovered(old(subscriptions)[address], capacity, message.id, revision)
                        else old(subscriptions)[address]
    {
      var address := Address(consumer, message.destination);
      if !closed && address in subscriptions {
        var subscription := subscriptions[address];
        if subscription.revision == revision && |subscription.buffer| < capacity {
          if message.id !in subscription.buffer {
            subscriptions := subscriptions[address := Subscription(subscription.buffer + [message.id],
                                                                   subscription.recovered + {message.id},
                                                                   subscription.revision)];
          }
          generation := generation + 1;
        }
      }
    }

    /** What a receiver finds now: at most `limit` buffered messages, oldest first, none removed. */
    method Receive(consumer: string, destination: string, limit: nat) returns (ids: seq<string>)
      requires Valid() && limit >= 1
      modifies this
      ensures Valid() && closed == old(closed)
      ensures var address := Address(consumer, destination);
        && subscriptions == (if address in old(subscriptions) then old(subscriptions)
                             else old(subscriptions)[address := EMPTY])
        && ids <= subscriptions[address].buffer
        && (closed ==> ids == [])
        && (!closed ==> |ids| == limit || ids == subscriptions[address].buffer)
    {
      var address := Address(consumer, destination);
      if address !in subscriptions {
        subscriptions, order := subscriptions[address := EMPTY], order + [address];
      }
      var buffer := subscriptions[address].buffer;
      ids := if closed then [] else if |buffer| <= limit then buffer else buffer[..limit];
    }

    /** The local half of an acknowledgment, after the store has committed the receipts. */
    method SettleReceipts(messages: seq<Message>, consumer: string)
      requires Valid()
      modifies this`subscriptions
      ensures Valid() && subscriptions == SettleMessages(old(subscriptions), consumer, messages)
    {
      for i := 0 to |messages|
        invariant subscriptions.Keys == old(subscriptions).Keys
        invariant SettleMessages(old(subscriptions), consumer, messages)
                  == SettleMessages(subscriptions, consumer, messages[i..])
      {
        assert messages[i..][0] == messages[i] && messages[i..][1..] == messages[i + 1..];
        var address := Address(consumer, messages[i].destination);
        if address in subscriptions {
          var subscription := subscriptions[address];
          subscriptions := subscriptions[address := Subscription(Except(subscription.buffer, messages[i].id),
                                                                 subscription.recovered - {messages[i].id},
                                                                 subscription.revision + 1)];
        }
      }
    }

    method Close()
      modifies this
      ensures closed && subscriptions == map[]
      ensures Valid() <==> capacity >= 1
    {
      closed, generation, subscriptions, order := true, generation + 1, map[], [];
    }
  }
}
