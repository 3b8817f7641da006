/** Queues of several owners served in rotation, kept as a dictionary of lists and an order of owners. */
module FairQueues {
  import opened Collections

  /** Everything but the first occurrence. */
  function RemoveFirst<T(==)>(items: seq<T>, item: T): seq<T> {
    if items == [] then []
    else if items[0] == item then items[1..]
    else [items[0]] + RemoveFirst(items[1..], item)
  }

  /** How many items wait, over the owners listed. */
  function Pending<T>(order: seq<string>, queues: map<string, seq<T>>): nat {
    if order == [] then 0
    else (if order[0] in queues then |queues[order[0]]| else 0) + Pending(order[1..], queues)
  }

  function Position(order: seq<string>, runner: string): nat {
    if order == [] || order[0] == runner then 0 else 1 + Position(order[1..], runner)
  }

  // ------------------------------------------------ lists

  lemma {:induction false} RemoveFirstMembers<T(!new)>(items: seq<T>, item: T)
    requires Distinct(items)
    ensures Distinct(RemoveFirst(items, item))
    ensures forall other :: other in RemoveFirst(items, item) <==> other in items && other != item
    ensures |RemoveFirst(items, item)| == if item in items then |items| - 1 else |items|
  {
    if items != [] {
      assert items == [items[0]] + items[1..];
      RemoveFirstMembers(items[1..], item);
      if items[0] != item {
        forall other | other in RemoveFirst(items[1..], item) ensures other in items[1..] {
        }
        RemoveFirstPrepended(items, item);
      }
    }
  }

  lemma RemoveFirstPrepended<T(!new)>(items: seq<T>, item: T)
    requires items != [] && items[0] != item && Distinct(items) && Distinct(RemoveFirst(items[1..], item))
    requires forall other | other in RemoveFirst(items[1..], item) :: other in items[1..]
    ensures Distinct(RemoveFirst(items, item))
  {
    var rest := RemoveFirst(items[1..], item);
    forall j | 0 <= j < |rest| ensures rest[j] != items[0] {
      assert rest[j] in items[1..];
    }
  }

  // ------------------------------------------------ how many wait

  lemma {:induction false} PendingAppend<T>(order: seq<string>, runner: string, queues: map<string, seq<T>>)
    ensures Pending(order + [runner], queues)
            == Pending(order, queues) + (if runner in queues then |queues[runner]| else 0)
    decreases |order|
  {
    if order == [] {
      assert order + [runner] == [runner];
    } else {
      assert (order + [runner])[1..] == order[1..] + [runner];
      PendingAppend(order[1..], runner, queues);
    }
  }

  lemma {:induction false} PendingIgnores<T>(order: seq<string>, queues: map<string, seq<T>>,
                                             other: map<string, seq<T>>)
    requires forall runner | runner in order ::
               (runner in queues <==> runner in other) && (runner in queues ==> queues[runner] == other[runner])
    ensures Pending(order, queues) == Pending(order, other)
  {
    if order != [] {
      PendingIgnores(order[1..], queues, other);
    }
  }

  lemma {:induction false} PendingUpdate<T>(order: seq<string>, queues: map<string, seq<T>>, runner: string,
                                            queue: seq<T>)
    requires Distinct(order) && runner in order && runner in queues
    ensures Pending(order, queues[runner := queue]) + |queues[runner]| == Pending(order, queues) + |queue|
  {
    var updated := queues[runner := queue];
    if order[0] == runner {
      PendingIgnores(order[1..], queues, updated);
    } else {
      assert runner in order[1..];
      PendingUpdate(order[1..], queues, runner, queue);
    }
  }

  lemma {:induction false} PendingRemoval<T>(order: seq<string>, queues: map<string, seq<T>>, runner: string)
    requires Distinct(order) && runner in order && runner in queues
    ensures Pending(RemoveFirst(order, runner), queues - {runner}) + |queues[runner]| == Pending(order, queues)
  {
    var left := queues - {runner};
    if order[0] == runner {
      PendingIgnores(order[1..], queues, left);
    } else {
      assert runner in order[1..];
      PendingRemoval(order[1..], queues, runner);
      assert RemoveFirst(order, runner)[1..] == RemoveFirst(order[1..], runner);
    }
  }

  // ------------------------------------------------ positions

  lemma {:induction false} PositionAfterRemoval(order: seq<string>, other: string, runner: string)
    requires other != runner && runner in order
    ensures Position(RemoveFirst(order, other), runner) <= Position(order, runner)
    ensures runner in RemoveFirst(order, other)
  {
    if order[0] == runner {
    } else if order[0] == other {
      assert runner in order[1..];
    } else {
      assert runner in order[1..];
      PositionAfterRemoval(order[1..], other, runner);
      assert RemoveFirst(order, other) == [order[0]] + RemoveFirst(order[1..], other);
    }
  }

  lemma {:induction false} PositionAppend(order: seq<string>, other: string, runner: string)
    requires runner in order
    ensures Position(order + [other], runner) == Position(order, runner)
    decreases |order|
  {
    if order[0] != runner {
      assert runner in order[1..];
      assert (order + [other])[1..] == order[1..] + [other];
      PositionAppend(order[1..], other, runner);
    }
  }

  /** The rest keeps its order. */
  lemma {:induction false} RemoveFirstInOrder<T>(before: seq<T>, item: T, after: seq<T>)
    requires item !in before
    ensures RemoveFirst(before + [item] + after, item) == before + after
    ensures RemoveFirst(before, item) == before
  {
    if before == [] {
      assert before + [item] + after == [item] + after;
      assert before + after == after;
    } else {
      assert (before + [item] + after)[1..] == before[1..] + [item] + after;
      RemoveFirstInOrder(before[1..], item, after);
      assert before == [before[0]] + before[1..];
    }
  }
}
