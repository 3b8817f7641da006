/** Runtimes form a tree by parent links; a Runner's gates are the limited runtimes on its way to the root. */
module RuntimeTree {
  import opened Outcomes
  import opened Collections

  datatype Runtime = Runtime(parent: Option<string>, workers: Option<nat>)

  datatype Limit = Limit(runtime: string, workers: nat)

  function Names(limits: seq<Limit>): (names: seq<string>)
    ensures |names| == |limits| && forall k | 0 <= k < |limits| :: names[k] == limits[k].runtime
  {
    if limits == [] then [] else [limits[0].runtime] + Names(limits[1..])
  }

  type Tree = map<string, Runtime>

  /** Every runtime from `current` to the root, child first; a cycle or a missing runtime is refused. */
  function Lineage(tree: Tree, current: Option<string>, visited: set<string>): Outcome<seq<string>>
    decreases |tree.Keys - visited|
  {
    if current.None? then Accepted([])
    else
      var id := current.value;
      if id in visited || id !in tree then Rejected
      else
        Shrinks(tree, id, visited);
        var rest := Lineage(tree, tree[id].parent, visited + {id});
        if rest.Rejected? then Rejected else Accepted([id] + rest.value)
  }

  lemma Shrinks(tree: Tree, id: string, visited: set<string>)
    requires id in tree && id !in visited
    ensures |tree.Keys - (visited + {id})| < |tree.Keys - visited|
  {
    assert id in tree.Keys - visited && id !in tree.Keys - (visited + {id});
    ProperSubsetSize(tree.Keys - (visited + {id}), tree.Keys - visited);
  }

  function LimitsOf(tree: Tree, lineage: seq<string>): seq<Limit>
    requires forall id | id in lineage :: id in tree
  {
    if lineage == [] then []
    else OwnLimit(tree, lineage[0]) + LimitsOf(tree, lineage[1..])
  }

  function OwnLimit(tree: Tree, id: string): seq<Limit>
    requires id in tree
  {
    if tree[id].workers.Some? then [Limit(id, tree[id].workers.value)] else []
  }

  lemma {:induction false} LimitsOfAppend(tree: Tree, lineage: seq<string>, id: string)
    requires id in tree && forall other | other in lineage :: other in tree
    ensures LimitsOf(tree, lineage + [id]) == LimitsOf(tree, lineage) + OwnLimit(tree, id)
    decreases |lineage|
  {
    var whole := lineage + [id];
    if lineage == [] {
      assert whole == [id] && LimitsOf(tree, whole[1..]) == [];
    } else {
      LimitsOfAppend(tree, lineage[1..], id);
      assert whole[1..] == lineage[1..] + [id] && whole[0] == lineage[0];
      assert LimitsOf(tree, whole) == OwnLimit(tree, lineage[0]) + (LimitsOf(tree, lineage[1..]) + OwnLimit(tree, id));
    }
  }

  lemma {:induction false} LineageInTree(tree: Tree, current: Option<string>, visited: set<string>)
    requires Lineage(tree, current, visited).Accepted?
    ensures forall id | id in Lineage(tree, current, visited).value :: id in tree && id !in visited
    decreases |tree.Keys - visited|
  {
    if current.Some? {
      Shrinks(tree, current.value, visited);
      LineageInTree(tree, tree[current.value].parent, visited + {current.value});
    }
  }

  function Behind(passed: seq<string>, rest: Outcome<seq<string>>): Outcome<seq<string>> {
    if rest.Rejected? then Rejected else Accepted(passed + rest.value)
  }

  lemma AllPassed(passed: seq<string>, whole: Outcome<seq<string>>)
    requires Behind([], whole) == Behind(passed, Accepted([]))
    ensures whole == Accepted(passed)
  {
    assert passed + [] == passed;
    assert whole.Accepted? ==> [] + whole.value == whole.value;
  }

  lemma LineageStep(tree: Tree, id: string, visited: set<string>, passed: seq<string>)
    requires id in tree && id !in visited
    ensures Behind(passed, Lineage(tree, Some(id), visited))
         == Behind(passed + [id], Lineage(tree, tree[id].parent, visited + {id}))
  {
    var rest := Lineage(tree, tree[id].parent, visited + {id});
    if rest.Accepted? {
      assert passed + ([id] + rest.value) == passed + [id] + rest.value;
    }
  }

  lemma LineageEnds(tree: Tree, current: Option<string>, visited: set<string>)
    ensures current.None? ==> Lineage(tree, current, visited) == Accepted([])
    ensures current.Some? && (current.value in visited || current.value !in tree) ==>
              Lineage(tree, current, visited).Rejected?
  {
  }

  // ------------------------------------------------ the chain of parents

  /** The identifier that so many parent links lead to, if they lead anywhere. */
  function Above(tree: Tree, start: Option<string>, links: nat): Option<string>
    decreases links
  {
    if links == 0 || start.None? then start
    else if start.value !in tree then None
    else Above(tree, tree[start.value].parent, links - 1)
  }

  /** Parent links lead to a runtime that does not exist, or twice to the same one. */
  ghost predicate Broken(tree: Tree, start: Option<string>) {
    exists n: nat :: Above(tree, start, n).Some? && (Above(tree, start, n).value !in tree || Repeats(tree, start, n))
  }

  ghost predicate Repeats(tree: Tree, start: Option<string>, n: nat) {
    exists m: nat :: m < n && Above(tree, start, m) == Above(tree, start, n)
  }

  /** The walk is refused because of the place where the links break off or come back. */
  lemma {:induction false} RefusedAt(tree: Tree, current: Option<string>, visited: set<string>) returns (n: nat)
    requires Lineage(tree, current, visited).Rejected?
    ensures Above(tree, current, n).Some?
    ensures var id := Above(tree, current, n).value;
      id !in tree || id in visited || Repeats(tree, current, n)
    decreases |tree.Keys - visited|
  {
    var id := current.value;
    if id in visited || id !in tree {
      n := 0;
    } else {
      Shrinks(tree, id, visited);
      var above := RefusedAt(tree, tree[id].parent, visited + {id});
      n := above + 1;
      assert Above(tree, current, n) == Above(tree, tree[id].parent, above);
      if Above(tree, current, n) == current {
        assert Above(tree, current, 0) == Above(tree, current, n);
      } else if Repeats(tree, tree[id].parent, above) {
        var m: nat :| m < above && Above(tree, tree[id].parent, m) == Above(tree, tree[id].parent, above);
        assert Above(tree, current, m + 1) == Above(tree, current, n);
      }
    }
  }

  /** An accepted walk lists what the links lead to, until they end at a root. */
  lemma {:induction false} ListedAbove(tree: Tree, current: Option<string>, visited: set<string>, n: nat)
    requires Lineage(tree, current, visited).Accepted?
    ensures var lineage := Lineage(tree, current, visited).value;
      Above(tree, current, n) == if n < |lineage| then Some(lineage[n]) else None
    decreases |tree.Keys - visited|
  {
    if current.Some? {
      var id := current.value;
      Shrinks(tree, id, visited);
      if n > 0 {
        ListedAbove(tree, tree[id].parent, visited + {id}, n - 1);
      }
    }
  }

  lemma {:induction false} LineageDistinct(tree: Tree, current: Option<string>, visited: set<string>)
    requires Lineage(tree, current, visited).Accepted?
    ensures Distinct(Lineage(tree, current, visited).value)
    decreases |tree.Keys - visited|
  {
    if current.Some? {
      var id := current.value;
      Shrinks(tree, id, visited);
      LineageDistinct(tree, tree[id].parent, visited + {id});
      LineageInTree(tree, tree[id].parent, visited + {id});
      var rest := Lineage(tree, tree[id].parent, visited + {id}).value;
      assert forall k | 0 <= k < |rest| :: rest[k] in rest;
    }
  }

  /** The walk is refused exactly when the chain of parents is broken. */
  lemma RefusedExactlyBroken(tree: Tree, start: Option<string>)
    ensures Lineage(tree, start, {}).Rejected? <==> Broken(tree, start)
  {
    hide Lineage, Above;
    if Lineage(tree, start, {}).Rejected? {
      var n := RefusedAt(tree, start, {});
    } else {
      var lineage := Lineage(tree, start, {}).value;
      LineageInTree(tree, start, {});
      LineageDistinct(tree, start, {});
      forall n: nat ensures Above(tree, start, n) == if n < |lineage| then Some(lineage[n]) else None {
        ListedAbove(tree, start, {}, n);
      }
    }
  }

  /**
    Walks up the parents, keeping the limited runtimes in order; a chain that leads to a missing runtime
    or in a circle is refused, and no other.
   */
  method RuntimeLimits(tree: Tree, start: Option<string>) returns (limits: Outcome<seq<Limit>>)
    ensures limits.Rejected? <==> Broken(tree, start)
    ensures limits.Accepted? <==> Lineage(tree, start, {}).Accepted?
    ensures limits.Accepted? ==>
              && (forall id | id in Lineage(tree, start, {}).value :: id in tree)
              && limits.value == LimitsOf(tree, Lineage(tree, start, {}).value)
  {
    RefusedExactlyBroken(tree, start);
    var found, visited, current := [], {}, start;
    ghost var passed := [];
    assert LimitsOf(tree, passed) == found;
    hide LimitsOf, Lineage, Broken;
    while current.Some?
      invariant (forall id | id in passed :: id in tree) && found == LimitsOf(tree, passed)
      invariant Behind([], Lineage(tree, start, {})) == Behind(passed, Lineage(tree, current, visited))
      decreases |tree.Keys - visited|
    {
      var id := current.value;
      LineageEnds(tree, current, visited);
      if id in visited || id !in tree {
        return Rejected;
      }
      Shrinks(tree, id, visited);
      LimitsOfAppend(tree, passed, id);
      LineageStep(tree, id, visited, passed);
      visited := visited + {id};
      if tree[id].workers.Some? {
        found := found + [Limit(id, tree[id].workers.value)];
      }
      passed := passed + [id];
      current := tree[id].parent;
    }
    LineageEnds(tree, current, visited);
    AllPassed(passed, Lineage(tree, start, {}));
    return Accepted(found);
  }

  // ------------------------------------------------ one order for every Runner

  /** Height above the root, one number per runtime: the common order behind every chain of gates. */
  function Height(tree: Tree, id: string): nat {
    var lineage := Lineage(tree, Some(id), {});
    if lineage.Accepted? then |lineage.value| else 0
  }

  lemma {:induction false} LineageForgets(tree: Tree, current: Option<string>, visited: set<string>, fewer: set<string>)
    requires Lineage(tree, current, visited).Accepted? && fewer <= visited
    ensures Lineage(tree, current, fewer) == Lineage(tree, current, visited)
    decreases |tree.Keys - visited|
  {
    if current.Some? {
      var id := current.value;
      Shrinks(tree, id, visited);
      LineageForgets(tree, tree[id].parent, visited + {id}, fewer + {id});
    }
  }

  lemma {:induction false} HeightsDescend(tree: Tree, current: Option<string>, visited: set<string>)
    requires Lineage(tree, current, visited).Accepted?
    ensures var lineage := Lineage(tree, current, visited).value;
      forall k | 0 <= k < |lineage| :: Height(tree, lineage[k]) == |lineage| - k
    decreases |tree.Keys - visited|
  {
    if current.Some? {
      var id := current.value;
      Shrinks(tree, id, visited);
      HeightsDescend(tree, tree[id].parent, visited + {id});
      LineageForgets(tree, current, visited, {});
    }
  }

  ghost predicate Descending(order: string -> nat, gates: seq<string>) {
    forall i, j | 0 <= i < j < |gates| :: order(gates[i]) > order(gates[j])
  }

  lemma {:induction false} LimitsKeepOrder(tree: Tree, lineage: seq<string>, order: string -> nat)
    requires forall id | id in lineage :: id in tree
    requires Descending(order, lineage)
    ensures Descending(order, Names(LimitsOf(tree, lineage)))
    ensures forall id | id in Names(LimitsOf(tree, lineage)) :: id in lineage
    decreases |lineage|
  {
    hide Descending;
    if lineage == [] {
      assert Descending(order, []) by { DescendingCons(order, lineage, []); }
    } else {
      var tail := LimitsOf(tree, lineage[1..]);
      DescendingTail(order, lineage);
      LimitsKeepOrder(tree, lineage[1..], order);
      if tree[lineage[0]].workers.Some? {
        assert LimitsOf(tree, lineage)[1..] == tail;
        forall id | id in Names(tail) ensures order(lineage[0]) > order(id) {
          var k :| 0 <= k < |lineage[1..]| && lineage[1..][k] == id;
        }
        DescendingCons(order, [lineage[0]], Names(tail));
      } else {
        assert LimitsOf(tree, lineage) == tail;
      }
    }
  }

  lemma DescendingTail(order: string -> nat, gates: seq<string>)
    requires gates != [] && Descending(order, gates)
    ensures Descending(order, gates[1..])
    ensures forall k | 0 <= k < |gates[1..]| :: order(gates[0]) > order(gates[1..][k])
  {
  }

  lemma DescendingCons(order: string -> nat, head: seq<string>, tail: seq<string>)
    requires |head| <= 1 && Descending(order, tail)
    requires head != [] ==> forall id | id in tail :: order(head[0]) > order(id)
    ensures Descending(order, head + tail)
  {
  }

  /** Whatever runtime a Runner starts from, its gates descend in the one order that heights give. */
  lemma GatesDescend(tree: Tree, start: Option<string>)
    requires Lineage(tree, start, {}).Accepted?
    ensures forall id | id in Lineage(tree, start, {}).value :: id in tree
    ensures Descending(id => Height(tree, id), Names(LimitsOf(tree, Lineage(tree, start, {}).value)))
    ensures Distinct(Names(LimitsOf(tree, Lineage(tree, start, {}).value)))
  {
    hide Height;
    LineageInTree(tree, start, {});
    HeightsDescend(tree, start, {});
    LimitsKeepOrder(tree, Lineage(tree, start, {}).value, id => Height(tree, id));
  }

  /** Exactly the limited runtimes of a lineage, each with its own limit. */
  lemma {:induction false} LimitsAre(tree: Tree, lineage: seq<string>)
    requires forall id | id in lineage :: id in tree
    ensures forall limit :: limit in LimitsOf(tree, lineage)
              <==> limit.runtime in lineage && tree[limit.runtime].workers == Some(limit.workers)
  {
    if lineage != [] {
      LimitsAre(tree, lineage[1..]);
      assert forall id :: id in lineage <==> id == lineage[0] || id in lineage[1..];
    }
  }
}
