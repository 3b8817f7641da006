/**
  When the overlap estimate is exact: no row of one part of a parallel composite may wait for a row of
  another part of it.
 */
module ExactEstimate {
  import opened Outcomes
  import opened TaskNodes
  import opened Expansion
  import opened Dependencies
  import opened Frontiers
  import opened PeakOverlap

  type Pairs = set<(string, string)>

  function Crossed(a: set<string>, b: set<string>): Pairs {
    set x, y | x in a && y in b :: (x, y)
  }

  /** The rows that different parts of one parallel composite add, over all composites inside the node. */
  function Beside(node: Node, dimensions: Dimensions, rows: seq<Row>, frontier: seq<string>, path: seq<string>,
                  inherited: real): Pairs
    requires Expand(node, dimensions, rows, frontier, path, inherited).Accepted?
    decreases node.Height(), 0
  {
    if node.Leaf? then {}
    else
      var own, parts := OwnDelay(node, dimensions).value, Parts(node, dimensions, path).value;
      PartHeightBelow(parts, node.Height());
      if node.Serial() then BesideSerial(parts, dimensions, rows, frontier, inherited + own, LaterDelay(node, own))
      else BesideParallel(parts, dimensions, rows, frontier, inherited + own)
  }

  function BesideSerial(parts: seq<Part>, dimensions: Dimensions, rows: seq<Row>, frontier: seq<string>, first: real,
                        later: real): Pairs
    requires ExpandSerial(parts, dimensions, rows, frontier, first, later).Accepted?
    decreases PartHeight(parts), |parts|
  {
    if parts == [] then {}
    else
      var head := Expand(parts[0].node, dimensions, rows, frontier, parts[0].path, first).value;
      Beside(parts[0].node, dimensions, rows, frontier, parts[0].path, first)
      + BesideSerial(parts[1..], dimensions, head.rows, head.frontier, later, later)
  }

  function BesideParallel(parts: seq<Part>, dimensions: Dimensions, rows: seq<Row>, frontier: seq<string>,
                          delay: real): Pairs
    requires ExpandParallel(parts, dimensions, rows, frontier, delay).Accepted?
    decreases PartHeight(parts), |parts|
  {
    if parts == [] then {}
    else
      var head := Expand(parts[0].node, dimensions, rows, frontier, parts[0].path, delay).value;
      var rest := ExpandParallel(parts[1..], dimensions, head.rows, frontier, delay).value;
      Beside(parts[0].node, dimensions, rows, frontier, parts[0].path, delay)
      + BesideParallel(parts[1..], dimensions, head.rows, frontier, delay)
      + Crossed(Ids(Added(rows, head)), Ids(Added(head.rows, rest)))
  }

  /** None of the pairs is related by a transitive dependency. */
  ghost predicate Unmixed(rows: seq<Row>, pairs: Pairs) {
    forall pair | pair in pairs :: pair.0 !in Ancestors(rows, pair.1) && pair.1 !in Ancestors(rows, pair.0)
  }

  /** What the compiler expands a composite into, and the pairs of its composition. */
  lemma BesideUnfolds(node: Node, dimensions: Dimensions, rows: seq<Row>, frontier: seq<string>, path: seq<string>,
                      inherited: real, grown: Grown)
    returns (parts: seq<Part>, first: real, later: real)
    requires node.WellFormed() && !node.Leaf?
    requires Expand(node, dimensions, rows, frontier, path, inherited) == Accepted(grown)
    ensures Parts(node, dimensions, path) == Accepted(parts) && PartHeight(parts) < node.Height()
    ensures forall part | part in parts :: part.node.WellFormed()
    ensures node.Free() ==> forall part | part in parts :: part.node.Free()
    ensures node.Serial() ==> ExpandSerial(parts, dimensions, rows, frontier, first, later) == Accepted(grown)
    ensures !node.Serial() ==>
              parts != [] && ExpandParallel(parts, dimensions, rows, frontier, first) == Accepted(grown)
    ensures Beside(node, dimensions, rows, frontier, path, inherited)
         == if node.Serial() then BesideSerial(parts, dimensions, rows, frontier, first, later)
            else BesideParallel(parts, dimensions, rows, frontier, first)
  {
    hide Parts, OwnDelay, ExpandSerial, ExpandParallel, LaterDelay, BesideSerial, BesideParallel;
    parts, first, later := ExpandUnfolds(node, dimensions, rows, frontier, path, inherited, grown);
  }

  // ------------------------------------------------ pairs stay within what was added

  lemma {:induction false} BesideIsAdded(
      node: Node, dimensions: Dimensions, rows: seq<Row>, frontier: seq<string>, path: seq<string>, inherited: real,
      grown: Grown)
    requires node.WellFormed() && Expand(node, dimensions, rows, frontier, path, inherited) == Accepted(grown)
    ensures forall pair | pair in Beside(node, dimensions, rows, frontier, path, inherited) ::
              pair.0 in Ids(Added(rows, grown)) && pair.1 in Ids(Added(rows, grown))
    decreases node.Height(), 0
  {
    hide Expand, ExpandSerial, ExpandParallel;
    if node.Leaf? {
      assert Beside(node, dimensions, rows, frontier, path, inherited) == {};
    } else {
      var parts, first, later := BesideUnfolds(node, dimensions, rows, frontier, path, inherited, grown);
      if node.Serial() {
        SerialIsAdded(parts, dimensions, rows, frontier, first, later, grown);
      } else {
        ParallelIsAdded(parts, dimensions, rows, frontier, first, grown);
      }
    }
  }

  lemma {:induction false} SerialIsAdded(
      parts: seq<Part>, dimensions: Dimensions, rows: seq<Row>, frontier: seq<string>, first: real, later: real,
      grown: Grown)
    requires forall part | part in parts :: part.node.WellFormed()
    requires ExpandSerial(parts, dimensions, rows, frontier, first, later) == Accepted(grown)
    ensures forall pair | pair in BesideSerial(parts, dimensions, rows, frontier, first, later) ::
              pair.0 in Ids(Added(rows, grown)) && pair.1 in Ids(Added(rows, grown))
    decreases PartHeight(parts), |parts|
  {
    hide Ids, Expand;
    if parts != [] {
      var head := Expand(parts[0].node, dimensions, rows, frontier, parts[0].path, first).value;
      BesideIsAdded(parts[0].node, dimensions, rows, frontier, parts[0].path, first, head);
      SerialIsAdded(parts[1..], dimensions, head.rows, head.frontier, later, later, grown);
      AddedSplits(rows, head, grown);
    }
  }

  lemma {:induction false} ParallelIsAdded(
      parts: seq<Part>, dimensions: Dimensions, rows: seq<Row>, frontier: seq<string>, delay: real, grown: Grown)
    requires forall part | part in parts :: part.node.WellFormed()
    requires ExpandParallel(parts, dimensions, rows, frontier, delay) == Accepted(grown)
    ensures forall pair | pair in BesideParallel(parts, dimensions, rows, frontier, delay) ::
              pair.0 in Ids(Added(rows, grown)) && pair.1 in Ids(Added(rows, grown))
    decreases PartHeight(parts), |parts|
  {
    hide Ids, Expand;
    if parts != [] {
      var head := Expand(parts[0].node, dimensions, rows, frontier, parts[0].path, delay).value;
      var rest := ExpandParallel(parts[1..], dimensions, head.rows, frontier, delay).value;
      BesideIsAdded(parts[0].node, dimensions, rows, frontier, parts[0].path, delay, head);
      ParallelIsAdded(parts[1..], dimensions, head.rows, frontier, delay, rest);
      AddedSplits(rows, head, rest);
    }
  }

  /** Pairs unrelated in the end were unrelated among the rows they belong to. */
  lemma UnmixedBefore(rows: seq<Row>, grown: Grown, pairs: Pairs, all: Pairs)
    requires rows <= grown.rows && UniqueIds(grown.rows) && Unmixed(grown.rows, all) && pairs <= all
    requires forall pair | pair in pairs :: pair.0 in Ids(rows) && pair.1 in Ids(rows)
    ensures Unmixed(rows, pairs)
  {
    forall pair | pair in pairs ensures pair.0 !in Ancestors(rows, pair.1) && pair.1 !in Ancestors(rows, pair.0) {
      AncestorsKept(rows, grown, pair.0);
      AncestorsKept(rows, grown, pair.1);
    }
  }

  // ------------------------------------------------ unrelated parts reach the estimate

  /** Chosen rows of one expansion that reach its peak. */
  ghost predicate Witness(rows: seq<Row>, grown: Grown, chosen: set<string>, weights: Weights, peak: nat) {
    && rows <= grown.rows && chosen <= Ids(Added(rows, grown)) && Antichain(grown.rows, chosen)
    && Load(Added(rows, grown), chosen, weights) == peak
  }

  lemma {:induction false} PeakReached(
      node: Node, dimensions: Dimensions, rows: seq<Row>, frontier: seq<string>, path: seq<string>, inherited: real,
      grown: Grown, weights: Weights)
    returns (chosen: set<string>)
    requires node.WellFormed() && UniqueIds(rows) && Known(rows, frontier)
    requires Expand(node, dimensions, rows, frontier, path, inherited) == Accepted(grown) && Backward(grown.rows)
    requires Unmixed(grown.rows, Beside(node, dimensions, rows, frontier, path, inherited))
    ensures Witness(rows, grown, chosen, weights, Peak(node, dimensions, weights, path))
    decreases node.Height(), 0
  {
    hide Backward, UniqueIds, Unmixed, Beside, Witness;
    if node.Leaf? {
      var row := ExpandLeafUnfolds(node, dimensions, rows, frontier, path, inherited, grown);
      chosen := {row.id};
      LeafWitness(rows, row, weights);
    } else {
      var parts, first, later := BesideUnfolds(node, dimensions, rows, frontier, path, inherited, grown);
      if node.Serial() {
        chosen := SerialPeakReached(parts, dimensions, rows, frontier, first, later, grown, weights);
      } else {
        chosen := ParallelPeakReached(parts, dimensions, rows, frontier, first, grown, weights);
      }
    }
  }

  lemma LeafWitness(rows: seq<Row>, row: Row, weights: Weights)
    requires Emittable(rows, row) && Backward(rows + [row]) && UniqueIds(rows)
    ensures Witness(rows, Grown(rows + [row], [row.id]), {row.id}, weights, WeightOf(weights, row.id))
  {
    var grown := Grown(rows + [row], [row.id]);
    assert Added(rows, grown) == [row];
    assert row in [row];
    UniqueAppend(rows, row);
    NotOwnAncestor(grown.rows, row.id);
  }

  lemma UniqueAppend(rows: seq<Row>, row: Row)
    requires UniqueIds(rows) && row.id !in Ids(rows)
    ensures UniqueIds(rows + [row])
  {
    forall i | 0 <= i < |rows| ensures rows[i].id != row.id {
      assert rows[i] in rows;
    }
  }

  lemma {:induction false} SerialPeakReached(
      parts: seq<Part>, dimensions: Dimensions, rows: seq<Row>, frontier: seq<string>, first: real, later: real,
      grown: Grown, weights: Weights)
    returns (chosen: set<string>)
    requires (forall part | part in parts :: part.node.WellFormed()) && UniqueIds(rows) && Known(rows, frontier)
    requires ExpandSerial(parts, dimensions, rows, frontier, first, later) == Accepted(grown) && Backward(grown.rows)
    requires Unmixed(grown.rows, BesideSerial(parts, dimensions, rows, frontier, first, later))
    ensures Witness(rows, grown, chosen, weights, PeakOfSerial(parts, dimensions, weights))
    decreases PartHeight(parts), |parts| + 2
  {
    hide Backward, Witness, Beside, Ids;
    if parts == [] {
      chosen := {};
      NothingWitness(rows, grown, weights);
    } else {
      var head := Expand(parts[0].node, dimensions, rows, frontier, parts[0].path, first).value;
      var mine, all := Beside(parts[0].node, dimensions, rows, frontier, parts[0].path, first),
                       BesideSerial(parts, dimensions, rows, frontier, first, later);
      HeadGrew(parts, dimensions, rows, frontier, first, head, grown);
      UniqueGrown(parts, dimensions, rows, frontier, first, later, grown);
      HeadUnmixed(parts[0], dimensions, rows, frontier, first, head, grown, all);
      var early := PeakReached(parts[0].node, dimensions, rows, frontier, parts[0].path, first, head, weights);
      var late := SerialPeakReached(parts[1..], dimensions, head.rows, head.frontier, later, later, grown, weights);
      chosen := SerialWitness(rows, head, grown, early, late, weights,
                              Peak(parts[0].node, dimensions, weights, parts[0].path),
                              PeakOfSerial(parts[1..], dimensions, weights));
    }
  }

  lemma UniqueGrown(parts: seq<Part>, dimensions: Dimensions, rows: seq<Row>, frontier: seq<string>, first: real,
                    later: real, grown: Grown)
    requires UniqueIds(rows) && ExpandSerial(parts, dimensions, rows, frontier, first, later) == Accepted(grown)
    ensures UniqueIds(grown.rows)
  {
    hide ExpandSerial, UniqueIds;
  }

  lemma NothingWitness(rows: seq<Row>, grown: Grown, weights: Weights)
    requires grown.rows == rows
    ensures Witness(rows, grown, {}, weights, 0)
  {
    assert Added(rows, grown) == [];
  }

  /** The first part's own pairs were unrelated as soon as it was expanded. */
  lemma HeadUnmixed(part: Part, dimensions: Dimensions, rows: seq<Row>, frontier: seq<string>, delay: real, head: Grown,
                    grown: Grown, all: Pairs)
    requires part.node.WellFormed() && Expand(part.node, dimensions, rows, frontier, part.path, delay) == Accepted(head)
    requires head.rows <= grown.rows && UniqueIds(grown.rows) && Unmixed(grown.rows, all)
    requires Beside(part.node, dimensions, rows, frontier, part.path, delay) <= all
    ensures Unmixed(head.rows, Beside(part.node, dimensions, rows, frontier, part.path, delay))
  {
    hide Expand, Beside, Unmixed, Ids;
    BesideIsAdded(part.node, dimensions, rows, frontier, part.path, delay, head);
    AddedSplits(rows, head, head);
    UnmixedBefore(head.rows, grown, Beside(part.node, dimensions, rows, frontier, part.path, delay), all);
  }

  lemma SerialWitness(rows: seq<Row>, head: Grown, grown: Grown, early: set<string>, late: set<string>,
                      weights: Weights, earlyPeak: nat, latePeak: nat)
    returns (chosen: set<string>)
    requires UniqueIds(grown.rows)
    requires Witness(rows, head, early, weights, earlyPeak) && Witness(head.rows, grown, late, weights, latePeak)
    ensures Witness(rows, grown, chosen, weights, if earlyPeak > latePeak then earlyPeak else latePeak)
  {
    AddedSplits(rows, head, grown);
    LoadSplits(Added(rows, head), Added(head.rows, grown), early, weights);
    LoadSplits(Added(rows, head), Added(head.rows, grown), late, weights);
    ApartFromAdded(head.rows, grown);
    LoadNothing(Added(head.rows, grown), early, weights);
    LoadNothing(Added(rows, head), late, weights);
    forall id | id in Ids(Added(rows, head)) ensures Ancestors(grown.rows, id) == Ancestors(head.rows, id) {
      AncestorsKept(head.rows, grown, id);
    }
    chosen := if earlyPeak > latePeak then early else late;
  }

  lemma ApartFromAdded(rows: seq<Row>, grown: Grown)
    requires rows <= grown.rows && UniqueIds(grown.rows)
    ensures Ids(rows) !! Ids(Added(rows, grown))
  {
    forall id | id in Ids(rows) ensures id !in Ids(Added(rows, grown)) {
      AncestorsKept(rows, grown, id);
    }
  }

  lemma {:induction false} ParallelPeakReached(
      parts: seq<Part>, dimensions: Dimensions, rows: seq<Row>, frontier: seq<string>, delay: real, grown: Grown,
      weights: Weights)
    returns (chosen: set<string>)
    requires (forall part | part in parts :: part.node.WellFormed()) && UniqueIds(rows) && Known(rows, frontier)
    requires ExpandParallel(parts, dimensions, rows, frontier, delay) == Accepted(grown) && Backward(grown.rows)
    requires Unmixed(grown.rows, BesideParallel(parts, dimensions, rows, frontier, delay))
    ensures Witness(rows, grown, chosen, weights, PeakOfParallel(parts, dimensions, weights))
    decreases PartHeight(parts), |parts| + 2
  {
    hide Backward, Witness, Beside, Ids, Unmixed, UniqueIds, Ancestors, Added, Peak, PeakOfParallel, ExpandParallel;
    if parts == [] {
      chosen := {};
      NothingBeside(parts, dimensions, rows, frontier, delay, grown, weights);
    } else {
      var head, rest := ParallelUnfolds(parts, dimensions, rows, frontier, delay, grown, weights);
      var all := BesideParallel(parts, dimensions, rows, frontier, delay);
      HeadGrew(parts, dimensions, rows, frontier, delay, head, rest);
      HeadUnmixed(parts[0], dimensions, rows, frontier, delay, head, rest, all);
      var one := PeakReached(parts[0].node, dimensions, rows, frontier, parts[0].path, delay, head, weights);
      RestUnmixed(grown.rows, BesideParallel(parts[1..], dimensions, head.rows, frontier, delay), all);
      var others := ParallelPeakReached(parts[1..], dimensions, head.rows, frontier, delay, rest, weights);
      AcrossUnmixed(rows, head, rest, all);
      ParallelWitness(rows, head, rest, one, others, weights,
                      Peak(parts[0].node, dimensions, weights, parts[0].path),
                      PeakOfParallel(parts[1..], dimensions, weights));
      chosen := one + others;
    }
  }

  lemma NothingBeside(parts: seq<Part>, dimensions: Dimensions, rows: seq<Row>, frontier: seq<string>, delay: real,
                      grown: Grown, weights: Weights)
    requires parts == [] && ExpandParallel(parts, dimensions, rows, frontier, delay) == Accepted(grown)
    ensures Witness(rows, grown, {}, weights, PeakOfParallel(parts, dimensions, weights))
  {
    NothingWitness(rows, grown, weights);
  }

  /** The first part and the rest of a parallel composition. */
  lemma ParallelUnfolds(parts: seq<Part>, dimensions: Dimensions, rows: seq<Row>, frontier: seq<string>, delay: real,
                        grown: Grown, weights: Weights)
    returns (head: Grown, rest: Grown)
    requires parts != [] && UniqueIds(rows)
    requires ExpandParallel(parts, dimensions, rows, frontier, delay) == Accepted(grown)
    ensures Expand(parts[0].node, dimensions, rows, frontier, parts[0].path, delay) == Accepted(head)
    ensures ExpandParallel(parts[1..], dimensions, head.rows, frontier, delay) == Accepted(rest)
    ensures grown == Grown(rest.rows, head.frontier + rest.frontier)
    ensures rows <= head.rows <= rest.rows && UniqueIds(head.rows) && UniqueIds(rest.rows)
    ensures PartHeight(parts[1..]) <= PartHeight(parts) && parts[0].node.Height() <= PartHeight(parts)
    ensures BesideParallel(parts, dimensions, rows, frontier, delay)
         == Beside(parts[0].node, dimensions, rows, frontier, parts[0].path, delay)
            + BesideParallel(parts[1..], dimensions, head.rows, frontier, delay)
            + Crossed(Ids(Added(rows, head)), Ids(Added(head.rows, rest)))
    ensures PeakOfParallel(parts, dimensions, weights)
         == Peak(parts[0].node, dimensions, weights, parts[0].path) + PeakOfParallel(parts[1..], dimensions, weights)
  {
    hide Expand, Beside, Peak, UniqueIds, Ids;
    head := Expand(parts[0].node, dimensions, rows, frontier, parts[0].path, delay).value;
    rest := ExpandParallel(parts[1..], dimensions, head.rows, frontier, delay).value;
  }

  lemma RestUnmixed(rows: seq<Row>, pairs: Pairs, all: Pairs)
    requires Unmixed(rows, all) && pairs <= all
    ensures Unmixed(rows, pairs)
  {
  }

  /** No row of the first part is an ancestor of a row of the others. */
  lemma AcrossUnmixed(rows: seq<Row>, head: Grown, rest: Grown, all: Pairs)
    requires rows <= head.rows <= rest.rows && Unmixed(rest.rows, all)
    requires Crossed(Ids(Added(rows, head)), Ids(Added(head.rows, rest))) <= all
    ensures forall a, b | a in Ids(Added(rows, head)) && b in Ids(Added(head.rows, rest)) ::
              a !in Ancestors(rest.rows, b)
  {
    hide Ids, Ancestors;
    forall a, b | a in Ids(Added(rows, head)) && b in Ids(Added(head.rows, rest))
      ensures a !in Ancestors(rest.rows, b)
    {
      assert (a, b) in Crossed(Ids(Added(rows, head)), Ids(Added(head.rows, rest)));
    }
  }

  lemma ParallelWitness(rows: seq<Row>, head: Grown, rest: Grown, one: set<string>,
                        others: set<string>, weights: Weights, onePeak: nat, otherPeak: nat)
    requires UniqueIds(rest.rows) && Backward(head.rows)
    requires Witness(rows, head, one, weights, onePeak) && Witness(head.rows, rest, others, weights, otherPeak)
    requires forall a, b | a in Ids(Added(rows, head)) && b in Ids(Added(head.rows, rest)) ::
               a !in Ancestors(rest.rows, b)
    ensures Witness(rows, Grown(rest.rows, head.frontier + rest.frontier), one + others, weights, onePeak + otherPeak)
  {
    hide Ancestors, Backward, UniqueIds;
    var mine, theirs := Added(rows, head), Added(head.rows, rest);
    AddedSplits(rows, head, rest);
    AddedSplits(rows, head, head);
    ApartFromAdded(head.rows, rest);
    LoadSplits(mine, theirs, one + others, weights);
    LoadAgrees(mine, one + others, one, weights);
    LoadAgrees(theirs, one + others, others, weights);
    forall a, b | a in one + others && b in one + others ensures a !in Ancestors(rest.rows, b) {
      if b in one {
        AncestorsKept(head.rows, rest, b);
        AncestorsEarlier(head.rows, b);
      }
    }
  }

  // ------------------------------------------------ leaves without dependencies of their own are never mixed

  lemma LeafIsLocal(rows: seq<Row>, frontier: seq<string>, row: Row)
    requires Emittable(rows, row) && Backward(rows + [row])
    requires forall d :: d in row.dependencies <==> d in frontier
    ensures var grown := Grown(rows + [row], [row.id]);
      Local(rows, frontier, grown)
  {
    var grown := Grown(rows + [row], [row.id]);
    assert Added(rows, grown) == [row];
    assert grown.rows[..|grown.rows| - 1] == rows;
    BackwardPrefix(rows, [row]);
    assert forall d | d in row.dependencies :: d in Ids(rows) by {
      assert (rows + [row])[|rows|] == row && (rows + [row])[..|rows|] == rows;
    }
    forall d | d in row.dependencies ensures Ancestors(rows, d) <= Ids(rows) {
      AncestorsEarlier(rows, d);
    }
    assert AllAncestors(rows, row.dependencies) == AllAncestors(rows, frontier);
  }

  /** The outgoing frontier lies within the added rows and the incoming downset. */
  lemma FrontierLocal(rows: seq<Row>, frontier: seq<string>, head: Grown)
    requires Grew(rows, frontier, head) && Local(rows, frontier, head) && Known(rows, frontier)
    ensures Downset(head.rows, head.frontier) <= Ids(Added(rows, head)) + Downset(rows, frontier)
  {
    forall id | id in Downset(head.rows, head.frontier)
      ensures id in Ids(Added(rows, head)) + Downset(rows, frontier)
    {
      if id !in head.frontier {
        var f :| f in head.frontier && id in Ancestors(head.rows, f);
        if f !in Ids(Added(rows, head)) {
          AncestorsKept(rows, head, f);
        }
      }
    }
  }

  lemma {:induction false} FreeUnmixed(
      node: Node, dimensions: Dimensions, rows: seq<Row>, frontier: seq<string>, path: seq<string>, inherited: real,
      grown: Grown)
    requires node.WellFormed() && node.Free() && UniqueIds(rows) && Known(rows, frontier)
    requires Expand(node, dimensions, rows, frontier, path, inherited) == Accepted(grown) && Backward(grown.rows)
    ensures Local(rows, frontier, grown)
    ensures Unmixed(grown.rows, Beside(node, dimensions, rows, frontier, path, inherited))
    decreases node.Height(), 0
  {
    hide Backward, UniqueIds, Unmixed, Local, Known, Ancestors;
    if node.Leaf? {
      var row := ExpandLeafUnfolds(node, dimensions, rows, frontier, path, inherited, grown);
      LeafIsLocal(rows, frontier, row);
      NoPairs(grown.rows);
    } else {
      hide Beside;
      var parts, first, later := BesideUnfolds(node, dimensions, rows, frontier, path, inherited, grown);
      if node.Serial() {
        SerialUnmixed(parts, dimensions, rows, frontier, first, later, grown);
      } else {
        ParallelUnmixed(parts, dimensions, rows, frontier, first, grown);
      }
    }
  }

  lemma NoPairs(rows: seq<Row>)
    ensures Unmixed(rows, {})
  {
  }

  lemma NothingLocal(rows: seq<Row>, frontier: seq<string>, grown: Grown)
    requires grown.rows == rows
    ensures Local(rows, frontier, grown)
  {
    assert Added(rows, grown) == [];
  }

  lemma {:induction false} SerialUnmixed(
      parts: seq<Part>, dimensions: Dimensions, rows: seq<Row>, frontier: seq<string>, first: real, later: real,
      grown: Grown)
    requires forall part | part in parts :: part.node.WellFormed() && part.node.Free()
    requires UniqueIds(rows) && Known(rows, frontier)
    requires ExpandSerial(parts, dimensions, rows, frontier, first, later) == Accepted(grown) && Backward(grown.rows)
    ensures Local(rows, frontier, grown)
    ensures Unmixed(grown.rows, BesideSerial(parts, dimensions, rows, frontier, first, later))
    decreases PartHeight(parts), |parts| + 2
  {
    hide Backward, UniqueIds, Unmixed, Local, Known, Ancestors, Beside, Ids, Added;
    if parts == [] {
      NothingLocal(rows, frontier, grown);
      NoPairs(grown.rows);
    } else {
      var head := Expand(parts[0].node, dimensions, rows, frontier, parts[0].path, first).value;
      HeadGrew(parts, dimensions, rows, frontier, first, head, grown);
      FreeUnmixed(parts[0].node, dimensions, rows, frontier, parts[0].path, first, head);
      SerialUnmixed(parts[1..], dimensions, head.rows, head.frontier, later, later, grown);
      SerialLocal(rows, frontier, head, grown);
      var mine := Beside(parts[0].node, dimensions, rows, frontier, parts[0].path, first);
      BesideIsAdded(parts[0].node, dimensions, rows, frontier, parts[0].path, first, head);
      UnmixedKept(rows, head, grown, mine);
      UnmixedUnion(grown.rows, mine, BesideSerial(parts[1..], dimensions, head.rows, head.frontier, later, later));
    }
  }

  lemma SerialLocal(rows: seq<Row>, frontier: seq<string>, head: Grown, grown: Grown)
    requires Grew(rows, frontier, head) && Local(rows, frontier, head) && Known(rows, frontier)
    requires head.rows <= grown.rows && UniqueIds(grown.rows) && Local(head.rows, head.frontier, grown)
    ensures Local(rows, frontier, grown)
  {
    hide Downset, Ancestors, Grew, Known, UniqueIds;
    FrontierLocal(rows, frontier, head);
    GrewPrefix(rows, frontier, head);
    AddedSplits(rows, head, grown);
    forall id | id in Ids(Added(rows, head)) ensures Ancestors(grown.rows, id) == Ancestors(head.rows, id) {
      AncestorsKept(head.rows, grown, id);
    }
  }

  lemma GrewPrefix(rows: seq<Row>, frontier: seq<string>, head: Grown)
    requires Grew(rows, frontier, head)
    ensures rows <= head.rows
  {
  }

  /** Pairs stay unrelated when later rows follow. */
  lemma UnmixedKept(rows: seq<Row>, head: Grown, grown: Grown, pairs: Pairs)
    requires rows <= head.rows <= grown.rows && UniqueIds(grown.rows) && Unmixed(head.rows, pairs)
    requires forall pair | pair in pairs :: pair.0 in Ids(Added(rows, head)) && pair.1 in Ids(Added(rows, head))
    ensures Unmixed(grown.rows, pairs)
  {
    hide Ancestors, UniqueIds;
    AddedSplits(rows, head, head);
    forall pair | pair in pairs
      ensures pair.0 !in Ancestors(grown.rows, pair.1) && pair.1 !in Ancestors(grown.rows, pair.0)
    {
      AncestorsKept(head.rows, grown, pair.0);
      AncestorsKept(head.rows, grown, pair.1);
    }
  }

  lemma UnmixedUnion(rows: seq<Row>, pairs: Pairs, more: Pairs)
    requires Unmixed(rows, pairs) && Unmixed(rows, more)
    ensures Unmixed(rows, pairs + more)
  {
  }

  lemma {:induction false} ParallelUnmixed(
      parts: seq<Part>, dimensions: Dimensions, rows: seq<Row>, frontier: seq<string>, delay: real, grown: Grown)
    requires forall part | part in parts :: part.node.WellFormed() && part.node.Free()
    requires UniqueIds(rows) && Known(rows, frontier)
    requires ExpandParallel(parts, dimensions, rows, frontier, delay) == Accepted(grown) && Backward(grown.rows)
    ensures Local(rows, frontier, grown)
    ensures Unmixed(grown.rows, BesideParallel(parts, dimensions, rows, frontier, delay))
    decreases PartHeight(parts), |parts| + 2
  {
    hide Backward, UniqueIds, Unmixed, Local, Known, Ancestors, Beside, Ids, Added, Peak, PeakOfParallel, Crossed;
    if parts == [] {
      NothingLocal(rows, frontier, grown);
      NoPairs(grown.rows);
    } else {
      hide ExpandParallel;
      var head, rest := ParallelUnfolds(parts, dimensions, rows, frontier, delay, grown, map[]);
      HeadGrew(parts, dimensions, rows, frontier, delay, head, rest);
      FreeUnmixed(parts[0].node, dimensions, rows, frontier, parts[0].path, delay, head);
      ParallelUnmixed(parts[1..], dimensions, head.rows, frontier, delay, rest);
      ParallelLocal(rows, frontier, head, rest, head.frontier + rest.frontier);
      var mine := Beside(parts[0].node, dimensions, rows, frontier, parts[0].path, delay);
      var theirs := BesideParallel(parts[1..], dimensions, head.rows, frontier, delay);
      BesideIsAdded(parts[0].node, dimensions, rows, frontier, parts[0].path, delay, head);
      UnmixedKept(rows, head, rest, mine);
      UnmixedUnion(grown.rows, mine, theirs);
      UnmixedUnion(grown.rows, mine + theirs, Crossed(Ids(Added(rows, head)), Ids(Added(head.rows, rest))));
    }
  }

  lemma ParallelLocal(rows: seq<Row>, frontier: seq<string>, head: Grown, rest: Grown, outgoing: seq<string>)
    requires rows <= head.rows <= rest.rows && UniqueIds(rest.rows) && Known(rows, frontier)
    requires UniqueIds(head.rows) && Backward(rest.rows)
    requires Local(rows, frontier, head) && Local(head.rows, frontier, rest)
    ensures Local(rows, frontier, Grown(rest.rows, outgoing))
    ensures Unmixed(rest.rows, Crossed(Ids(Added(rows, head)), Ids(Added(head.rows, rest))))
  {
    hide Ancestors, Downset, UniqueIds, Backward;
    AddedSplits(rows, head, rest);
    AddedSplits(rows, head, head);
    DownsetKept(rows, head, frontier);
    assert rest.rows == head.rows + rest.rows[|head.rows|..];
    BackwardPrefix(head.rows, rest.rows[|head.rows|..]);
    ApartFromAdded(head.rows, rest);
    ApartFromAdded(rows, head);
    assert head.rows == rows + head.rows[|rows|..];
    BackwardPrefix(rows, head.rows[|rows|..]);
    DownsetEarlier(rows, frontier);
    forall id | id in Ids(Added(rows, head))
      ensures Ancestors(rest.rows, id) == Ancestors(head.rows, id) <= Ids(head.rows)
    {
      AncestorsKept(head.rows, rest, id);
      AncestorsEarlier(head.rows, id);
    }
  }

  lemma DownsetEarlier(rows: seq<Row>, frontier: seq<string>)
    requires Backward(rows) && Known(rows, frontier)
    ensures Downset(rows, frontier) <= Ids(rows)
  {
    forall d | d in frontier ensures Ancestors(rows, d) <= Ids(rows) {
      AncestorsEarlier(rows, d);
    }
  }

  // ------------------------------------------------ the estimate counts both rows of every pair

  lemma {:induction false} BesideCounted(
      node: Node, dimensions: Dimensions, rows: seq<Row>, frontier: seq<string>, path: seq<string>, inherited: real,
      grown: Grown, weights: Weights, pair: (string, string))
    requires node.WellFormed() && UniqueIds(rows) && Known(rows, frontier)
    requires Expand(node, dimensions, rows, frontier, path, inherited) == Accepted(grown) && Backward(grown.rows)
    requires pair in Beside(node, dimensions, rows, frontier, path, inherited)
    ensures Peak(node, dimensions, weights, path) >= WeightOf(weights, pair.0) + WeightOf(weights, pair.1)
    decreases node.Height(), 0
  {
    hide Backward, UniqueIds, Known, WeightOf;
    if !node.Leaf? {
      hide Beside;
      var parts, first, later := BesideUnfolds(node, dimensions, rows, frontier, path, inherited, grown);
      if node.Serial() {
        SerialCounted(parts, dimensions, rows, frontier, first, later, grown, weights, pair);
      } else {
        ParallelCounted(parts, dimensions, rows, frontier, first, grown, weights, pair);
      }
    }
  }

  lemma {:induction false} SerialCounted(
      parts: seq<Part>, dimensions: Dimensions, rows: seq<Row>, frontier: seq<string>, first: real, later: real,
      grown: Grown, weights: Weights, pair: (string, string))
    requires (forall part | part in parts :: part.node.WellFormed()) && UniqueIds(rows) && Known(rows, frontier)
    requires ExpandSerial(parts, dimensions, rows, frontier, first, later) == Accepted(grown) && Backward(grown.rows)
    requires pair in BesideSerial(parts, dimensions, rows, frontier, first, later)
    ensures PeakOfSerial(parts, dimensions, weights) >= WeightOf(weights, pair.0) + WeightOf(weights, pair.1)
    decreases PartHeight(parts), |parts| + 2
  {
    hide Backward, UniqueIds, Known, Ancestors, Beside, WeightOf, Peak;
    var head := Expand(parts[0].node, dimensions, rows, frontier, parts[0].path, first).value;
    HeadGrew(parts, dimensions, rows, frontier, first, head, grown);
    if pair in Beside(parts[0].node, dimensions, rows, frontier, parts[0].path, first) {
      BesideCounted(parts[0].node, dimensions, rows, frontier, parts[0].path, first, head, weights, pair);
    } else {
      SerialCounted(parts[1..], dimensions, head.rows, head.frontier, later, later, grown, weights, pair);
    }
  }

  lemma {:induction false} ParallelCounted(
      parts: seq<Part>, dimensions: Dimensions, rows: seq<Row>, frontier: seq<string>, delay: real, grown: Grown,
      weights: Weights, pair: (string, string))
    requires (forall part | part in parts :: part.node.WellFormed()) && UniqueIds(rows) && Known(rows, frontier)
    requires ExpandParallel(parts, dimensions, rows, frontier, delay) == Accepted(grown) && Backward(grown.rows)
    requires pair in BesideParallel(parts, dimensions, rows, frontier, delay)
    ensures PeakOfParallel(parts, dimensions, weights) >= WeightOf(weights, pair.0) + WeightOf(weights, pair.1)
    decreases PartHeight(parts), |parts| + 2
  {
    hide Backward, UniqueIds, Known, Ancestors, Beside, WeightOf, Peak, PeakOfParallel, Ids, Added;
    if parts != [] {
      hide ExpandParallel, BesideParallel;
      var head, rest := ParallelUnfolds(parts, dimensions, rows, frontier, delay, grown, weights);
      HeadGrew(parts, dimensions, rows, frontier, delay, head, rest);
      var theirs := BesideParallel(parts[1..], dimensions, head.rows, frontier, delay);
      if pair in Beside(parts[0].node, dimensions, rows, frontier, parts[0].path, delay) {
        BesideCounted(parts[0].node, dimensions, rows, frontier, parts[0].path, delay, head, weights, pair);
      } else if pair in theirs {
        ParallelCounted(parts[1..], dimensions, head.rows, frontier, delay, rest, weights, pair);
      } else {
        SingleAntichain(head.rows, pair.0);
        PeakBounds(parts[0].node, dimensions, rows, frontier, parts[0].path, delay, head, {pair.0}, weights);
        SingleLoad(Added(rows, head), pair.0, weights);
        SingleAntichain(rest.rows, pair.1);
        ParallelPeakBounds(parts[1..], dimensions, head.rows, frontier, delay, rest, {pair.1}, weights);
        SingleLoad(Added(head.rows, rest), pair.1, weights);
      }
    }
  }

  lemma SingleAntichain(rows: seq<Row>, id: string)
    requires UniqueIds(rows) && Backward(rows)
    ensures Antichain(rows, {id})
  {
    NotOwnAncestor(rows, id);
  }

  lemma {:induction false} SingleLoad(rows: seq<Row>, id: string, weights: Weights)
    requires id in Ids(rows)
    ensures Load(rows, {id}, weights) >= WeightOf(weights, id)
  {
    if rows[0].id != id {
      assert id in Ids(rows[1..]) by {
        var row :| row in rows && row.id == id;
        assert row in rows[1..];
      }
      SingleLoad(rows[1..], id, weights);
    }
  }

  /** A choice in which only one row weighs anything weighs no more than it. */
  lemma {:induction false} LoadOfOne(rows: seq<Row>, chosen: set<string>, weights: Weights, heavy: string)
    requires UniqueIds(rows)
    requires forall id | id in chosen && id != heavy :: WeightOf(weights, id) == 0
    ensures Load(rows, chosen, weights) <= WeightOf(weights, heavy)
    ensures heavy !in Ids(rows) ==> Load(rows, chosen, weights) == 0
  {
    if rows != [] {
      assert rows[0] in rows && forall row | row in rows[1..] :: row in rows;
      LoadOfOne(rows[1..], chosen, weights, heavy);
      if rows[0].id == heavy {
        forall row | row in rows[1..] ensures row.id != heavy {
          var j :| 0 <= j < |rows| - 1 && rows[1..][j] == row;
          assert rows[j + 1].id != rows[0].id;
        }
      }
    }
  }
}
