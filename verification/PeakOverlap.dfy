/** The structural overlap estimate and its relation to antichains of the expanded graph. */
module PeakOverlap {
  import opened Outcomes
  import opened TaskNodes
  import opened Expansion
  import opened Dependencies
  import opened Frontiers

  type Weights = map<string, nat>

  function WeightOf(weights: Weights, id: string): nat {
    if id in weights then weights[id] else 0
  }

  /** Peaks of serial parts do not add up, peaks of parallel parts do. Read only for accepted graphs. */
  function Peak(node: Node, dimensions: Dimensions, weights: Weights, path: seq<string>): nat
    decreases node.Height(), 0
  {
    if node.Leaf? then WeightOf(weights, QualifiedName(path, node.name))
    else
      var parts := Parts(node, dimensions, path);
      if parts.Rejected? then 0
      else
        PartHeightBelow(parts.value, node.Height());
        if node.Serial() then PeakOfSerial(parts.value, dimensions, weights)
        else PeakOfParallel(parts.value, dimensions, weights)
  }

  function PeakOfSerial(parts: seq<Part>, dimensions: Dimensions, weights: Weights): nat
    decreases PartHeight(parts), |parts|
  {
    if parts == [] then 0
    else
      var head := Peak(parts[0].node, dimensions, weights, parts[0].path);
      var rest := PeakOfSerial(parts[1..], dimensions, weights);
      if head > rest then head else rest
  }

  function PeakOfParallel(parts: seq<Part>, dimensions: Dimensions, weights: Weights): nat
    decreases PartHeight(parts), |parts|
  {
    if parts == [] then 0
    else Peak(parts[0].node, dimensions, weights, parts[0].path) + PeakOfParallel(parts[1..], dimensions, weights)
  }

  /** The estimate for a whole graph: the maximum over its roots. */
  function GraphPeak(roots: seq<Node>, dimensions: Dimensions, weights: Weights): nat {
    PeakOfSerial(AtPath(roots, []), dimensions, weights)
  }

  /** Total weight of the chosen rows. */
  function Load(rows: seq<Row>, chosen: set<string>, weights: Weights): nat {
    if rows == [] then 0
    else (if rows[0].id in chosen then WeightOf(weights, rows[0].id) else 0) + Load(rows[1..], chosen, weights)
  }

  lemma {:induction false} LoadSplits(rows: seq<Row>, more: seq<Row>, chosen: set<string>, weights: Weights)
    ensures Load(rows + more, chosen, weights) == Load(rows, chosen, weights) + Load(more, chosen, weights)
  {
    if rows == [] {
      assert rows + more == more;
    } else {
      assert (rows + more)[1..] == rows[1..] + more;
      LoadSplits(rows[1..], more, chosen, weights);
    }
  }

  lemma {:induction false} LoadAgrees(rows: seq<Row>, chosen: set<string>, others: set<string>, weights: Weights)
    requires forall id | id in Ids(rows) :: id in chosen <==> id in others
    ensures Load(rows, chosen, weights) == Load(rows, others, weights)
  {
    if rows != [] {
      assert rows[0] in rows && forall row | row in rows[1..] :: row in rows;
      LoadAgrees(rows[1..], chosen, others, weights);
    }
  }

  lemma {:induction false} LoadNothing(rows: seq<Row>, chosen: set<string>, weights: Weights)
    requires Ids(rows) !! chosen
    ensures Load(rows, chosen, weights) == 0
  {
    if rows != [] {
      assert rows[0] in rows && forall row | row in rows[1..] :: row in rows;
      LoadNothing(rows[1..], chosen, weights);
    }
  }

  /** Rows added later cannot make a set unrelated that was related before. */
  lemma AntichainBefore(rows: seq<Row>, grown: Grown, chosen: set<string>)
    requires rows <= grown.rows && UniqueIds(grown.rows) && Backward(rows) && Antichain(grown.rows, chosen)
    ensures Antichain(rows, chosen)
  {
    forall a, b | a in chosen && b in chosen ensures a !in Ancestors(rows, b) {
      if b in Ids(rows) {
        AncestorsKept(rows, grown, b);
      } else {
        AncestorsEarlier(rows, b);
      }
    }
  }

  // ------------------------------------------------ the estimate is an upper bound

  lemma {:induction false} PeakBounds(
      node: Node, dimensions: Dimensions, rows: seq<Row>, frontier: seq<string>, path: seq<string>, inherited: real,
      grown: Grown, chosen: set<string>, weights: Weights)
    requires node.WellFormed() && UniqueIds(rows) && Known(rows, frontier)
    requires Expand(node, dimensions, rows, frontier, path, inherited) == Accepted(grown) && Backward(grown.rows)
    requires Antichain(grown.rows, chosen)
    ensures Load(Added(rows, grown), chosen, weights) <= Peak(node, dimensions, weights, path)
    decreases node.Height(), 0
  {
    if node.Leaf? {
      var row := ExpandLeafUnfolds(node, dimensions, rows, frontier, path, inherited, grown);
      assert Added(rows, grown) == [row];
    } else {
      var parts, first, later := ExpandUnfolds(node, dimensions, rows, frontier, path, inherited, grown);
      if node.Serial() {
        SerialPeakBounds(parts, dimensions, rows, frontier, first, later, grown, chosen, weights);
      } else {
        ParallelPeakBounds(parts, dimensions, rows, frontier, first, grown, chosen, weights);
      }
    }
  }

  lemma {:induction false} SerialPeakBounds(
      parts: seq<Part>, dimensions: Dimensions, rows: seq<Row>, frontier: seq<string>, first: real, later: real,
      grown: Grown, chosen: set<string>, weights: Weights)
    requires (forall part | part in parts :: part.node.WellFormed()) && UniqueIds(rows) && Known(rows, frontier)
    requires ExpandSerial(parts, dimensions, rows, frontier, first, later) == Accepted(grown) && Backward(grown.rows)
    requires Antichain(grown.rows, chosen)
    ensures Load(Added(rows, grown), chosen, weights) <= PeakOfSerial(parts, dimensions, weights)
    decreases PartHeight(parts), |parts| + 2
  {
    if parts == [] {
      assert Added(rows, grown) == [];
    } else {
      var head := Expand(parts[0].node, dimensions, rows, frontier, parts[0].path, first).value;
      HeadGrew(parts, dimensions, rows, frontier, first, head, grown);
      SerialPartsGrew(parts[1..], dimensions, head.rows, head.frontier, later, later, grown);
      OneSideChosen(rows, frontier, head, grown, chosen, weights);
      PeakBounds(parts[0].node, dimensions, rows, frontier, parts[0].path, first, head, chosen, weights);
      SerialPeakBounds(parts[1..], dimensions, head.rows, head.frontier, later, later, grown, chosen, weights);
    }
  }

  /** Everything in the later parts waits for everything in the first: only one side can be chosen. */
  lemma OneSideChosen(rows: seq<Row>, frontier: seq<string>, head: Grown, grown: Grown, chosen: set<string>,
                      weights: Weights)
    requires Known(rows, frontier) && Backward(head.rows) && Backward(grown.rows)
    requires Grew(rows, frontier, head) && Grew(head.rows, head.frontier, grown)
    requires Antichain(grown.rows, chosen)
    ensures rows <= grown.rows && Antichain(head.rows, chosen)
    ensures var early, late := Added(rows, head), Added(head.rows, grown);
      || Load(Added(rows, grown), chosen, weights) == Load(early, chosen, weights)
      || Load(Added(rows, grown), chosen, weights) == Load(late, chosen, weights)
  {
    var early, late := Added(rows, head), Added(head.rows, grown);
    Exclusive(rows, frontier, head, grown, chosen);
    AddedSplits(rows, head, grown);
    LoadSplits(early, late, chosen, weights);
    AntichainBefore(head.rows, grown, chosen);
    if Ids(early) !! chosen {
      LoadNothing(early, chosen, weights);
    } else {
      LoadNothing(late, chosen, weights);
    }
  }

  lemma {:induction false} ParallelPeakBounds(
      parts: seq<Part>, dimensions: Dimensions, rows: seq<Row>, frontier: seq<string>, delay: real,
      grown: Grown, chosen: set<string>, weights: Weights)
    requires (forall part | part in parts :: part.node.WellFormed()) && UniqueIds(rows) && Known(rows, frontier)
    requires ExpandParallel(parts, dimensions, rows, frontier, delay) == Accepted(grown) && Backward(grown.rows)
    requires Antichain(grown.rows, chosen)
    ensures Load(Added(rows, grown), chosen, weights) <= PeakOfParallel(parts, dimensions, weights)
    decreases PartHeight(parts), |parts| + 2
  {
    if parts == [] {
      assert Added(rows, grown) == [];
    } else {
      var head := Expand(parts[0].node, dimensions, rows, frontier, parts[0].path, delay).value;
      var rest := ExpandParallel(parts[1..], dimensions, head.rows, frontier, delay).value;
      HeadGrew(parts, dimensions, rows, frontier, delay, head, rest);
      AddedSplits(rows, head, rest);
      LoadSplits(Added(rows, head), Added(head.rows, rest), chosen, weights);
      AntichainBefore(head.rows, rest, chosen);
      PeakBounds(parts[0].node, dimensions, rows, frontier, parts[0].path, delay, head, chosen, weights);
      ParallelPeakBounds(parts[1..], dimensions, head.rows, frontier, delay, rest, chosen, weights);
    }
  }
}
