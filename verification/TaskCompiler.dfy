/** Compilation of a whole graph: the mutable builder, the row checks, and what the estimate promises. */
module TaskCompiler {
  import opened Outcomes
  import opened TaskNodes
  import opened Expansion
  import opened Dependencies
  import opened Frontiers
  import opened PeakOverlap
  import opened ExactEstimate

  /** Reused messages come from one atomic row that the reusing row waits for. */
  ghost predicate UsableHistory(rows: seq<Row>) {
    forall i | 0 <= i < |rows| :: UsableSources(rows, i)
  }

  ghost predicate UsableSources(rows: seq<Row>, i: nat)
    requires i < |rows|
  {
    forall source | source in rows[i].sources ::
      source in Ancestors(rows, rows[i].id) && exists j :: 0 <= j < i && rows[j].id == source && rows[j].kind == Atomic
  }

  /** The rows of an accepted graph. */
  ghost function Compile(roots: seq<Node>, dimensions: Dimensions): (compiled: Outcome<seq<Row>>)
    ensures compiled.Accepted? ==> UniqueIds(compiled.value) && Backward(compiled.value)
  {
    var grown :- ExpandSerial(AtPath(roots, []), dimensions, [], [], 0.0, 0.0);
    if Backward(grown.rows) && UsableHistory(grown.rows) then Accepted(grown.rows) else Rejected
  }

  function Prefixed(outgoing: seq<string>, rest: Outcome<Grown>): Outcome<Grown> {
    match rest
    case Accepted(grown) => Accepted(Grown(grown.rows, outgoing + grown.frontier))
    case Rejected => Rejected
  }

  function Finished(rows: seq<Row>, outgoing: Outcome<seq<string>>): Outcome<Grown> {
    match outgoing
    case Accepted(frontier) => Accepted(Grown(rows, frontier))
    case Rejected => Rejected
  }

  class GraphBuilder {
    const dimensions: Dimensions
    var nodes: seq<Row>
    var nodeIds: set<string>

    ghost predicate Valid()
      reads this
    {
      nodeIds == Ids(nodes) && UniqueIds(nodes)
    }

    constructor (dimensions: Dimensions)
      ensures Valid() && nodes == [] && this.dimensions == dimensions
    {
      this.dimensions := dimensions;
      nodes, nodeIds := [], {};
    }

    method Emit(row: Row) returns (emitted: bool)
      requires Valid()
      modifies this
      ensures Valid()
      ensures emitted <==> Emittable(old(nodes), row)
      ensures nodes == old(nodes) + if emitted then [row] else []
    {
      if |row.id| == 0 || |row.id| > MAX_ID_LENGTH || row.id in nodeIds || row.after < 0.0
         || |nodes| >= MAX_NODES_PER_INSTANCE {
        return false;
      }
      IdsAppend(nodes, [row]);
      nodes := nodes + [row];
      nodeIds := nodeIds + {row.id};
      return true;
    }

    /** Appends the rows of one node and returns its outgoing frontier. */
    method Expand(node: Node, frontier: seq<string>, path: seq<string>, inherited: real)
      returns (outgoing: Outcome<seq<string>>)
      requires Valid()
      modifies this
      ensures Valid()
      ensures outgoing.Accepted? ==>
                Expansion.Expand(node, dimensions, old(nodes), frontier, path, inherited) == Finished(nodes, outgoing)
      ensures outgoing.Rejected? ==>
                Expansion.Expand(node, dimensions, old(nodes), frontier, path, inherited).Rejected?
      decreases node.Height(), 1
    {
      hide Parts, OwnDelay, LeafRow, ExpandSerial, ExpandParallel, PartHeight, LaterDelay;
      var own := OwnDelay(node, dimensions);
      if own.Rejected? {
        return Rejected;
      }
      if node.Leaf? {
        var row := LeafRow(node, path, frontier, inherited + own.value);
        var emitted := Emit(row);
        return if emitted then Accepted([row.id]) else Rejected;
      }
      var parts := Parts(node, dimensions, path);
      if parts.Rejected? {
        return Rejected;
      }
      PartHeightBelow(parts.value, node.Height());
      if node.Serial() {
        outgoing := ExpandInTurn(parts.value, frontier, inherited + own.value, LaterDelay(node, own.value));
      } else {
        outgoing := ExpandSideBySide(parts.value, frontier, inherited + own.value);
      }
    }

    method ExpandInTurn(parts: seq<Part>, frontier: seq<string>, first: real, later: real)
      returns (outgoing: Outcome<seq<string>>)
      requires Valid()
      modifies this
      ensures Valid()
      ensures outgoing.Accepted? ==>
                ExpandSerial(parts, dimensions, old(nodes), frontier, first, later) == Finished(nodes, outgoing)
      ensures outgoing.Rejected? ==>
                ExpandSerial(parts, dimensions, old(nodes), frontier, first, later).Rejected?
      decreases PartHeight(parts), 2
    {
      hide Expansion.Expand;
      var current := frontier;
      for i := 0 to |parts|
        invariant Valid()
        invariant ExpandSerial(parts, dimensions, old(nodes), frontier, first, later)
               == ExpandSerial(parts[i..], dimensions, nodes, current, if i == 0 then first else later, later)
      {
        assert parts[i..][0] == parts[i] && parts[i..][1..] == parts[i + 1..];
        var next := Expand(parts[i].node, current, parts[i].path, if i == 0 then first else later);
        if next.Rejected? {
          return Rejected;
        }
        current := next.value;
      }
      return Accepted(current);
    }

    method ExpandSideBySide(parts: seq<Part>, frontier: seq<string>, delay: real)
      returns (outgoing: Outcome<seq<string>>)
      requires Valid()
      modifies this
      ensures Valid()
      ensures outgoing.Accepted? ==>
                ExpandParallel(parts, dimensions, old(nodes), frontier, delay) == Finished(nodes, outgoing)
      ensures outgoing.Rejected? ==> ExpandParallel(parts, dimensions, old(nodes), frontier, delay).Rejected?
      decreases PartHeight(parts), 2
    {
      hide Expansion.Expand;
      var joined: seq<string> := [];
      ghost var whole := ExpandParallel(parts, dimensions, nodes, frontier, delay);
      assert whole.Accepted? ==> [] + whole.value.frontier == whole.value.frontier;
      assert parts[0..] == parts;
      for i := 0 to |parts|
        invariant Valid()
        invariant whole == Prefixed(joined, ExpandParallel(parts[i..], dimensions, nodes, frontier, delay))
      {
        assert parts[i..][0] == parts[i] && parts[i..][1..] == parts[i + 1..];
        var next := Expand(parts[i].node, frontier, parts[i].path, delay);
        if next.Rejected? {
          return Rejected;
        }
        ghost var rest := ExpandParallel(parts[i + 1..], dimensions, nodes, frontier, delay);
        assert rest.Accepted? ==>
                 joined + (next.value + rest.value.frontier) == (joined + next.value) + rest.value.frontier;
        joined := joined + next.value;
      }
      assert joined + [] == joined;
      return Accepted(joined);
    }
  }

  // ------------------------------------------------ the row checks

  /** The rows before `i`, by identifier. */
  ghost predicate Mirrors(rows: seq<Row>, i: nat, prior: map<string, Row>)
    requires i <= |rows|
  {
    && prior.Keys == Ids(rows[..i])
    && forall j | 0 <= j < i :: rows[j].id in prior && prior[rows[j].id] == rows[j]
  }

  lemma ChecksStart(rows: seq<Row>)
    ensures Mirrors(rows, 0, map[]) && Backward(rows[..0])
  {
  }

  lemma LaterDependency(rows: seq<Row>, i: nat)
    requires i < |rows| && exists d | d in rows[i].dependencies :: d !in Ids(rows[..i])
    ensures !Backward(rows)
  {
  }

  lemma MirrorsNext(rows: seq<Row>, i: nat, prior: map<string, Row>)
    requires i < |rows| && UniqueIds(rows) && Mirrors(rows, i, prior)
    ensures Mirrors(rows, i + 1, prior[rows[i].id := rows[i]])
  {
    IdsNext(rows, i);
    forall j | 0 <= j < i ensures rows[j].id != rows[i].id {
    }
  }

  lemma BackwardNext(rows: seq<Row>, i: nat)
    requires i < |rows| && Backward(rows[..i]) && forall d | d in rows[i].dependencies :: d in Ids(rows[..i])
    ensures Backward(rows[..i + 1])
  {
    var upTo := rows[..i + 1];
    forall j | 0 <= j < |upTo| ensures forall d | d in upTo[j].dependencies :: d in Ids(upTo[..j]) {
      assert upTo[..j] == rows[..j] && upTo[j] == rows[j];
      if j < i {
        assert rows[..i][..j] == rows[..j] && rows[..i][j] == rows[j];
      }
    }
  }

  lemma RowAncestors(rows: seq<Row>, i: nat)
    requires i < |rows| && UniqueIds(rows) && Backward(rows[..i + 1])
    ensures Ancestors(rows, rows[i].id) == Downset(rows[..i], rows[i].dependencies)
    ensures Ancestors(rows[..i + 1], rows[i].id) == Downset(rows[..i], rows[i].dependencies)
    ensures Downset(rows[..i], rows[i].dependencies) <= Ids(rows[..i])
    ensures forall id | id in Ids(rows[..i]) :: Ancestors(rows[..i + 1], id) == Ancestors(rows[..i], id)
  {
    hide Ancestors, Backward, UniqueIds;
    var before, row := rows[..i], rows[i];
    assert rows[..i + 1] == before + [row];
    assert rows == before + [row] + rows[i + 1..];
    AncestorsInPlace(before, row, rows[i + 1..]);
    BackwardPrefix(before, [row]);
    forall d | d in row.dependencies ensures d in Ids(before) && Ancestors(before, d) <= Ids(before) {
      LastDependency(before, row, d);
      AncestorsEarlier(before, d);
    }
  }

  lemma Accumulated(rows: seq<Row>, dependencies: seq<string>, ancestors: map<string, set<string>>)
    requires forall d | d in dependencies :: d in ancestors
    requires forall id | id in ancestors :: ancestors[id] == Ancestors(rows, id)
    ensures Downset(rows, dependencies)
         == (set d | d in dependencies) + (set d, a | d in dependencies && a in ancestors[d] :: a)
  {
  }

  lemma SourcesChecked(rows: seq<Row>, i: nat, prior: map<string, Row>)
    requires i < |rows| && UniqueIds(rows) && Mirrors(rows, i, prior)
    ensures UsableSources(rows, i) <==>
            forall s | s in rows[i].sources ::
              s in Ancestors(rows, rows[i].id) && s in prior && prior[s].kind == Atomic
  {
    forall s | s in prior ensures exists j :: 0 <= j < i && rows[j].id == s && rows[j] == prior[s] {
      var j :| 0 <= j < i && rows[..i][j].id == s;
      assert rows[j].id == s;
    }
  }

  /** The checks made row by row once everything is expanded; ancestors are kept only when some row reuses messages. */
  method CheckRows(rows: seq<Row>) returns (accepted: bool)
    requires UniqueIds(rows)
    ensures accepted <==> Backward(rows) && UsableHistory(rows)
  {
    hide Ancestors, UsableSources, Ids, Backward, Downset;
    ChecksStart(rows);
    var requiresHistory := exists i | 0 <= i < |rows| :: rows[i].sources != [];
    var ancestors: map<string, set<string>> := map[];
    var prior: map<string, Row> := map[];
    for i := 0 to |rows|
      invariant Mirrors(rows, i, prior)
      invariant requiresHistory ==> ancestors.Keys == prior.Keys
      invariant requiresHistory ==> forall id | id in ancestors :: ancestors[id] == Ancestors(rows[..i], id)
      invariant Backward(rows[..i])
      invariant forall j | 0 <= j < i :: UsableSources(rows, j)
    {
      var row := rows[i];
      if exists d | d in row.dependencies :: d !in prior {
        LaterDependency(rows, i);
        return false;
      }
      BackwardNext(rows, i);
      RowAncestors(rows, i);
      SourcesChecked(rows, i, prior);
      var predecessors: set<string> := {};
      if requiresHistory {
        predecessors := (set d | d in row.dependencies) + (set d, a | d in row.dependencies && a in ancestors[d] :: a);
        Accumulated(rows[..i], row.dependencies, ancestors);
        assert predecessors == Ancestors(rows, row.id);
        ancestors := ancestors[row.id := predecessors];
      }
      if exists s | s in row.sources :: s !in predecessors || prior[s].kind != Atomic {
        return false;
      }
      MirrorsNext(rows, i, prior);
      prior := prior[row.id := row];
    }
    assert rows[..|rows|] == rows;
    return true;
  }

  /** Compiles a graph: every root continues from the frontier of the root before it. */
  method CompileGraph(roots: seq<Node>, dimensions: Dimensions) returns (compiled: Outcome<seq<Row>>)
    ensures compiled == Compile(roots, dimensions)
  {
    var builder := new GraphBuilder(dimensions);
    var outgoing := builder.ExpandInTurn(AtPath(roots, []), [], 0.0, 0.0);
    if outgoing.Rejected? {
      return Rejected;
    }
    var accepted := CheckRows(builder.nodes);
    return if accepted then Accepted(builder.nodes) else Rejected;
  }

  /** What the row checks are for: each dependency is an earlier row, each reused source an atomic one depended on. */
  ghost predicate Sequenced(rows: seq<Row>) {
    && (forall i | 0 <= i < |rows| ::
          forall d | d in rows[i].dependencies :: exists j :: 0 <= j < i && rows[j].id == d)
    && (forall i | 0 <= i < |rows| :: HistoryUsable(rows, i))
  }

  ghost predicate HistoryUsable(rows: seq<Row>, i: nat)
    requires i < |rows|
  {
    forall s | s in rows[i].sources ::
      DependsOn(rows, rows[i].id, s) && exists j :: 0 <= j < i && rows[j].id == s && rows[j].kind == Atomic
  }

  lemma BackwardMeans(rows: seq<Row>)
    ensures Backward(rows) <==>
            forall i | 0 <= i < |rows| ::
              forall d | d in rows[i].dependencies :: exists j :: 0 <= j < i && rows[j].id == d
  {
    forall i, d | 0 <= i < |rows|
      ensures d in Ids(rows[..i]) <==> exists j :: 0 <= j < i && rows[j].id == d
    {
      if j :| 0 <= j < i && rows[j].id == d {
        assert rows[..i][j] in rows[..i];
      }
      if d in Ids(rows[..i]) {
        var j :| 0 <= j < i && rows[..i][j].id == d;
        assert rows[j].id == d;
      }
    }
  }

  /** A graph compiles to the rows it expands to exactly when these are sequenced. */
  lemma CompilesExactly(roots: seq<Node>, dimensions: Dimensions)
    ensures var grown := ExpandSerial(AtPath(roots, []), dimensions, [], [], 0.0, 0.0);
      && (grown.Rejected? ==> Compile(roots, dimensions).Rejected?)
      && (grown.Accepted? ==>
            Compile(roots, dimensions) == if Sequenced(grown.value.rows) then Accepted(grown.value.rows) else Rejected)
  {
    hide ExpandSerial, AtPath;
    var grown := ExpandSerial(AtPath(roots, []), dimensions, [], [], 0.0, 0.0);
    if grown.Accepted? {
      SequencedExactly(grown.value.rows);
    }
  }

  lemma SequencedExactly(rows: seq<Row>)
    requires UniqueIds(rows)
    ensures Sequenced(rows) <==> Backward(rows) && UsableHistory(rows)
  {
    hide Ancestors, DependsOn, UniqueIds, Backward;
    BackwardMeans(rows);
    if Backward(rows) {
      forall i | 0 <= i < |rows| ensures HistoryUsable(rows, i) <==> UsableSources(rows, i) {
        forall s ensures DependsOn(rows, rows[i].id, s) <==> s in Ancestors(rows, rows[i].id) {
          AncestorsAreDependencies(rows, s, rows[i].id);
        }
      }
    }
  }

  // ------------------------------------------------ the overlap estimate

  /**
    Whatever set of pairwise unrelated rows is in progress, its weight stays within the estimate,
    with zero-count repeats, bound loops and extra dependencies included.
   */
  lemma PeakIsSound(roots: seq<Node>, dimensions: Dimensions, weights: Weights, rows: seq<Row>, chosen: set<string>)
    requires forall root | root in roots :: root.WellFormed()
    requires Compile(roots, dimensions) == Accepted(rows)
    requires Unrelated(rows, chosen)
    ensures Load(rows, chosen, weights) <= GraphPeak(roots, dimensions, weights)
  {
    var parts := AtPath(roots, []);
    var grown := ExpandSerial(parts, dimensions, [], [], 0.0, 0.0).value;
    UnrelatedIsAntichain(rows, chosen);
    SerialPeakBounds(parts, dimensions, [], [], 0.0, 0.0, grown, chosen, weights);
    assert Added([], grown) == rows;
  }

  /** The rows that different parts of one parallel composite add, over all composites of the graph. */
  function GraphBeside(roots: seq<Node>, dimensions: Dimensions): Pairs
    requires ExpandSerial(AtPath(roots, []), dimensions, [], [], 0.0, 0.0).Accepted?
  {
    BesideSerial(AtPath(roots, []), dimensions, [], [], 0.0, 0.0)
  }

  /** No row of a part of a parallel composite waits, directly or through others, for a row of another part. */
  ghost predicate Independent(roots: seq<Node>, dimensions: Dimensions, rows: seq<Row>)
    requires Compile(roots, dimensions) == Accepted(rows)
  {
    forall pair | pair in GraphBeside(roots, dimensions) ::
      !DependsOn(rows, pair.0, pair.1) && !DependsOn(rows, pair.1, pair.0)
  }

  /** Some set of pairwise unrelated rows has exactly the estimated weight. */
  ghost predicate Reached(roots: seq<Node>, dimensions: Dimensions, weights: Weights, rows: seq<Row>) {
    exists chosen ::
      chosen <= Ids(rows) && Unrelated(rows, chosen)
      && Load(rows, chosen, weights) == GraphPeak(roots, dimensions, weights)
  }

  lemma IndependentIsUnmixed(roots: seq<Node>, dimensions: Dimensions, rows: seq<Row>)
    requires Compile(roots, dimensions) == Accepted(rows)
    ensures Independent(roots, dimensions, rows) <==> Unmixed(rows, GraphBeside(roots, dimensions))
  {
    hide DependsOn, Ancestors;
    forall a, b ensures a in Ancestors(rows, b) <==> DependsOn(rows, b, a) {
      AncestorsAreDependencies(rows, a, b);
    }
  }

  /** When parallel parts are independent of each other, some set of unrelated rows has exactly the estimated weight. */
  lemma PeakIsReached(roots: seq<Node>, dimensions: Dimensions, weights: Weights, rows: seq<Row>)
    returns (chosen: set<string>)
    requires forall root | root in roots :: root.WellFormed()
    requires Compile(roots, dimensions) == Accepted(rows) && Independent(roots, dimensions, rows)
    ensures chosen <= Ids(rows) && Unrelated(rows, chosen)
    ensures Load(rows, chosen, weights) == GraphPeak(roots, dimensions, weights)
  {
    var parts := AtPath(roots, []);
    var grown := ExpandSerial(parts, dimensions, [], [], 0.0, 0.0).value;
    IndependentIsUnmixed(roots, dimensions, rows);
    chosen := SerialPeakReached(parts, dimensions, [], [], 0.0, 0.0, grown, weights);
    assert Added([], grown) == rows;
    UnrelatedIsAntichain(rows, chosen);
  }

  /**
    Exactly when the estimate is exact: every weighting is reached by some set of unrelated rows if and
    only if no dependency relates different parts of a parallel composite.
   */
  lemma EstimateExactIffIndependent(roots: seq<Node>, dimensions: Dimensions, rows: seq<Row>)
    requires forall root | root in roots :: root.WellFormed()
    requires Compile(roots, dimensions) == Accepted(rows)
    ensures (forall weights :: Reached(roots, dimensions, weights, rows)) <==> Independent(roots, dimensions, rows)
  {
    hide GraphPeak, Unrelated, DependsOn, GraphBeside, Backward, UsableHistory;
    if Independent(roots, dimensions, rows) {
      forall weights ensures Reached(roots, dimensions, weights, rows) {
        var chosen := PeakIsReached(roots, dimensions, weights, rows);
      }
    } else {
      var pair :| && pair in GraphBeside(roots, dimensions)
                  && (DependsOn(rows, pair.0, pair.1) || DependsOn(rows, pair.1, pair.0));
      var weights: Weights := map[pair.0 := 1, pair.1 := 1];
      RelatedPairMissed(roots, dimensions, weights, rows, pair);
      assert !Reached(roots, dimensions, weights, rows);
    }
  }

  /** Two related rows of different parallel parts are counted together although they never overlap. */
  lemma RelatedPairMissed(roots: seq<Node>, dimensions: Dimensions, weights: Weights, rows: seq<Row>,
                          pair: (string, string))
    requires forall root | root in roots :: root.WellFormed()
    requires Compile(roots, dimensions) == Accepted(rows) && pair in GraphBeside(roots, dimensions)
    requires DependsOn(rows, pair.0, pair.1) || DependsOn(rows, pair.1, pair.0)
    requires weights == map[pair.0 := 1, pair.1 := 1]
    ensures forall chosen | Unrelated(rows, chosen) ::
              Load(rows, chosen, weights) < GraphPeak(roots, dimensions, weights)
  {
    hide DependsOn, Ancestors;
    var parts := AtPath(roots, []);
    var grown := ExpandSerial(parts, dimensions, [], [], 0.0, 0.0).value;
    SerialCounted(parts, dimensions, [], [], 0.0, 0.0, grown, weights, pair);
    assert pair.0 != pair.1 by {
      AncestorsAreDependencies(rows, pair.0, pair.1);
      AncestorsAreDependencies(rows, pair.1, pair.0);
      NotOwnAncestor(rows, pair.0);
    }
    forall chosen | Unrelated(rows, chosen) ensures Load(rows, chosen, weights) <= 1 {
      LoadOfOne(rows, chosen, weights, if pair.0 in chosen then pair.0 else pair.1);
    }
  }

  /** Leaves without dependencies of their own leave parallel parts independent. */
  lemma FreeIsIndependent(roots: seq<Node>, dimensions: Dimensions, rows: seq<Row>)
    requires forall root | root in roots :: root.WellFormed() && root.Free()
    requires Compile(roots, dimensions) == Accepted(rows)
    ensures Independent(roots, dimensions, rows)
  {
    var grown := ExpandSerial(AtPath(roots, []), dimensions, [], [], 0.0, 0.0).value;
    SerialUnmixed(AtPath(roots, []), dimensions, [], [], 0.0, 0.0, grown);
    IndependentIsUnmixed(roots, dimensions, rows);
  }

  /** So the estimate of an independent graph is the weight of its heaviest antichain, and no other number. */
  lemma PeakIsMaximum(roots: seq<Node>, dimensions: Dimensions, weights: Weights, rows: seq<Row>, bound: nat)
    requires forall root | root in roots :: root.WellFormed()
    requires Compile(roots, dimensions) == Accepted(rows) && Independent(roots, dimensions, rows)
    ensures GraphPeak(roots, dimensions, weights) <= bound <==>
            forall chosen | chosen <= Ids(rows) && Unrelated(rows, chosen) :: Load(rows, chosen, weights) <= bound
  {
    hide Compile, GraphPeak, Unrelated, Independent;
    var heaviest := PeakIsReached(roots, dimensions, weights, rows);
    forall chosen | chosen <= Ids(rows) && Unrelated(rows, chosen)
      ensures Load(rows, chosen, weights) <= GraphPeak(roots, dimensions, weights)
    {
      PeakIsSound(roots, dimensions, weights, rows, chosen);
    }
  }

  lemma CompiledNonNegative(roots: seq<Node>, dimensions: Dimensions, rows: seq<Row>)
    requires (forall root | root in roots :: root.WellFormed()) && Compile(roots, dimensions) == Accepted(rows)
    ensures NonNegative(rows)
  {
    var grown := ExpandSerial(AtPath(roots, []), dimensions, [], [], 0.0, 0.0).value;
    SerialNonNegative(AtPath(roots, []), dimensions, [], [], 0.0, 0.0, grown);
  }
}
