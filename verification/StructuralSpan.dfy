/** The planned span follows the structure of a graph without own dependencies, zero-count repeats included. */
module StructuralSpan {
  import opened Outcomes
  import opened TaskNodes
  import opened Expansion
  import opened Dependencies
  import opened Frontiers
  import opened PlannedSpan
  import opened Triggers
  import opened TaskCompiler

  /**
    How much later everything after the node is than everything before it. Serial parts add up, the
    slowest parallel part counts, and a part that expands to nothing loses the delay passed to it.
   */
  function Lasting(node: Node, dimensions: Dimensions, path: seq<string>, inherited: real): real
    decreases node.Height(), 0
  {
    var own := OwnDelay(node, dimensions);
    if own.Rejected? then 0.0
    else if node.Leaf? then inherited + own.value
    else
      var parts := Parts(node, dimensions, path);
      if parts.Rejected? then 0.0
      else
        PartHeightBelow(parts.value, node.Height());
        if node.Serial() then LastingSerial(parts.value, dimensions, inherited + own.value, LaterDelay(node, own.value))
        else LastingParallel(parts.value, dimensions, inherited + own.value)
  }

  function LastingSerial(parts: seq<Part>, dimensions: Dimensions, first: real, later: real): real
    decreases PartHeight(parts), |parts|
  {
    if parts == [] then 0.0
    else Lasting(parts[0].node, dimensions, parts[0].path, first) + LastingSerial(parts[1..], dimensions, later, later)
  }

  function LastingParallel(parts: seq<Part>, dimensions: Dimensions, delay: real): real
    decreases PartHeight(parts), |parts|
  {
    if parts == [] then 0.0
    else if |parts| == 1 then Lasting(parts[0].node, dimensions, parts[0].path, delay)
    else
      Later(Lasting(parts[0].node, dimensions, parts[0].path, delay), LastingParallel(parts[1..], dimensions, delay))
  }

  function GraphLasting(roots: seq<Node>, dimensions: Dimensions): real {
    LastingSerial(AtPath(roots, []), dimensions, 0.0, 0.0)
  }

  // ------------------------------------------------ offsets of frontiers

  lemma LatestIsMaximum(rows: seq<Row>, ids: seq<string>, bound: real)
    requires NonNegative(rows)
    ensures LatestOffset(rows, ids) >= 0.0
    ensures LatestOffset(rows, ids) <= bound <==> bound >= 0.0 && forall id | id in ids :: Offset(rows, id) <= bound
  {
    LatestOffsetBounds(rows, ids);
    forall id | id in ids ensures Offset(rows, id) >= 0.0 {
      OffsetNonNegative(rows, id);
    }
    if ids == [] {
      assert LatestOffset(rows, ids) == 0.0;
    }
  }

  lemma LatestOfBoth(rows: seq<Row>, a: seq<string>, b: seq<string>)
    requires NonNegative(rows)
    ensures LatestOffset(rows, a + b) == Later(LatestOffset(rows, a), LatestOffset(rows, b))
  {
    hide LatestOffset, Offset, NonNegative;
    var joined, greatest := LatestOffset(rows, a + b), Later(LatestOffset(rows, a), LatestOffset(rows, b));
    LatestIsMaximum(rows, a + b, greatest);
    LatestIsMaximum(rows, a, greatest);
    LatestIsMaximum(rows, b, greatest);
    LatestIsMaximum(rows, a + b, joined);
    LatestIsMaximum(rows, a, joined);
    LatestIsMaximum(rows, b, joined);
  }

  lemma LatestOfSame(rows: seq<Row>, a: seq<string>, b: seq<string>)
    requires NonNegative(rows) && forall id :: id in a <==> id in b
    ensures LatestOffset(rows, a) == LatestOffset(rows, b)
  {
    hide LatestOffset, Offset, NonNegative;
    LatestIsMaximum(rows, a, LatestOffset(rows, b));
    LatestIsMaximum(rows, b, LatestOffset(rows, a));
    LatestIsMaximum(rows, a, LatestOffset(rows, a));
    LatestIsMaximum(rows, b, LatestOffset(rows, b));
  }

  /** Rows added later leave the offset of a frontier as it was. */
  lemma FrontierOffsetKept(rows: seq<Row>, grown: Grown, ids: seq<string>)
    requires rows <= grown.rows && UniqueIds(grown.rows) && Known(rows, ids)
    ensures LatestOffset(grown.rows, ids) == LatestOffset(rows, ids)
  {
    assert grown.rows == rows + Added(rows, grown);
    LatestOffsetStable(rows, Added(rows, grown), ids);
  }

  lemma PrefixNonNegative(rows: seq<Row>, grown: seq<Row>)
    requires rows <= grown && NonNegative(grown)
    ensures NonNegative(rows)
  {
  }

  // ------------------------------------------------ every accepted expansion

  lemma LeafLasts(rows: seq<Row>, frontier: seq<string>, row: Row)
    requires UniqueIds(rows + [row]) && NonNegative(rows)
    requires forall d :: d in row.dependencies <==> d in frontier
    ensures LatestOffset(rows + [row], [row.id]) == LatestOffset(rows, frontier) + row.after
  {
    OffsetInPlace(rows, row, []);
    assert rows + [row] + [] == rows + [row];
    LatestOfSame(rows, row.dependencies, frontier);
  }

  lemma {:induction false} ExpandLasts(
      node: Node, dimensions: Dimensions, rows: seq<Row>, frontier: seq<string>, path: seq<string>, inherited: real,
      grown: Grown)
    requires node.WellFormed() && node.Free() && UniqueIds(rows) && Known(rows, frontier)
    requires Expand(node, dimensions, rows, frontier, path, inherited) == Accepted(grown)
    requires Backward(grown.rows) && NonNegative(grown.rows)
    ensures LatestOffset(grown.rows, grown.frontier)
            == LatestOffset(rows, frontier) + Lasting(node, dimensions, path, inherited)
    decreases node.Height(), 0
  {
    hide LatestOffset, Offset, Backward, UniqueIds, NonNegative, Lasting, LastingSerial, LastingParallel, Expand,
      ExpandSerial, ExpandParallel, Parts, OwnDelay, LaterDelay, Known;
    PrefixNonNegative(rows, grown.rows);
    if node.Leaf? {
      var row := ExpandLeafUnfolds(node, dimensions, rows, frontier, path, inherited, grown);
      LeafDelay(node, dimensions, rows, frontier, path, inherited, grown, row);
      LeafLasts(rows, frontier, row);
    } else {
      var parts, first, later := ExpandUnfolds(node, dimensions, rows, frontier, path, inherited, grown);
      LastingUnfolds(node, dimensions, path, inherited, parts);
      if node.Serial() {
        SerialLasts(parts, dimensions, rows, frontier, first, later, grown);
      } else {
        ParallelLasts(parts, dimensions, rows, frontier, first, grown);
      }
    }
  }

  lemma LastingUnfolds(node: Node, dimensions: Dimensions, path: seq<string>, inherited: real, parts: seq<Part>)
    requires !node.Leaf? && OwnDelay(node, dimensions).Accepted? && Parts(node, dimensions, path) == Accepted(parts)
    ensures var own := OwnDelay(node, dimensions).value;
      Lasting(node, dimensions, path, inherited)
      == if node.Serial() then LastingSerial(parts, dimensions, inherited + own, LaterDelay(node, own))
         else LastingParallel(parts, dimensions, inherited + own)
  {
    hide Parts, OwnDelay, LaterDelay, LastingSerial, LastingParallel;
    PartHeightBelow(parts, node.Height());
  }

  lemma LeafDelay(node: Node, dimensions: Dimensions, rows: seq<Row>, frontier: seq<string>, path: seq<string>,
                  inherited: real, grown: Grown, row: Row)
    requires node.Leaf? && Expand(node, dimensions, rows, frontier, path, inherited) == Accepted(grown)
    requires grown == Grown(rows + [row], [row.id])
    ensures row.after == Lasting(node, dimensions, path, inherited)
  {
    var own := OwnDelay(node, dimensions);
    assert (rows + [row])[|rows|] == row;
    assert grown.rows == rows + [LeafRow(node, path, frontier, inherited + own.value)];
  }

  lemma {:induction false} SerialLasts(
      parts: seq<Part>, dimensions: Dimensions, rows: seq<Row>, frontier: seq<string>, first: real, later: real,
      grown: Grown)
    requires (forall part | part in parts :: part.node.WellFormed() && part.node.Free()) && UniqueIds(rows)
             && Known(rows, frontier)
    requires ExpandSerial(parts, dimensions, rows, frontier, first, later) == Accepted(grown)
    requires Backward(grown.rows) && NonNegative(grown.rows)
    ensures LatestOffset(grown.rows, grown.frontier)
            == LatestOffset(rows, frontier) + LastingSerial(parts, dimensions, first, later)
    decreases PartHeight(parts), |parts| + 2
  {
    hide LatestOffset, Offset, Backward, UniqueIds, NonNegative;
    if parts != [] {
      var head := Expand(parts[0].node, dimensions, rows, frontier, parts[0].path, first).value;
      HeadGrew(parts, dimensions, rows, frontier, first, head, grown);
      PrefixNonNegative(head.rows, grown.rows);
      ExpandLasts(parts[0].node, dimensions, rows, frontier, parts[0].path, first, head);
      SerialLasts(parts[1..], dimensions, head.rows, head.frontier, later, later, grown);
    }
  }

  lemma {:induction false} ParallelLasts(
      parts: seq<Part>, dimensions: Dimensions, rows: seq<Row>, frontier: seq<string>, delay: real, grown: Grown)
    requires (forall part | part in parts :: part.node.WellFormed() && part.node.Free()) && UniqueIds(rows)
             && Known(rows, frontier)
    requires parts != [] && ExpandParallel(parts, dimensions, rows, frontier, delay) == Accepted(grown)
    requires Backward(grown.rows) && NonNegative(grown.rows)
    ensures LatestOffset(grown.rows, grown.frontier)
            == LatestOffset(rows, frontier) + LastingParallel(parts, dimensions, delay)
    decreases PartHeight(parts), |parts| + 2
  {
    hide LatestOffset, Offset, Backward, UniqueIds, NonNegative, Lasting;
    var head := Expand(parts[0].node, dimensions, rows, frontier, parts[0].path, delay).value;
    var rest := ExpandParallel(parts[1..], dimensions, head.rows, frontier, delay).value;
    HeadGrew(parts, dimensions, rows, frontier, delay, head, rest);
    PrefixNonNegative(head.rows, grown.rows);
    ExpandLasts(parts[0].node, dimensions, rows, frontier, parts[0].path, delay, head);
    if |parts| == 1 {
      assert grown == Grown(head.rows, head.frontier) by {
        OnlyPart(parts, dimensions, rows, frontier, delay, head, grown);
      }
    } else {
      ParallelLasts(parts[1..], dimensions, head.rows, frontier, delay, rest);
      UniqueAfter(parts[1..], dimensions, head.rows, frontier, delay, rest);
      FrontierOffsetKept(rows, head, frontier);
      FrontierOffsetKept(head.rows, rest, head.frontier);
      LatestOfBoth(rest.rows, head.frontier, rest.frontier);
    }
  }

  lemma OnlyPart(parts: seq<Part>, dimensions: Dimensions, rows: seq<Row>, frontier: seq<string>, delay: real,
                 head: Grown, grown: Grown)
    requires |parts| == 1 && ExpandParallel(parts, dimensions, rows, frontier, delay) == Accepted(grown)
    requires Expand(parts[0].node, dimensions, rows, frontier, parts[0].path, delay) == Accepted(head)
    ensures grown == Grown(head.rows, head.frontier)
  {
    hide Expand;
    assert parts[1..] == [] && head.frontier + [] == head.frontier;
  }

  lemma UniqueAfter(parts: seq<Part>, dimensions: Dimensions, rows: seq<Row>, frontier: seq<string>, delay: real,
                    grown: Grown)
    requires UniqueIds(rows) && ExpandParallel(parts, dimensions, rows, frontier, delay) == Accepted(grown)
    ensures UniqueIds(grown.rows) && rows <= grown.rows
  {
    hide ExpandParallel, UniqueIds;
  }

  // ------------------------------------------------ whole graphs

  /** What a row waits for does not complete after it. */
  lemma {:induction false} AncestorsEarlierOffset(rows: seq<Row>, earlier: string, later: string)
    requires UniqueIds(rows) && Backward(rows) && NonNegative(rows) && earlier in Ancestors(rows, later)
    ensures Offset(rows, earlier) <= Offset(rows, later)
    decreases |rows|
  {
    var last, before := rows[|rows| - 1], rows[..|rows| - 1];
    assert rows == before + [last];
    BackwardPrefix(before, [last]);
    PrefixNonNegative(before, rows);
    if last.id != later {
      AncestorsEarlier(before, later);
      AncestorsEarlierOffset(before, earlier, later);
    } else {
      var d :| d in last.dependencies && (earlier == d || earlier in Ancestors(before, d));
      DependenciesEarlier(rows, |before|);
      AncestorsEarlier(before, d);
      OwnIdOnce(before, last, []);
      assert before + [last] + [] == rows;
      if earlier != d {
        AncestorsEarlierOffset(before, earlier, d);
      }
      LatestOffsetBounds(before, last.dependencies);
      assert last in rows;
    }
  }

  /**
    The planned span of a compiled graph without own dependencies is what its structure says: the
    heaviest dependency chain, computed without looking at any row.
   */
  lemma SpanIsStructural(roots: seq<Node>, dimensions: Dimensions, rows: seq<Row>)
    requires forall root | root in roots :: root.WellFormed() && root.Free()
    requires Compile(roots, dimensions) == Accepted(rows)
    ensures IsSpan(rows, GraphLasting(roots, dimensions))
  {
    var parts := AtPath(roots, []);
    var grown := ExpandSerial(parts, dimensions, [], [], 0.0, 0.0).value;
    CompiledNonNegative(roots, dimensions, rows);
    hide Expansion.Expand, Compile, IsSpan, Offset, LatestOffset, Ancestors, LastingSerial;
    SerialLasts(parts, dimensions, [], [], 0.0, 0.0, grown);
    SerialPartsGrew(parts, dimensions, [], [], 0.0, 0.0, grown);
    assert LatestOffset([], []) == 0.0 by { NothingBefore(); }
    assert Added([], grown) == rows;
    EveryOffsetWithin(rows, grown.frontier);
    if rows == [] {
      assert forall f | f in grown.frontier :: f in Ids(rows);
      assert forall k | 0 <= k < |grown.frontier| :: grown.frontier[k] in grown.frontier;
      assert grown.frontier == [];
      NothingBefore();
      SpanIsHeaviestChain(rows, GraphLasting(roots, dimensions), 0);
    } else {
      var heaviest := HeaviestRow(rows, grown.frontier);
      SpanIsHeaviestChain(rows, GraphLasting(roots, dimensions), heaviest);
    }
  }

  lemma NothingBefore()
    ensures LatestOffset([], []) == 0.0
  {
  }

  lemma EveryOffsetWithin(rows: seq<Row>, frontier: seq<string>)
    requires UniqueIds(rows) && Backward(rows) && NonNegative(rows)
    requires forall id | id in Ids(rows) :: id in Downset(rows, frontier)
    ensures forall i | 0 <= i < |rows| :: Offset(rows, rows[i].id) <= LatestOffset(rows, frontier)
  {
    hide Offset, LatestOffset, Backward, UniqueIds, Ancestors;
    LatestOffsetBounds(rows, frontier);
    forall i | 0 <= i < |rows| ensures Offset(rows, rows[i].id) <= LatestOffset(rows, frontier) {
      assert rows[i].id in Ids(rows);
      if rows[i].id !in frontier {
        var f :| f in frontier && rows[i].id in Ancestors(rows, f);
        AncestorsEarlierOffset(rows, rows[i].id, f);
      }
    }
  }

  lemma HeaviestRow(rows: seq<Row>, frontier: seq<string>) returns (heaviest: nat)
    requires rows != [] && (forall f | f in frontier :: f in Ids(rows))
    requires forall id | id in Ids(rows) :: id in Downset(rows, frontier)
    ensures heaviest < |rows| && Offset(rows, rows[heaviest].id) == LatestOffset(rows, frontier)
  {
    hide Offset, LatestOffset;
    LatestOffsetBounds(rows, frontier);
    assert rows[0].id in Ids(rows);
    assert frontier != [];
    var f :| f in frontier && Offset(rows, f) == LatestOffset(rows, frontier);
    heaviest :| 0 <= heaviest < |rows| && rows[heaviest].id == f;
  }
}
