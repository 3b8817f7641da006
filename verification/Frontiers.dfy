/** What one expansion does to the dependency order: the induction hypothesis of the compiler. */
module Frontiers {
  import opened Outcomes
  import opened TaskNodes
  import opened Expansion
  import opened Dependencies

  function Added(rows: seq<Row>, grown: Grown): seq<Row>
    requires rows <= grown.rows
  {
    grown.rows[|rows|..]
  }

  /** Every added row waits for the whole incoming frontier. */
  ghost predicate Entered(rows: seq<Row>, frontier: seq<string>, grown: Grown)
    requires rows <= grown.rows
  {
    forall id, f | id in Ids(Added(rows, grown)) && f in frontier :: f in Ancestors(grown.rows, id)
  }

  /** Every added row, and every row of the incoming frontier, lies at or below the outgoing frontier. */
  ghost predicate Left(rows: seq<Row>, frontier: seq<string>, grown: Grown)
    requires rows <= grown.rows
  {
    forall id | id in Ids(Added(rows, grown)) || id in frontier :: id in Downset(grown.rows, grown.frontier)
  }

  ghost predicate Grew(rows: seq<Row>, frontier: seq<string>, grown: Grown) {
    && rows <= grown.rows
    && UniqueIds(grown.rows)
    && (forall f | f in grown.frontier :: f in frontier || f in Ids(Added(rows, grown)))
    && Entered(rows, frontier, grown)
    && Left(rows, frontier, grown)
  }

  /** Added rows wait for nothing but each other and what the incoming frontier waits for. */
  ghost predicate Local(rows: seq<Row>, frontier: seq<string>, grown: Grown)
    requires rows <= grown.rows
  {
    forall id | id in Ids(Added(rows, grown)) ::
      Ancestors(grown.rows, id) <= Ids(Added(rows, grown)) + Downset(rows, frontier)
  }

  ghost predicate Known(rows: seq<Row>, frontier: seq<string>) {
    forall f | f in frontier :: f in Ids(rows)
  }

  lemma AddedSplits(rows: seq<Row>, middle: Grown, grown: Grown)
    requires rows <= middle.rows <= grown.rows
    ensures rows <= grown.rows && Added(rows, grown) == Added(rows, middle) + Added(middle.rows, grown)
    ensures Ids(Added(rows, grown)) == Ids(Added(rows, middle)) + Ids(Added(middle.rows, grown))
    ensures Ids(middle.rows) == Ids(rows) + Ids(Added(rows, middle))
  {
    IdsAppend(Added(rows, middle), Added(middle.rows, grown));
    assert middle.rows == rows + Added(rows, middle);
    IdsAppend(rows, Added(rows, middle));
  }

  /** Later rows leave the ancestors of a row as they were. */
  lemma AncestorsKept(rows: seq<Row>, grown: Grown, id: string)
    requires rows <= grown.rows && UniqueIds(grown.rows) && id in Ids(rows)
    ensures id !in Ids(Added(rows, grown))
    ensures Ancestors(grown.rows, id) == Ancestors(rows, id)
  {
    assert grown.rows == rows + Added(rows, grown);
    var i :| 0 <= i < |rows| && rows[i].id == id;
    forall row | row in Added(rows, grown) ensures row.id != id {
      var j :| 0 <= j < |Added(rows, grown)| && Added(rows, grown)[j] == row;
      assert grown.rows[i].id != grown.rows[|rows| + j].id;
    }
    AncestorsStable(rows, Added(rows, grown), id);
  }

  lemma DownsetKept(rows: seq<Row>, grown: Grown, ids: seq<string>)
    requires rows <= grown.rows && UniqueIds(grown.rows) && Known(rows, ids)
    ensures Downset(grown.rows, ids) == Downset(rows, ids)
  {
    forall d | d in ids ensures Ancestors(grown.rows, d) == Ancestors(rows, d) {
      AncestorsKept(rows, grown, d);
    }
  }

  /** What is at or below the rows that `id` waits for, `id` waits for too. */
  lemma DownsetAncestors(rows: seq<Row>, ids: seq<string>, id: string, below: string)
    requires UniqueIds(rows) && Backward(rows)
    requires (forall d | d in ids :: d in Ancestors(rows, id)) && below in Downset(rows, ids)
    ensures below in Ancestors(rows, id)
  {
    if below !in ids {
      var d :| d in ids && below in Ancestors(rows, d);
      AncestorsTransitive(rows, below, d, id);
    }
  }

  lemma DownsetTransitive(rows: seq<Row>, ids: seq<string>, middle: string, below: string)
    requires UniqueIds(rows) && Backward(rows)
    requires middle in Downset(rows, ids) && below in Ancestors(rows, middle)
    ensures below in Downset(rows, ids)
  {
    if middle !in ids {
      var d :| d in ids && middle in Ancestors(rows, d);
      AncestorsTransitive(rows, below, middle, d);
    }
  }

  lemma LeafGrew(rows: seq<Row>, frontier: seq<string>, row: Row)
    requires UniqueIds(rows) && Emittable(rows, row)
    requires forall f | f in frontier :: f in row.dependencies
    ensures Grew(rows, frontier, Grown(rows + [row], [row.id]))
  {
    var grown := Grown(rows + [row], [row.id]);
    assert Added(rows, grown) == [row];
    assert grown.rows[..|grown.rows| - 1] == rows;
    assert forall f | f in frontier :: f in Ancestors(grown.rows, row.id);
    assert row.id in grown.frontier;
  }

  /** What a second expansion adds waits for everything the first added and for its incoming frontier. */
  lemma SerialOrdered(rows: seq<Row>, frontier: seq<string>, head: Grown, grown: Grown)
    requires Known(rows, frontier) && Backward(grown.rows)
    requires Grew(rows, frontier, head) && Grew(head.rows, head.frontier, grown)
    ensures forall a, b | a in Ids(Added(rows, head)) && b in Ids(Added(head.rows, grown)) ::
              a in Ancestors(grown.rows, b)
    ensures forall a, b | a in frontier && b in Ids(Added(head.rows, grown)) :: a in Ancestors(grown.rows, b)
  {
    AddedSplits(rows, head, head);
    DownsetKept(head.rows, grown, head.frontier);
    forall a, b | (a in Ids(Added(rows, head)) || a in frontier) && b in Ids(Added(head.rows, grown))
      ensures a in Ancestors(grown.rows, b)
    {
      DownsetAncestors(grown.rows, head.frontier, b, a);
    }
  }

  /** So pairwise unrelated rows cannot lie on both sides. */
  lemma Exclusive(rows: seq<Row>, frontier: seq<string>, head: Grown, grown: Grown, chosen: set<string>)
    requires Known(rows, frontier) && Backward(grown.rows)
    requires Grew(rows, frontier, head) && Grew(head.rows, head.frontier, grown)
    requires Antichain(grown.rows, chosen)
    ensures Ids(Added(rows, head)) !! chosen || Ids(Added(head.rows, grown)) !! chosen
  {
    SerialOrdered(rows, frontier, head, grown);
    if a :| a in Ids(Added(rows, head)) && a in chosen {
      forall b | b in Ids(Added(head.rows, grown)) ensures b !in chosen {
        assert a in Ancestors(grown.rows, b);
      }
    }
  }

  /** Serial composition, including parts that add nothing. */
  lemma SerialGrew(rows: seq<Row>, frontier: seq<string>, head: Grown, grown: Grown)
    requires Known(rows, frontier) && Backward(grown.rows)
    requires Grew(rows, frontier, head) && Grew(head.rows, head.frontier, grown)
    ensures Grew(rows, frontier, grown)
  {
    AddedSplits(rows, head, grown);
    SerialOrdered(rows, frontier, head, grown);
    forall id, f | id in Ids(Added(rows, head)) && f in frontier ensures f in Ancestors(grown.rows, id) {
      AncestorsKept(head.rows, grown, id);
    }
    assert Entered(rows, frontier, grown);
    forall a | a in Ids(Added(rows, head)) || a in frontier ensures a in Downset(grown.rows, grown.frontier) {
      SerialLeft(rows, frontier, head, grown, a);
    }
  }

  lemma SerialLeft(rows: seq<Row>, frontier: seq<string>, head: Grown, grown: Grown, a: string)
    requires Known(rows, frontier) && Backward(grown.rows)
    requires Grew(rows, frontier, head) && Grew(head.rows, head.frontier, grown)
    requires a in Ids(Added(rows, head)) || a in frontier
    ensures a in Downset(grown.rows, grown.frontier)
  {
    AddedSplits(rows, head, head);
    DownsetKept(head.rows, grown, head.frontier);
    if a !in head.frontier {
      var f :| f in head.frontier && a in Ancestors(grown.rows, f);
      DownsetTransitive(grown.rows, grown.frontier, f, a);
    }
  }

  lemma ParallelGrew(rows: seq<Row>, frontier: seq<string>, head: Grown, rest: Grown)
    requires Known(rows, frontier)
    requires Grew(rows, frontier, head) && Grew(head.rows, frontier, rest)
    ensures Grew(rows, frontier, Grown(rest.rows, head.frontier + rest.frontier))
  {
    AddedSplits(rows, head, rest);
    DownsetKept(head.rows, rest, head.frontier);
    forall id, f | id in Ids(Added(rows, head)) && f in frontier ensures f in Ancestors(rest.rows, id) {
      AncestorsKept(head.rows, rest, id);
    }
  }

  // ------------------------------------------------ every accepted expansion

  lemma {:induction false} ExpandGrew(node: Node, dimensions: Dimensions, rows: seq<Row>, frontier: seq<string>,
                                      path: seq<string>, inherited: real, grown: Grown)
    requires node.WellFormed() && UniqueIds(rows) && Known(rows, frontier)
    requires Expand(node, dimensions, rows, frontier, path, inherited) == Accepted(grown) && Backward(grown.rows)
    ensures Grew(rows, frontier, grown)
    decreases node.Height(), 0
  {
    if node.Leaf? {
      var row := ExpandLeafUnfolds(node, dimensions, rows, frontier, path, inherited, grown);
      LeafGrew(rows, frontier, row);
    } else {
      var parts, first, later := ExpandUnfolds(node, dimensions, rows, frontier, path, inherited, grown);
      if node.Serial() {
        SerialPartsGrew(parts, dimensions, rows, frontier, first, later, grown);
      } else {
        ParallelPartsGrew(parts, dimensions, rows, frontier, first, grown);
      }
    }
  }

  lemma {:induction false} SerialPartsGrew(parts: seq<Part>, dimensions: Dimensions, rows: seq<Row>,
                                           frontier: seq<string>, first: real, later: real, grown: Grown)
    requires (forall part | part in parts :: part.node.WellFormed()) && UniqueIds(rows) && Known(rows, frontier)
    requires ExpandSerial(parts, dimensions, rows, frontier, first, later) == Accepted(grown) && Backward(grown.rows)
    ensures Grew(rows, frontier, grown)
    decreases PartHeight(parts), |parts| + 2
  {
    if parts == [] {
      assert Added(rows, grown) == [];
    } else {
      var head := Expand(parts[0].node, dimensions, rows, frontier, parts[0].path, first).value;
      HeadGrew(parts, dimensions, rows, frontier, first, head, grown);
      SerialPartsGrew(parts[1..], dimensions, head.rows, head.frontier, later, later, grown);
      SerialGrew(rows, frontier, head, grown);
    }
  }

  lemma {:induction false} ParallelPartsGrew(parts: seq<Part>, dimensions: Dimensions, rows: seq<Row>,
                                             frontier: seq<string>, delay: real, grown: Grown)
    requires (forall part | part in parts :: part.node.WellFormed()) && UniqueIds(rows) && Known(rows, frontier)
    requires parts != []
    requires ExpandParallel(parts, dimensions, rows, frontier, delay) == Accepted(grown) && Backward(grown.rows)
    ensures Grew(rows, frontier, grown)
    decreases PartHeight(parts), |parts| + 2
  {
    var head := Expand(parts[0].node, dimensions, rows, frontier, parts[0].path, delay).value;
    var rest := ExpandParallel(parts[1..], dimensions, head.rows, frontier, delay).value;
    HeadGrew(parts, dimensions, rows, frontier, delay, head, rest);
    if |parts| == 1 {
      assert grown == Grown(head.rows, head.frontier);
    } else {
      ParallelPartsGrew(parts[1..], dimensions, head.rows, frontier, delay, rest);
      ParallelGrew(rows, frontier, head, rest);
    }
  }

  /** The first part of a composition, whose result is a prefix of the whole. */
  lemma {:induction false} HeadGrew(parts: seq<Part>, dimensions: Dimensions, rows: seq<Row>, frontier: seq<string>,
                                    delay: real, head: Grown, grown: Grown)
    requires parts != [] && (forall part | part in parts :: part.node.WellFormed())
    requires UniqueIds(rows) && Known(rows, frontier)
    requires Expand(parts[0].node, dimensions, rows, frontier, parts[0].path, delay) == Accepted(head)
    requires head.rows <= grown.rows && Backward(grown.rows)
    ensures Grew(rows, frontier, head) && Backward(head.rows)
    ensures Known(head.rows, frontier) && Known(head.rows, head.frontier)
    ensures forall part | part in parts[1..] :: part.node.WellFormed()
    decreases PartHeight(parts), 1
  {
    assert grown.rows == head.rows + grown.rows[|head.rows|..];
    BackwardPrefix(head.rows, grown.rows[|head.rows|..]);
    ExpandGrew(parts[0].node, dimensions, rows, frontier, parts[0].path, delay, head);
    AddedSplits(rows, head, head);
  }
}
