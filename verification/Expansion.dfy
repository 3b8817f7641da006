/**
  Lowering of a task graph to rows with dependencies: the expansion as a function on rows,
  and the mutable builder with the recursive procedures that fill it.
 */
module Expansion {
  import opened Outcomes
  import opened TaskNodes

  const MAX_ID_LENGTH := 120

  datatype Row = Row(id: string, dependencies: seq<string>, after: real, kind: Kind, sources: seq<string>)

  /** The rows so far and the frontier the next serial node depends on. */
  datatype Grown = Grown(rows: seq<Row>, frontier: seq<string>)

  function Ids(rows: seq<Row>): set<string> {
    set row | row in rows :: row.id
  }

  ghost predicate UniqueIds(rows: seq<Row>) {
    forall i, j | 0 <= i < j < |rows| :: rows[i].id != rows[j].id
  }

  predicate NonNegative(rows: seq<Row>) {
    forall row | row in rows :: row.after >= 0.0
  }

  /** Keeps the first occurrence of every element. */
  function Distinct(items: seq<string>): (kept: seq<string>)
    ensures forall item :: item in kept <==> item in items
    ensures forall i, j | 0 <= i < j < |kept| :: kept[i] != kept[j]
  {
    if items == [] then []
    else
      var last := items[|items| - 1];
      var before := Distinct(items[..|items| - 1]);
      assert items == items[..|items| - 1] + [last];
      if last in before then before else before + [last]
  }

  function References(path: seq<string>, dependencies: seq<Dependency>): seq<string> {
    seq(|dependencies|, i requires 0 <= i < |dependencies| => QualifiedReference(path, dependencies[i].step))
  }

  function Reused(dependencies: seq<Dependency>): seq<Dependency> {
    if dependencies == [] then []
    else if dependencies[0].reuseMessages then [dependencies[0]] + Reused(dependencies[1..])
    else Reused(dependencies[1..])
  }

  function LeafRow(leaf: Node, path: seq<string>, frontier: seq<string>, delay: real): Row
    requires leaf.Leaf?
  {
    Row(QualifiedName(path, leaf.name), Distinct(frontier + References(path, leaf.dependsOn)), delay, leaf.kind,
        References(path, Reused(leaf.dependsOn)))
  }

  predicate Emittable(rows: seq<Row>, row: Row) {
    && 1 <= |row.id| <= MAX_ID_LENGTH
    && row.id !in Ids(rows)
    && row.after >= 0.0
    && |rows| < MAX_NODES_PER_INSTANCE
  }

  /** Rows and outgoing frontier of a node entered with `frontier`; `Rejected` where the compiler raises. */
  function Expand(node: Node, dimensions: Dimensions, rows: seq<Row>, frontier: seq<string>, path: seq<string>,
                  inherited: real): (grown: Outcome<Grown>)
    ensures grown.Accepted? ==> rows <= grown.value.rows && (UniqueIds(rows) ==> UniqueIds(grown.value.rows))
    decreases node.Height(), 0
  {
    var own :- OwnDelay(node, dimensions);
    if node.Leaf? then
      var row := LeafRow(node, path, frontier, inherited + own);
      if Emittable(rows, row) then Accepted(Grown(rows + [row], [row.id])) else Rejected
    else
      var parts :- Parts(node, dimensions, path);
      PartHeightBelow(parts, node.Height());
      if node.Serial() then
        ExpandSerial(parts, dimensions, rows, frontier, inherited + own, LaterDelay(node, own))
      else
        ExpandParallel(parts, dimensions, rows, frontier, inherited + own)
  }

  /** Each part starts from the frontier the part before it left behind. */
  function ExpandSerial(parts: seq<Part>, dimensions: Dimensions, rows: seq<Row>, frontier: seq<string>,
                        first: real, later: real): (grown: Outcome<Grown>)
    ensures grown.Accepted? ==> rows <= grown.value.rows && (UniqueIds(rows) ==> UniqueIds(grown.value.rows))
    decreases PartHeight(parts), |parts|
  {
    if parts == [] then Accepted(Grown(rows, frontier))
    else
      var head :- Expand(parts[0].node, dimensions, rows, frontier, parts[0].path, first);
      ExpandSerial(parts[1..], dimensions, head.rows, head.frontier, later, later)
  }

  /** Every part starts from the same frontier; the outgoing frontiers are joined in order. */
  function ExpandParallel(parts: seq<Part>, dimensions: Dimensions, rows: seq<Row>, frontier: seq<string>,
                          delay: real): (grown: Outcome<Grown>)
    ensures grown.Accepted? ==> rows <= grown.value.rows && (UniqueIds(rows) ==> UniqueIds(grown.value.rows))
    decreases PartHeight(parts), |parts|
  {
    if parts == [] then Accepted(Grown(rows, []))
    else
      var head :- Expand(parts[0].node, dimensions, rows, frontier, parts[0].path, delay);
      var rest :- ExpandParallel(parts[1..], dimensions, head.rows, frontier, delay);
      Accepted(Grown(rest.rows, head.frontier + rest.frontier))
  }

  /** The composition an accepted composite node stands for. */
  lemma ExpandUnfolds(node: Node, dimensions: Dimensions, rows: seq<Row>, frontier: seq<string>, path: seq<string>,
                      inherited: real, grown: Grown)
    returns (parts: seq<Part>, first: real, later: real)
    requires node.WellFormed() && !node.Leaf?
    requires Expand(node, dimensions, rows, frontier, path, inherited) == Accepted(grown)
    ensures Parts(node, dimensions, path) == Accepted(parts) && PartHeight(parts) < node.Height()
    ensures forall part | part in parts :: part.node.WellFormed()
    ensures node.Free() ==> forall part | part in parts :: part.node.Free()
    ensures node.Serial() ==> ExpandSerial(parts, dimensions, rows, frontier, first, later) == Accepted(grown)
    ensures !node.Serial() ==>
              parts != [] && ExpandParallel(parts, dimensions, rows, frontier, first) == Accepted(grown)
    ensures OwnDelay(node, dimensions).Accepted?
    ensures first == inherited + OwnDelay(node, dimensions).value
    ensures later == LaterDelay(node, OwnDelay(node, dimensions).value)
  {
    hide Parts, OwnDelay, LeafRow, ExpandSerial, ExpandParallel, LaterDelay;
    var own := OwnDelay(node, dimensions);
    assert own.Accepted?;
    parts := Parts(node, dimensions, path).value;
    first, later := inherited + own.value, LaterDelay(node, own.value);
    PartHeightBelow(parts, node.Height());
  }

  lemma ExpandIs(node: Node, dimensions: Dimensions, rows: seq<Row>, frontier: seq<string>, path: seq<string>,
                 inherited: real, parts: seq<Part>)
    requires !node.Leaf? && Parts(node, dimensions, path) == Accepted(parts)
    ensures Expand(node, dimensions, rows, frontier, path, inherited)
         == (match OwnDelay(node, dimensions)
             case Rejected => Rejected
             case Accepted(own) =>
               if node.Serial() then
                 ExpandSerial(parts, dimensions, rows, frontier, inherited + own, LaterDelay(node, own))
               else ExpandParallel(parts, dimensions, rows, frontier, inherited + own))
  {
    hide Parts, OwnDelay, LaterDelay, ExpandSerial, ExpandParallel;
    PartHeightBelow(parts, node.Height());
  }

  lemma ExpandLeafUnfolds(node: Node, dimensions: Dimensions, rows: seq<Row>, frontier: seq<string>,
                          path: seq<string>, inherited: real, grown: Grown)
    returns (row: Row)
    requires node.Leaf? && Expand(node, dimensions, rows, frontier, path, inherited) == Accepted(grown)
    ensures Emittable(rows, row) && grown == Grown(rows + [row], [row.id])
    ensures row.id == QualifiedName(path, node.name)
    ensures forall f | f in frontier :: f in row.dependencies
    ensures node.Free() ==> forall d | d in row.dependencies :: d in frontier
  {
    var own := OwnDelay(node, dimensions);
    assert own.Accepted?;
    row := LeafRow(node, path, frontier, inherited + own.value);
  }

  // ------------------------------------------------ delays are never negative

  lemma {:induction false} ExpandNonNegative(
      node: Node, dimensions: Dimensions, rows: seq<Row>, frontier: seq<string>, path: seq<string>, inherited: real,
      grown: Grown)
    requires node.WellFormed() && NonNegative(rows)
    requires Expand(node, dimensions, rows, frontier, path, inherited) == Accepted(grown)
    ensures NonNegative(grown.rows)
    decreases node.Height(), 0
  {
    if node.Leaf? {
      var row := ExpandLeafUnfolds(node, dimensions, rows, frontier, path, inherited, grown);
    } else {
      var parts, first, later := ExpandUnfolds(node, dimensions, rows, frontier, path, inherited, grown);
      if node.Serial() {
        SerialNonNegative(parts, dimensions, rows, frontier, first, later, grown);
      } else {
        ParallelNonNegative(parts, dimensions, rows, frontier, first, grown);
      }
    }
  }

  lemma {:induction false} SerialNonNegative(
      parts: seq<Part>, dimensions: Dimensions, rows: seq<Row>, frontier: seq<string>, first: real, later: real,
      grown: Grown)
    requires NonNegative(rows) && forall part | part in parts :: part.node.WellFormed()
    requires ExpandSerial(parts, dimensions, rows, frontier, first, later) == Accepted(grown)
    ensures NonNegative(grown.rows)
    decreases PartHeight(parts), |parts|
  {
    if parts != [] {
      var head := Expand(parts[0].node, dimensions, rows, frontier, parts[0].path, first).value;
      ExpandNonNegative(parts[0].node, dimensions, rows, frontier, parts[0].path, first, head);
      SerialNonNegative(parts[1..], dimensions, head.rows, head.frontier, later, later, grown);
    }
  }

  lemma {:induction false} ParallelNonNegative(
      parts: seq<Part>, dimensions: Dimensions, rows: seq<Row>, frontier: seq<string>, delay: real, grown: Grown)
    requires NonNegative(rows) && forall part | part in parts :: part.node.WellFormed()
    requires ExpandParallel(parts, dimensions, rows, frontier, delay) == Accepted(grown)
    ensures NonNegative(grown.rows)
    decreases PartHeight(parts), |parts|
  {
    if parts != [] {
      var head := Expand(parts[0].node, dimensions, rows, frontier, parts[0].path, delay).value;
      var rest := ExpandParallel(parts[1..], dimensions, head.rows, frontier, delay).value;
      ExpandNonNegative(parts[0].node, dimensions, rows, frontier, parts[0].path, delay, head);
      ParallelNonNegative(parts[1..], dimensions, head.rows, frontier, delay, rest);
    }
  }
}
