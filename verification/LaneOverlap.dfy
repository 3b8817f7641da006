/** A for_each never has more of its members in progress than it has lanes. */
module LaneOverlap {
  import opened Outcomes
  import opened TaskNodes
  import opened Expansion
  import opened Dependencies
  import opened Frontiers
  import PeakOverlap

  predicate Touches(piece: seq<Row>, chosen: set<string>) {
    Ids(piece) * chosen != {}
  }

  /** How many of the pieces hold a chosen row. */
  function Touched(pieces: seq<seq<Row>>, chosen: set<string>): nat {
    if pieces == [] then 0
    else (if Touches(pieces[0], chosen) then 1 else 0) + Touched(pieces[1..], chosen)
  }

  lemma {:induction false} TouchedSplits(pieces: seq<seq<Row>>, more: seq<seq<Row>>, chosen: set<string>)
    ensures Touched(pieces + more, chosen) == Touched(pieces, chosen) + Touched(more, chosen)
  {
    if pieces == [] {
      assert pieces + more == more;
    } else {
      assert (pieces + more)[1..] == pieces[1..] + more;
      TouchedSplits(pieces[1..], more, chosen);
    }
  }

  lemma {:induction false} ConcatenatedSplits<T>(pieces: seq<seq<T>>, more: seq<seq<T>>)
    ensures Concatenated(pieces + more) == Concatenated(pieces) + Concatenated(more)
  {
    if pieces == [] {
      assert pieces + more == more;
    } else {
      assert (pieces + more)[1..] == pieces[1..] + more;
      ConcatenatedSplits(pieces[1..], more);
    }
  }

  lemma {:induction false} TouchedNothing(pieces: seq<seq<Row>>, chosen: set<string>)
    requires Ids(Concatenated(pieces)) !! chosen
    ensures Touched(pieces, chosen) == 0
  {
    if pieces != [] {
      IdsAppend(pieces[0], Concatenated(pieces[1..]));
      TouchedNothing(pieces[1..], chosen);
    }
  }

  lemma TouchedCons(piece: seq<Row>, pieces: seq<seq<Row>>, chosen: set<string>)
    ensures Touched([piece] + pieces, chosen) == (if Touches(piece, chosen) then 1 else 0) + Touched(pieces, chosen)
  {
    assert ([piece] + pieces)[1..] == pieces;
  }

  /** The rows each serial part adds. */
  function SerialPieces(parts: seq<Part>, dimensions: Dimensions, rows: seq<Row>, frontier: seq<string>, first: real,
                        later: real): (pieces: seq<seq<Row>>)
    requires ExpandSerial(parts, dimensions, rows, frontier, first, later).Accepted?
    ensures |pieces| == |parts|
    ensures rows + Concatenated(pieces) == ExpandSerial(parts, dimensions, rows, frontier, first, later).value.rows
    decreases |parts|
  {
    if parts == [] then []
    else
      var head := Expand(parts[0].node, dimensions, rows, frontier, parts[0].path, first).value;
      var rest := SerialPieces(parts[1..], dimensions, head.rows, head.frontier, later, later);
      PieceFirst(rows, head, rest);
      [Added(rows, head)] + rest
  }

  lemma PieceFirst(rows: seq<Row>, head: Grown, rest: seq<seq<Row>>)
    requires rows <= head.rows
    ensures rows + Concatenated([Added(rows, head)] + rest) == head.rows + Concatenated(rest)
  {
    assert ([Added(rows, head)] + rest)[1..] == rest;
    assert rows + Added(rows, head) == head.rows;
    assert rows + (Added(rows, head) + Concatenated(rest)) == head.rows + Concatenated(rest);
  }

  lemma {:induction false} SerialTouchesOne(
      parts: seq<Part>, dimensions: Dimensions, rows: seq<Row>, frontier: seq<string>, first: real, later: real,
      grown: Grown, chosen: set<string>)
    requires (forall part | part in parts :: part.node.WellFormed()) && UniqueIds(rows) && Known(rows, frontier)
    requires ExpandSerial(parts, dimensions, rows, frontier, first, later) == Accepted(grown) && Backward(grown.rows)
    requires Antichain(grown.rows, chosen)
    ensures Touched(SerialPieces(parts, dimensions, rows, frontier, first, later), chosen) <= 1
    decreases |parts|
  {
    if parts != [] {
      var head := Expand(parts[0].node, dimensions, rows, frontier, parts[0].path, first).value;
      var rest := SerialPieces(parts[1..], dimensions, head.rows, head.frontier, later, later);
      HeadGrew(parts, dimensions, rows, frontier, first, head, grown);
      SerialPartsGrew(parts[1..], dimensions, head.rows, head.frontier, later, later, grown);
      Exclusive(rows, frontier, head, grown, chosen);
      SerialTouchesOne(parts[1..], dimensions, head.rows, head.frontier, later, later, grown, chosen);
      TouchedCons(Added(rows, head), rest, chosen);
      assert Added(head.rows, grown) == Concatenated(rest);
      if Touches(Added(rows, head), chosen) {
        TouchedNothing(rest, chosen);
      }
    }
  }

  /** The rows each member of one lane adds. */
  function LanePieces(lane: Part, dimensions: Dimensions, rows: seq<Row>, frontier: seq<string>, delay: real)
    : (pieces: seq<seq<Row>>)
    requires lane.node.Sequence? && Expand(lane.node, dimensions, rows, frontier, lane.path, delay).Accepted?
    ensures |pieces| == |lane.node.steps|
    ensures rows + Concatenated(pieces) == Expand(lane.node, dimensions, rows, frontier, lane.path, delay).value.rows
  {
    LaneIsSerial(lane, dimensions, rows, frontier, delay);
    var members := AtPath(lane.node.steps, lane.path + [lane.node.name]);
    SerialPieces(members, dimensions, rows, frontier, delay + OwnDelay(lane.node, dimensions).value, 0.0)
  }

  lemma LaneIsSerial(lane: Part, dimensions: Dimensions, rows: seq<Row>, frontier: seq<string>, delay: real)
    requires lane.node.Sequence? && Expand(lane.node, dimensions, rows, frontier, lane.path, delay).Accepted?
    ensures OwnDelay(lane.node, dimensions).Accepted?
    ensures Expand(lane.node, dimensions, rows, frontier, lane.path, delay)
         == ExpandSerial(AtPath(lane.node.steps, lane.path + [lane.node.name]), dimensions, rows, frontier,
                         delay + OwnDelay(lane.node, dimensions).value, 0.0)
  {
    hide OwnDelay, ExpandSerial, ExpandParallel;
    assert OwnDelay(lane.node, dimensions).Accepted?;
  }

  lemma LaneTouchesOne(lane: Part, dimensions: Dimensions, rows: seq<Row>, frontier: seq<string>, delay: real,
                       grown: Grown, chosen: set<string>)
    requires lane.node.Sequence? && lane.node.WellFormed() && UniqueIds(rows) && Known(rows, frontier)
    requires Expand(lane.node, dimensions, rows, frontier, lane.path, delay) == Accepted(grown)
    requires Backward(grown.rows) && Antichain(grown.rows, chosen)
    ensures Touched(LanePieces(lane, dimensions, rows, frontier, delay), chosen) <= 1
  {
    hide SerialPieces, ExpandSerial, Expand;
    var members, first, later := ExpandUnfolds(lane.node, dimensions, rows, frontier, lane.path, delay, grown);
    assert members == AtPath(lane.node.steps, lane.path + [lane.node.name]) && later == 0.0;
    assert LanePieces(lane, dimensions, rows, frontier, delay)
        == SerialPieces(members, dimensions, rows, frontier, first, later);
    SerialTouchesOne(members, dimensions, rows, frontier, first, later, grown, chosen);
  }

  function StepCount(lanes: seq<Part>): nat
    requires forall lane | lane in lanes :: lane.node.Sequence?
  {
    if lanes == [] then 0 else |lanes[0].node.steps| + StepCount(lanes[1..])
  }

  /** The rows each member of each lane adds, lane after lane. */
  function MemberPieces(lanes: seq<Part>, dimensions: Dimensions, rows: seq<Row>, frontier: seq<string>, delay: real)
    : (pieces: seq<seq<Row>>)
    requires forall lane | lane in lanes :: lane.node.Sequence?
    requires ExpandParallel(lanes, dimensions, rows, frontier, delay).Accepted?
    ensures |pieces| == StepCount(lanes)
    decreases |lanes|
  {
    if lanes == [] then []
    else
      var head := Expand(lanes[0].node, dimensions, rows, frontier, lanes[0].path, delay).value;
      LanePieces(lanes[0], dimensions, rows, frontier, delay)
      + MemberPieces(lanes[1..], dimensions, head.rows, frontier, delay)
  }

  lemma {:induction false} MemberPiecesCover(
      lanes: seq<Part>, dimensions: Dimensions, rows: seq<Row>, frontier: seq<string>, delay: real, grown: Grown)
    requires forall lane | lane in lanes :: lane.node.Sequence?
    requires ExpandParallel(lanes, dimensions, rows, frontier, delay) == Accepted(grown)
    ensures rows + Concatenated(MemberPieces(lanes, dimensions, rows, frontier, delay)) == grown.rows
    decreases |lanes|
  {
    if lanes != [] {
      var head := Expand(lanes[0].node, dimensions, rows, frontier, lanes[0].path, delay).value;
      var rest := ExpandParallel(lanes[1..], dimensions, head.rows, frontier, delay).value;
      MemberPiecesCover(lanes[1..], dimensions, head.rows, frontier, delay, rest);
      JoinedPieces(rows, head.rows, LanePieces(lanes[0], dimensions, rows, frontier, delay),
                   MemberPieces(lanes[1..], dimensions, head.rows, frontier, delay));
    }
  }

  lemma JoinedPieces(rows: seq<Row>, middle: seq<Row>, mine: seq<seq<Row>>, others: seq<seq<Row>>)
    requires rows + Concatenated(mine) == middle
    ensures rows + Concatenated(mine + others) == middle + Concatenated(others)
  {
    ConcatenatedSplits(mine, others);
    assert rows + (Concatenated(mine) + Concatenated(others)) == middle + Concatenated(others);
  }

  lemma {:induction false} LanesTouchOneEach(
      lanes: seq<Part>, dimensions: Dimensions, rows: seq<Row>, frontier: seq<string>, delay: real, grown: Grown,
      chosen: set<string>)
    requires forall lane | lane in lanes :: lane.node.Sequence? && lane.node.WellFormed()
    requires UniqueIds(rows) && Known(rows, frontier)
    requires ExpandParallel(lanes, dimensions, rows, frontier, delay) == Accepted(grown) && Backward(grown.rows)
    requires Antichain(grown.rows, chosen)
    ensures Touched(MemberPieces(lanes, dimensions, rows, frontier, delay), chosen) <= |lanes|
    decreases |lanes|
  {
    if lanes != [] {
      var head := Expand(lanes[0].node, dimensions, rows, frontier, lanes[0].path, delay).value;
      var rest := ExpandParallel(lanes[1..], dimensions, head.rows, frontier, delay).value;
      HeadGrew(lanes, dimensions, rows, frontier, delay, head, rest);
      PeakOverlap.AntichainBefore(head.rows, rest, chosen);
      LaneTouchesOne(lanes[0], dimensions, rows, frontier, delay, head, chosen);
      LanesTouchOneEach(lanes[1..], dimensions, head.rows, frontier, delay, rest, chosen);
      TouchedSplits(LanePieces(lanes[0], dimensions, rows, frontier, delay),
                    MemberPieces(lanes[1..], dimensions, head.rows, frontier, delay), chosen);
    }
  }

  /** The lanes hold one step per value. */
  lemma {:induction false} LanesHoldEveryValue(node: Node, lanes: nat, lane: nat, nodes: seq<Node>, path: seq<string>)
    requires node.ForEach? && lanes >= 1 && lane <= lanes && LaneNodes(node, lanes, lane) == Accepted(nodes)
    requires forall child | child in nodes :: child.Sequence?
    ensures StepCount(AtPath(nodes, path)) == |node.values| - LaneStart(lane, |node.values|, lanes)
    decreases lanes - lane
  {
    hide LaneNodes, LaneStart;
    if lane == lanes {
      LaneStartBounded(lane, |node.values|, lanes);
    } else {
      var first, rest := LaneUnfolds(node, lanes, lane, nodes);
      LanesHoldEveryValue(node, lanes, lane + 1, rest, path);
      StepCountCons(first, rest, path);
    }
  }

  lemma LaneUnfolds(node: Node, lanes: nat, lane: nat, nodes: seq<Node>) returns (first: Node, rest: seq<Node>)
    requires node.ForEach? && lane < lanes && LaneNodes(node, lanes, lane) == Accepted(nodes)
    ensures nodes == [first] + rest
    ensures LaneNodes(node, lanes, lane + 1) == Accepted(rest) && forall child | child in rest :: child.Sequence?
    ensures first.Sequence?
    ensures |first.steps| == LaneStart(lane + 1, |node.values|, lanes) - LaneStart(lane, |node.values|, lanes)
  {
    var members := BindMembers(node.body, node.variable, LaneSlice(node.values, lanes, lane), 1);
    assert members.Accepted?;
    first, rest := LaneNode(lane, members.value), LaneNodes(node, lanes, lane + 1).value;
  }

  lemma StepCountCons(first: Node, rest: seq<Node>, path: seq<string>)
    requires first.Sequence? && forall lane | lane in rest :: lane.Sequence?
    ensures StepCount(AtPath([first] + rest, path)) == |first.steps| + StepCount(AtPath(rest, path))
  {
    assert AtPath([first] + rest, path)[1..] == AtPath(rest, path);
  }

  // ------------------------------------------------ which member adds which piece

  /** The piece is exactly what expanding the part added, wherever it was expanded. */
  ghost predicate AddedBy(part: Part, dimensions: Dimensions, piece: seq<Row>) {
    exists before, frontier, delay :: Adds(part, dimensions, before, frontier, delay, piece)
  }

  ghost predicate Adds(part: Part, dimensions: Dimensions, before: seq<Row>, frontier: seq<string>, delay: real,
                       piece: seq<Row>)
  {
    var grown := Expand(part.node, dimensions, before, frontier, part.path, delay);
    grown.Accepted? && grown.value.rows == before + piece
  }

  /** The parts of all lanes, in the order in which the lanes expand them. */
  function Members(lanes: seq<Part>): (members: seq<Part>)
    requires forall lane | lane in lanes :: lane.node.Sequence?
    ensures |members| == StepCount(lanes)
  {
    if lanes == [] then []
    else AtPath(lanes[0].node.steps, lanes[0].path + [lanes[0].node.name]) + Members(lanes[1..])
  }

  lemma {:induction false} SerialPiecesAdded(
      parts: seq<Part>, dimensions: Dimensions, rows: seq<Row>, frontier: seq<string>, first: real, later: real)
    requires ExpandSerial(parts, dimensions, rows, frontier, first, later).Accepted?
    ensures forall i | 0 <= i < |parts| ::
              AddedBy(parts[i], dimensions, SerialPieces(parts, dimensions, rows, frontier, first, later)[i])
    decreases |parts|
  {
    hide AddedBy;
    if parts != [] {
      var head := Expand(parts[0].node, dimensions, rows, frontier, parts[0].path, first).value;
      var rest := SerialPieces(parts[1..], dimensions, head.rows, head.frontier, later, later);
      SerialPiecesAdded(parts[1..], dimensions, head.rows, head.frontier, later, later);
      HeadAdds(parts[0], dimensions, rows, frontier, first, head);
      forall i | 0 <= i < |parts|
        ensures AddedBy(parts[i], dimensions, ([Added(rows, head)] + rest)[i])
      {
        if i > 0 {
          assert parts[i] == parts[1..][i - 1];
        }
      }
    }
  }

  lemma HeadAdds(part: Part, dimensions: Dimensions, rows: seq<Row>, frontier: seq<string>, delay: real, head: Grown)
    requires Expand(part.node, dimensions, rows, frontier, part.path, delay) == Accepted(head)
    ensures AddedBy(part, dimensions, Added(rows, head))
  {
    assert head.rows == rows + Added(rows, head);
    assert Adds(part, dimensions, rows, frontier, delay, Added(rows, head));
  }

  lemma LanePiecesAdded(lane: Part, dimensions: Dimensions, rows: seq<Row>, frontier: seq<string>, delay: real)
    requires lane.node.Sequence? && Expand(lane.node, dimensions, rows, frontier, lane.path, delay).Accepted?
    ensures forall i | 0 <= i < |lane.node.steps| ::
              AddedBy(AtPath(lane.node.steps, lane.path + [lane.node.name])[i], dimensions,
                      LanePieces(lane, dimensions, rows, frontier, delay)[i])
  {
    hide SerialPieces, ExpandSerial, AddedBy;
    var members := AtPath(lane.node.steps, lane.path + [lane.node.name]);
    var own := OwnDelay(lane.node, dimensions).value;
    SerialPiecesAdded(members, dimensions, rows, frontier, delay + own, 0.0);
  }

  lemma {:induction false} MemberPiecesAdded(
      lanes: seq<Part>, dimensions: Dimensions, rows: seq<Row>, frontier: seq<string>, delay: real)
    requires forall lane | lane in lanes :: lane.node.Sequence?
    requires ExpandParallel(lanes, dimensions, rows, frontier, delay).Accepted?
    ensures forall i | 0 <= i < StepCount(lanes) ::
              AddedBy(Members(lanes)[i], dimensions, MemberPieces(lanes, dimensions, rows, frontier, delay)[i])
    decreases |lanes|
  {
    hide AddedBy, LanePieces, Expand;
    if lanes != [] {
      var head := Expand(lanes[0].node, dimensions, rows, frontier, lanes[0].path, delay).value;
      var mine, others := LanePieces(lanes[0], dimensions, rows, frontier, delay),
                          MemberPieces(lanes[1..], dimensions, head.rows, frontier, delay);
      LanePiecesAdded(lanes[0], dimensions, rows, frontier, delay);
      MemberPiecesAdded(lanes[1..], dimensions, head.rows, frontier, delay);
      var steps := AtPath(lanes[0].node.steps, lanes[0].path + [lanes[0].node.name]);
      forall i | 0 <= i < StepCount(lanes)
        ensures AddedBy((steps + Members(lanes[1..]))[i], dimensions, (mine + others)[i])
      {
      }
    }
  }

  /** The member's one step is the loop's body with the value bound to the variable. */
  predicate BoundTo(member: Node, node: Node, value: int)
    requires node.ForEach?
  {
    member.Sequence? && Bind(node.body, node.variable, value).Accepted?
    && member.steps == [Bind(node.body, node.variable, value).value]
  }

  lemma {:induction false} MembersBound(node: Node, values: seq<int>, next: nat)
    requires node.ForEach? && BindMembers(node.body, node.variable, values, next).Accepted?
    ensures forall k | 0 <= k < |values| ::
              BoundTo(BindMembers(node.body, node.variable, values, next).value[k], node, values[k])
    decreases |values|
  {
    hide Bind;
    if values != [] {
      MembersBound(node, values[1..], next + 1);
    }
  }

  /** From a lane on, the members are bound to the values from that lane's start on. */
  lemma {:induction false} LanesBound(node: Node, lanes: nat, lane: nat, nodes: seq<Node>, path: seq<string>)
    requires node.ForEach? && lanes >= 1 && lane <= lanes && LaneNodes(node, lanes, lane) == Accepted(nodes)
    requires forall child | child in nodes :: child.Sequence?
    ensures LaneStart(lane, |node.values|, lanes) + StepCount(AtPath(nodes, path)) == |node.values|
    ensures forall k | 0 <= k < StepCount(AtPath(nodes, path)) ::
              BoundTo(Members(AtPath(nodes, path))[k].node, node,
                      node.values[LaneStart(lane, |node.values|, lanes) + k])
    decreases lanes - lane
  {
    hide LaneNodes, LaneStart, BoundTo;
    LanesHoldEveryValue(node, lanes, lane, nodes, path);
    LaneStartBounded(lane, |node.values|, lanes);
    if lane < lanes {
      var first, rest := LaneUnfolds(node, lanes, lane, nodes);
      LanesBound(node, lanes, lane + 1, rest, path);
      LaneStepsBound(node, lanes, lane, nodes);
      StepCountCons(first, rest, path);
      assert AtPath(nodes, path)[1..] == AtPath(rest, path) && AtPath(nodes, path)[0] == Part(first, path);
      var start, steps := LaneStart(lane, |node.values|, lanes), AtPath(first.steps, path + [first.name]);
      assert Members(AtPath(nodes, path)) == steps + Members(AtPath(rest, path));
      forall k | 0 <= k < StepCount(AtPath(nodes, path))
        ensures BoundTo(Members(AtPath(nodes, path))[k].node, node, node.values[start + k])
      {
        if k < |steps| {
          assert steps[k].node == first.steps[k];
        } else {
          assert start + k == LaneStart(lane + 1, |node.values|, lanes) + (k - |steps|);
        }
      }
    }
  }

  lemma LaneStepsBound(node: Node, lanes: nat, lane: nat, nodes: seq<Node>)
    requires node.ForEach? && lane < lanes && LaneNodes(node, lanes, lane) == Accepted(nodes)
    ensures nodes != [] && nodes[0].Sequence?
    ensures |nodes[0].steps| == LaneStart(lane + 1, |node.values|, lanes) - LaneStart(lane, |node.values|, lanes)
    ensures LaneStart(lane + 1, |node.values|, lanes) <= |node.values|
    ensures forall k | 0 <= k < |nodes[0].steps| ::
              BoundTo(nodes[0].steps[k], node, node.values[LaneStart(lane, |node.values|, lanes) + k])
  {
    hide LaneStart, BoundTo, BindMembers;
    LaneStartBounded(lane + 1, |node.values|, lanes);
    LaneStartGrows(lane, |node.values|, lanes);
    var slice := LaneSlice(node.values, lanes, lane);
    var members := BindMembers(node.body, node.variable, slice, 1);
    MembersBound(node, slice, 1);
    assert nodes[0] == LaneNode(lane, members.value);
  }

  /** The piece is what the loop's body adds for the value. */
  ghost predicate AddedFor(node: Node, value: int, dimensions: Dimensions, piece: seq<Row>)
    requires node.ForEach?
  {
    exists member: Part :: BoundTo(member.node, node, value) && AddedBy(member, dimensions, piece)
  }

  /**
    The rows a for_each adds fall into pieces, one per value and lane after lane: piece i is what the
    body bound to value i adds. Pairwise unrelated rows lie in at most min(parallelism, number of values)
    of the pieces.
   */
  lemma ForEachOverlap(node: Node, dimensions: Dimensions, rows: seq<Row>, frontier: seq<string>, path: seq<string>,
                       inherited: real, grown: Grown, chosen: set<string>)
    returns (lanes: seq<Part>, delay: real, pieces: seq<seq<Row>>)
    requires node.ForEach? && node.WellFormed() && UniqueIds(rows) && Known(rows, frontier)
    requires Expand(node, dimensions, rows, frontier, path, inherited) == Accepted(grown) && Backward(grown.rows)
    requires Unrelated(grown.rows, chosen)
    ensures OwnDelay(node, dimensions).Accepted? && delay == inherited + OwnDelay(node, dimensions).value
    ensures Parts(node, dimensions, path) == Accepted(lanes) && forall lane | lane in lanes :: lane.node.Sequence?
    ensures ExpandParallel(lanes, dimensions, rows, frontier, delay) == Accepted(grown)
    ensures pieces == MemberPieces(lanes, dimensions, rows, frontier, delay)
    ensures |pieces| == |node.values| && rows + Concatenated(pieces) == grown.rows
    ensures forall i | 0 <= i < |pieces| :: AddedFor(node, node.values[i], dimensions, pieces[i])
    ensures Touched(pieces, chosen) <= LaneCount(node.values, node.parallelism) == |lanes|
    ensures |lanes| == if node.parallelism <= |node.values| then node.parallelism else |node.values|
  {
    hide Expand, Parts, ExpandParallel, MemberPieces, LaneNodes, StepCount, Touched, AddedFor, Backward, UniqueIds,
      Known, OwnDelay, Unrelated, Antichain, LaneCount;
    LanesCounted(node.values, node.parallelism);
    var later;
    lanes, delay, later := ExpandUnfolds(node, dimensions, rows, frontier, path, inherited, grown);
    var nodes := LanesOf(node, dimensions, path, lanes);
    pieces := MemberPieces(lanes, dimensions, rows, frontier, delay);
    assert Antichain(grown.rows, chosen) by { UnrelatedIsAntichain(grown.rows, chosen); }
    LanesTouchOneEach(lanes, dimensions, rows, frontier, delay, grown, chosen);
    MemberPiecesCover(lanes, dimensions, rows, frontier, delay, grown);
    EveryPieceAdded(node, dimensions, path, lanes, nodes, rows, frontier, delay);
  }

  lemma EveryPieceAdded(node: Node, dimensions: Dimensions, path: seq<string>, lanes: seq<Part>, nodes: seq<Node>,
                        rows: seq<Row>, frontier: seq<string>, delay: real)
    requires node.ForEach? && LaneCount(node.values, node.parallelism) >= 1
    requires LaneNodes(node, LaneCount(node.values, node.parallelism), 0) == Accepted(nodes)
    requires lanes == AtPath(nodes, path + [node.name])
    requires (forall child | child in nodes :: child.Sequence?) && forall lane | lane in lanes :: lane.node.Sequence?
    requires ExpandParallel(lanes, dimensions, rows, frontier, delay).Accepted?
    ensures |MemberPieces(lanes, dimensions, rows, frontier, delay)| == |node.values|
    ensures forall i | 0 <= i < |node.values| ::
              AddedFor(node, node.values[i], dimensions, MemberPieces(lanes, dimensions, rows, frontier, delay)[i])
  {
    hide ExpandParallel, MemberPieces, LaneNodes, BoundTo, AddedBy, Members, StepCount, AtPath;
    var count := LaneCount(node.values, node.parallelism);
    MemberPiecesAdded(lanes, dimensions, rows, frontier, delay);
    LanesBound(node, count, 0, nodes, path + [node.name]);
    assert LaneStart(0, |node.values|, count) == 0;
    forall i | 0 <= i < |node.values|
      ensures AddedFor(node, node.values[i], dimensions, MemberPieces(lanes, dimensions, rows, frontier, delay)[i])
    {
      assert BoundTo(Members(lanes)[i].node, node, node.values[0 + i]);
    }
  }

  lemma LanesOf(node: Node, dimensions: Dimensions, path: seq<string>, lanes: seq<Part>) returns (nodes: seq<Node>)
    requires node.ForEach? && node.WellFormed() && Parts(node, dimensions, path) == Accepted(lanes)
    ensures LaneCount(node.values, node.parallelism) >= 1
    ensures LaneNodes(node, LaneCount(node.values, node.parallelism), 0) == Accepted(nodes)
    ensures lanes == AtPath(nodes, path + [node.name]) && |lanes| == LaneCount(node.values, node.parallelism)
    ensures forall child | child in nodes :: child.Sequence? && child.WellFormed()
    ensures forall lane | lane in lanes :: lane.node.Sequence? && lane.node.WellFormed()
  {
    nodes := LaneNodes(node, LaneCount(node.values, node.parallelism), 0).value;
  }
}
