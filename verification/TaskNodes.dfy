/**
  The task language: immutable nodes, dimension references, loop binding and the
  division of every composite node into the parts it expands in order.
 */
module TaskNodes {
  import opened Outcomes

  const MAX_REPEAT_COUNT := 100
  const MAX_NODES_PER_INSTANCE := 10_000

  type Dimensions = map<string, int>

  /** An integer literal or a `$name` reference. */
  datatype Scalar = Literal(number: int) | Reference(name: string) {
    function Resolve(dimensions: Dimensions): Outcome<int> {
      match this
      case Literal(number) => Accepted(number)
      case Reference(name) => if name in dimensions then Accepted(dimensions[name]) else Rejected
    }

    function Bind(variable: string, value: int): Scalar {
      if this == Reference(variable) then Literal(value) else this
    }
  }

  /** Negative delays are refused. */
  function InSeconds(amount: real, unit: real): Outcome<real> {
    if amount * unit < 0.0 then Rejected else Accepted(amount * unit)
  }

  /** A delay: a number or a reference, times the seconds in its unit. */
  datatype Duration = Fixed(amount: real, unit: real) | Scaled(name: string, unit: real) {
    function Resolve(dimensions: Dimensions): Outcome<real> {
      var amount :-
        match this
        case Fixed(amount, _) => Accepted(amount)
        case Scaled(name, _) => if name in dimensions then Accepted(dimensions[name] as real) else Rejected;
      InSeconds(amount, unit)
    }

    function Bind(variable: string, value: int): Duration {
      if Scaled? && name == variable then Fixed(value as real, unit) else this
    }
  }

  const NO_DELAY := Fixed(0.0, 1.0)

  /** `Atomic` is one invocation; `Batch` is one bounded run. */
  datatype Kind = Atomic | Batch

  datatype Dependency = Dependency(step: string, reuseMessages: bool)

  datatype Node =
    | Leaf(name: string, kind: Kind, after: Duration, dependsOn: seq<Dependency>)
    | Repeat(name: string, count: Scalar, every: Duration, body: Node)
    | Branches(name: string, after: Duration, branches: seq<Node>)
    | Copies(name: string, after: Duration, count: Scalar, body: Node)
    | Sequence(name: string, after: Duration, steps: seq<Node>)
    | ForEach(name: string, variable: string, values: seq<int>, parallelism: nat, after: Duration, body: Node)
  {
    /** What the input schema guarantees before the compiler sees a node. */
    predicate WellFormed() {
      match this
      case Leaf(_, _, _, _) => true
      case Repeat(_, _, _, body) => body.WellFormed()
      case Branches(_, _, branches) => branches != [] && forall branch | branch in branches :: branch.WellFormed()
      case Copies(_, _, _, body) => body.WellFormed()
      case Sequence(_, _, steps) => forall step | step in steps :: step.WellFormed()
      case ForEach(_, _, values, parallelism, _, body) => values != [] && parallelism >= 1 && body.WellFormed()
    }

    /** No leaf declares a dependency of its own. */
    predicate Free() {
      match this
      case Leaf(_, _, _, dependsOn) => dependsOn == []
      case Repeat(_, _, _, body) => body.Free()
      case Branches(_, _, branches) => forall branch | branch in branches :: branch.Free()
      case Copies(_, _, _, body) => body.Free()
      case Sequence(_, _, steps) => forall step | step in steps :: step.Free()
      case ForEach(_, _, _, _, _, body) => body.Free()
    }

    /** A measure that binding keeps and that exceeds the height of every part. */
    function Height(): nat {
      match this
      case Leaf(_, _, _, _) => 0
      case Repeat(_, _, _, body) => 1 + body.Height()
      case Branches(_, _, branches) => 1 + MaxHeight(branches)
      case Copies(_, _, _, body) => 1 + body.Height()
      case Sequence(_, _, steps) => 1 + MaxHeight(steps)
      case ForEach(_, _, _, _, _, body) => 3 + body.Height()
    }

    predicate Serial() {
      Repeat? || Sequence?
    }

    predicate Parallel() {
      Branches? || Copies? || ForEach?
    }
  }

  function MaxHeight(nodes: seq<Node>): (height: nat)
    ensures forall node | node in nodes :: node.Height() <= height
  {
    if nodes == [] then 0
    else
      var rest := MaxHeight(nodes[1..]);
      var first := nodes[0].Height();
      assert forall node | node in nodes :: node == nodes[0] || node in nodes[1..];
      if first > rest then first else rest
  }

  /** Substitutes a loop value for typed references only; reusing the variable inside is refused. */
  function Bind(node: Node, variable: string, value: int): (bound: Outcome<Node>)
    ensures bound.Accepted? ==>
              && bound.value.Height() == node.Height()
              && (node.WellFormed() ==> bound.value.WellFormed())
              && (node.Free() ==> bound.value.Free())
  {
    match node
    case Leaf(name, kind, after, dependsOn) =>
      Accepted(Leaf(name, kind, after.Bind(variable, value), dependsOn))
    case Repeat(name, count, every, body) =>
      var inner :- Bind(body, variable, value);
      Accepted(Repeat(name, count.Bind(variable, value), every.Bind(variable, value), inner))
    case Branches(name, after, branches) =>
      var inner :- BindAll(branches, variable, value);
      Accepted(Branches(name, after.Bind(variable, value), inner))
    case Copies(name, after, count, body) =>
      var inner :- Bind(body, variable, value);
      Accepted(Copies(name, after.Bind(variable, value), count.Bind(variable, value), inner))
    case Sequence(name, after, steps) =>
      var inner :- BindAll(steps, variable, value);
      Accepted(Sequence(name, after.Bind(variable, value), inner))
    case ForEach(name, nested, values, parallelism, after, body) =>
      if nested == variable then Rejected
      else
        var inner :- Bind(body, variable, value);
        Accepted(ForEach(name, nested, values, parallelism, after.Bind(variable, value), inner))
  }

  function BindAll(nodes: seq<Node>, variable: string, value: int): (bound: Outcome<seq<Node>>)
    ensures bound.Accepted? ==>
              && |bound.value| == |nodes|
              && MaxHeight(bound.value) == MaxHeight(nodes)
              && ((forall node | node in nodes :: node.WellFormed()) ==>
                    forall node | node in bound.value :: node.WellFormed())
              && ((forall node | node in nodes :: node.Free()) ==> forall node | node in bound.value :: node.Free())
  {
    if nodes == [] then Accepted([])
    else
      var first :- Bind(nodes[0], variable, value);
      var rest :- BindAll(nodes[1..], variable, value);
      assert ([first] + rest)[1..] == rest;
      Accepted([first] + rest)
  }

  // ---------------------------------------------------------------- names

  function Digits(n: nat): (text: string)
    ensures |text| >= 1
  {
    var digit := ['0' + (n % 10) as char];
    if n < 10 then digit else Digits(n / 10) + digit
  }

  /** A decimal padded with zeros to two digits. */
  function Padded(n: nat): string {
    if n < 10 then "0" + Digits(n) else Digits(n)
  }

  function Joined(path: seq<string>): string {
    if path == [] then ""
    else if |path| == 1 then path[0]
    else path[0] + "." + Joined(path[1..])
  }

  function QualifiedName(path: seq<string>, name: string): string {
    Joined(path + [name])
  }

  /** A dotted reference is already absolute; any other is a sibling. */
  function QualifiedReference(path: seq<string>, name: string): string {
    if '.' in name then name else QualifiedName(path, name)
  }

  // ---------------------------------------------------------------- lanes

  function Min(a: int, b: int): int {
    if a < b then a else b
  }

  function LaneCount(values: seq<int>, parallelism: nat): nat {
    Min(parallelism, |values|)
  }

  lemma LanesCounted(values: seq<int>, parallelism: nat)
    ensures LaneCount(values, parallelism) == if parallelism <= |values| then parallelism else |values|
  {
  }

  /** Where lane `lane` starts: every earlier lane holds the quotient, the first ones one member more. */
  function LaneStart(lane: nat, total: nat, lanes: nat): nat
    requires lanes >= 1
  {
    lane * (total / lanes) + Min(lane, total % lanes)
  }

  lemma LaneStartGrows(lane: nat, total: nat, lanes: nat)
    requires lane < lanes
    ensures LaneStart(lane + 1, total, lanes) - LaneStart(lane, total, lanes)
         == total / lanes + if lane < total % lanes then 1 else 0
    ensures LaneStart(lane, total, lanes) <= LaneStart(lane + 1, total, lanes)
  {
    assert (lane + 1) * (total / lanes) == lane * (total / lanes) + total / lanes;
  }

  lemma {:induction false} LaneStartBounded(lane: nat, total: nat, lanes: nat)
    requires 1 <= lanes && lane <= lanes
    ensures LaneStart(lane, total, lanes) <= total
    ensures lane == lanes ==> LaneStart(lane, total, lanes) == total
    decreases lanes - lane
  {
    if lane == lanes {
      assert lanes * (total / lanes) + total % lanes == total;
    } else {
      LaneStartGrows(lane, total, lanes);
      LaneStartBounded(lane + 1, total, lanes);
    }
  }

  lemma LaneBounds(lane: nat, total: nat, lanes: nat)
    requires lane < lanes
    ensures LaneStart(lane, total, lanes) <= LaneStart(lane + 1, total, lanes) <= total
  {
    hide LaneStart;
    LaneStartGrows(lane, total, lanes);
    LaneStartBounded(lane + 1, total, lanes);
  }

  function LaneSlice(values: seq<int>, lanes: nat, lane: nat): (slice: seq<int>)
    requires lane < lanes
    ensures |slice| == LaneStart(lane + 1, |values|, lanes) - LaneStart(lane, |values|, lanes)
  {
    LaneBounds(lane, |values|, lanes);
    values[LaneStart(lane, |values|, lanes)..LaneStart(lane + 1, |values|, lanes)]
  }

  function Concatenated<T>(pieces: seq<seq<T>>): seq<T> {
    if pieces == [] then [] else pieces[0] + Concatenated(pieces[1..])
  }

  lemma {:induction false} ConcatenatedAppend<T>(pieces: seq<seq<T>>, last: seq<T>)
    ensures Concatenated(pieces + [last]) == Concatenated(pieces) + last
  {
    if pieces == [] {
    } else {
      assert (pieces + [last])[1..] == pieces[1..] + [last];
      ConcatenatedAppend(pieces[1..], last);
    }
  }

  lemma SliceAppended(values: seq<int>, slices: seq<seq<int>>, start: nat, end: nat)
    requires start <= end <= |values| && Concatenated(slices) == values[..start]
    ensures Concatenated(slices + [values[start..end]]) == values[..end]
  {
    ConcatenatedAppend(slices, values[start..end]);
    assert values[..start] + values[start..end] == values[..end];
  }

  lemma SliceOf(values: seq<int>, lanes: nat, lane: nat)
    requires lane < lanes
    ensures 0 <= LaneStart(lane, |values|, lanes) <= LaneStart(lane + 1, |values|, lanes) <= |values|
    ensures LaneSlice(values, lanes, lane)
         == values[LaneStart(lane, |values|, lanes)..LaneStart(lane + 1, |values|, lanes)]
  {
    hide LaneStart;
    LaneBounds(lane, |values|, lanes);
  }

  /** The first lanes have their slices, which end at the offset. */
  ghost predicate Sliced(values: seq<int>, lanes: nat, slices: seq<seq<int>>, offset: nat)
    requires |slices| <= lanes && lanes >= 1
  {
    && offset == LaneStart(|slices|, |values|, lanes) <= |values|
    && Concatenated(slices) == values[..offset]
    && forall lane | 0 <= lane < |slices| :: slices[lane] == LaneSlice(values, lanes, lane)
  }

  lemma SlicedNext(values: seq<int>, lanes: nat, slices: seq<seq<int>>, offset: nat, members: nat)
    requires |slices| < lanes && Sliced(values, lanes, slices, offset)
    requires members == |values| / lanes + if |slices| < |values| % lanes then 1 else 0
    ensures offset + members <= |values|
    ensures Sliced(values, lanes, slices + [values[offset..offset + members]], offset + members)
  {
    hide LaneStart, LaneSlice, Concatenated;
    LaneEnds(|slices|, |values|, lanes, offset, members);
    SliceOf(values, lanes, |slices|);
    SliceAppended(values, slices, offset, offset + members);
  }

  lemma LaneEnds(lane: nat, total: nat, lanes: nat, offset: nat, members: nat)
    requires lane < lanes && offset == LaneStart(lane, total, lanes)
    requires members == total / lanes + if lane < total % lanes then 1 else 0
    ensures offset + members == LaneStart(lane + 1, total, lanes) <= total
  {
    hide LaneStart;
    LaneStartGrows(lane, total, lanes);
    LaneStartBounded(lane + 1, total, lanes);
  }

  lemma SlicedAll(values: seq<int>, slices: seq<seq<int>>, offset: nat)
    requires 1 <= |slices| <= |values| && Sliced(values, |slices|, slices, offset)
    ensures Concatenated(slices) == values
    ensures forall i, j | 0 <= i < j < |slices| :: |slices[j]| <= |slices[i]| <= |slices[j]| + 1
    ensures forall lane | 0 <= lane < |slices| :: |slices[lane]| >= 1
  {
    var lanes := |slices|;
    LaneStartBounded(lanes, |values|, lanes);
    assert values[..|values|] == values;
    AtLeastOneEach(|values|, lanes);
    hide LaneStart, LaneSlice;
    forall lane | 0 <= lane < lanes
      ensures |slices[lane]| == |values| / lanes + if lane < |values| % lanes then 1 else 0
    {
      LaneStartGrows(lane, |values|, lanes);
    }
  }

  lemma AtLeastOneEach(total: nat, lanes: nat)
    requires 1 <= lanes <= total
    ensures total / lanes >= 1
  {
  }

  /**
    The slices a for_each gives its lanes: one running offset, sizes that differ by at most
    one with the larger ones first, and together exactly the values in order.
   */
  method LaneSlices(values: seq<int>, parallelism: nat) returns (slices: seq<seq<int>>)
    requires values != [] && parallelism >= 1
    ensures |slices| == LaneCount(values, parallelism)
            == (if parallelism <= |values| then parallelism else |values|) >= 1
    ensures Concatenated(slices) == values
    ensures forall lane | 0 <= lane < |slices| :: slices[lane] == LaneSlice(values, |slices|, lane)
    ensures forall i, j | 0 <= i < j < |slices| :: |slices[j]| <= |slices[i]| <= |slices[j]| + 1
    ensures forall lane | 0 <= lane < |slices| :: |slices[lane]| >= 1
  {
    var lanes := LaneCount(values, parallelism);
    var size, extra := |values| / lanes, |values| % lanes;
    slices := [];
    var offset: nat := 0;
    assert Sliced(values, lanes, slices, offset);
    hide Sliced;
    for lane := 0 to lanes
      invariant |slices| == lane && Sliced(values, lanes, slices, offset)
    {
      var members := size + if lane < extra then 1 else 0;
      SlicedEach(values, lanes, slices, offset);
      SlicedNext(values, lanes, slices, offset, members);
      slices := slices + [values[offset..offset + members]];
      offset := offset + members;
    }
    SlicedAll(values, slices, offset);
    SlicedEach(values, lanes, slices, offset);
  }

  lemma SlicedEach(values: seq<int>, lanes: nat, slices: seq<seq<int>>, offset: nat)
    requires |slices| <= lanes && lanes >= 1 && Sliced(values, lanes, slices, offset)
    ensures offset <= |values| && forall lane | 0 <= lane < |slices| :: slices[lane] == LaneSlice(values, lanes, lane)
  {
  }

  function BindMembers(body: Node, variable: string, values: seq<int>, next: nat): (members: Outcome<seq<Node>>)
    ensures members.Accepted? ==>
              && |members.value| == |values|
              && MaxHeight(members.value) <= 1 + body.Height()
              && (forall member | member in members.value :: member.Sequence?)
              && (body.WellFormed() ==> forall member | member in members.value :: member.WellFormed())
              && (body.Free() ==> forall member | member in members.value :: member.Free())
  {
    if values == [] then Accepted([])
    else
      var bound :- Bind(body, variable, values[0]);
      var rest :- BindMembers(body, variable, values[1..], next + 1);
      var member := Sequence("member_" + Padded(next), NO_DELAY, [bound]);
      assert [bound][1..] == [];
      assert MaxHeight([bound]) == bound.Height();
      assert ([member] + rest)[1..] == rest;
      Accepted([member] + rest)
  }

  function LaneNode(lane: nat, members: seq<Node>): Node {
    Sequence("lane_" + Padded(lane + 1), NO_DELAY, members)
  }

  /** The lanes of a for_each from `lane` on, as the serial nodes they are. */
  function LaneNodes(node: Node, lanes: nat, lane: nat): (nodes: Outcome<seq<Node>>)
    requires node.ForEach? && lane <= lanes
    ensures nodes.Accepted? ==>
              && |nodes.value| == lanes - lane
              && MaxHeight(nodes.value) <= 2 + node.body.Height()
              && (forall child | child in nodes.value :: child.Sequence?)
              && (node.WellFormed() ==> forall child | child in nodes.value :: child.WellFormed())
              && (node.Free() ==> forall child | child in nodes.value :: child.Free())
    decreases lanes - lane
  {
    if lane == lanes then Accepted([])
    else
      var members :- BindMembers(node.body, node.variable, LaneSlice(node.values, lanes, lane), 1);
      var rest :- LaneNodes(node, lanes, lane + 1);
      var first := LaneNode(lane, members);
      assert ([first] + rest)[1..] == rest;
      Accepted([first] + rest)
  }

  // ---------------------------------------------------------------- parts

  /** One nested node together with the path its names are qualified with. */
  datatype Part = Part(node: Node, path: seq<string>)

  function PartHeight(parts: seq<Part>): (height: nat)
    ensures forall part | part in parts :: part.node.Height() <= height
  {
    if parts == [] then 0
    else
      var rest := PartHeight(parts[1..]);
      var first := parts[0].node.Height();
      assert forall part | part in parts :: part == parts[0] || part in parts[1..];
      if first > rest then first else rest
  }

  lemma PartHeightBelow(parts: seq<Part>, bound: nat)
    requires 0 < bound && forall part | part in parts :: part.node.Height() < bound
    ensures PartHeight(parts) < bound
  {
  }

  function AtPath(nodes: seq<Node>, path: seq<string>): (parts: seq<Part>) {
    seq(|nodes|, i requires 0 <= i < |nodes| => Part(nodes[i], path))
  }

  function Numbered(node: Node, count: nat, path: seq<string>): (parts: seq<Part>) {
    seq(count, i requires 0 <= i < count => Part(node, path + [Digits(i + 1)]))
  }

  /** What a composite node expands, in order: the loop of each node class without its effects. */
  function Parts(node: Node, dimensions: Dimensions, path: seq<string>): (parts: Outcome<seq<Part>>)
    requires !node.Leaf?
    ensures parts.Accepted? ==>
              && (forall part | part in parts.value :: part.node.Height() < node.Height())
              && (node.WellFormed() ==> forall part | part in parts.value :: part.node.WellFormed())
              && (node.Free() ==> forall part | part in parts.value :: part.node.Free())
              && (node.WellFormed() && node.Parallel() ==> parts.value != [])
  {
    var nested := path + [node.name];
    match node
    case Repeat(_, count, _, body) =>
      var total :- count.Resolve(dimensions);
      if 0 <= total <= MAX_REPEAT_COUNT then Accepted(Numbered(body, total, nested)) else Rejected
    case Branches(_, _, branches) => Accepted(AtPath(branches, nested))
    case Copies(_, _, count, body) =>
      var total :- count.Resolve(dimensions);
      if 1 <= total <= MAX_NODES_PER_INSTANCE then Accepted(Numbered(body, total, nested)) else Rejected
    case Sequence(_, _, steps) => Accepted(AtPath(steps, nested))
    case ForEach(_, _, values, parallelism, _, _) =>
      var lanes :- LaneNodes(node, LaneCount(values, parallelism), 0);
      assert forall lane | lane in lanes :: lane.Height() <= MaxHeight(lanes);
      Accepted(AtPath(lanes, nested))
  }

  /** The delay a node declares: `every` of a repeat, `after` of all others. */
  function OwnDelay(node: Node, dimensions: Dimensions): (delay: Outcome<real>)
    ensures delay.Accepted? ==> delay.value >= 0.0
  {
    if node.Repeat? then node.every.Resolve(dimensions) else node.after.Resolve(dimensions)
  }

  /** A sequence gives its own delay to its first step only; a repeat gives it to every iteration. */
  function LaterDelay(node: Node, own: real): real {
    if node.Sequence? then 0.0 else own
  }
}
