/** Binding a loop variable in a node is the same as expanding the node with that dimension set. */
module LoopBinding {
  import opened Outcomes
  import opened TaskNodes
  import opened Expansion

  // ------------------------------------------------ one variable

  lemma ScalarBound(scalar: Scalar, variable: string, value: int, dimensions: Dimensions)
    ensures scalar.Bind(variable, value).Resolve(dimensions) == scalar.Resolve(dimensions[variable := value])
  {
  }

  lemma DurationBound(duration: Duration, variable: string, value: int, dimensions: Dimensions)
    ensures duration.Bind(variable, value).Resolve(dimensions) == duration.Resolve(dimensions[variable := value])
  {
    hide InSeconds;
  }

  lemma {:induction false} BindAllAt(nodes: seq<Node>, variable: string, value: int, bound: seq<Node>)
    requires BindAll(nodes, variable, value) == Accepted(bound)
    ensures |bound| == |nodes|
    ensures forall i | 0 <= i < |nodes| :: Bind(nodes[i], variable, value) == Accepted(bound[i])
  {
    hide Bind;
    if nodes != [] {
      BindAllAt(nodes[1..], variable, value, bound[1..]);
    }
  }

  // ------------------------------------------------ two variables

  lemma ValuesCommute(v: string, x: int, w: string, y: int)
    requires v != w
    ensures forall scalar: Scalar :: scalar.Bind(w, y).Bind(v, x) == scalar.Bind(v, x).Bind(w, y)
    ensures forall duration: Duration :: duration.Bind(w, y).Bind(v, x) == duration.Bind(v, x).Bind(w, y)
  {
  }

  /** The two outcomes of binding both variables, in either order. */
  ghost predicate Commutes(one: Outcome<Node>, inner: Node, v: string, x: int, w: string, y: int) {
    match one
    case Accepted(other) => Bind(other, v, x).Accepted? && Bind(other, v, x) == Bind(inner, w, y)
    case Rejected => Bind(inner, w, y).Rejected?
  }

  lemma {:induction false} BindCommutes(node: Node, v: string, x: int, w: string, y: int, inner: Node)
    requires v != w && Bind(node, v, x) == Accepted(inner)
    ensures Commutes(Bind(node, w, y), inner, v, x, w, y)
    decreases node.Height(), 0
  {
    hide BindAll, Scalar.Bind, Duration.Bind;
    ValuesCommute(v, x, w, y);
    match node
    case Leaf(_, _, _, _) =>
    case Repeat(_, _, _, body) => BindCommutes(body, v, x, w, y, inner.body);
    case Copies(_, _, _, body) => BindCommutes(body, v, x, w, y, inner.body);
    case ForEach(_, _, _, _, _, body) => BindCommutes(body, v, x, w, y, inner.body);
    case Branches(_, _, branches) => AllCommute(branches, v, x, w, y, inner.branches);
    case Sequence(_, _, steps) => AllCommute(steps, v, x, w, y, inner.steps);
  }

  lemma CommutesAgree(one: Outcome<Node>, inner: Node, v: string, x: int, w: string, y: int)
    requires Commutes(one, inner, v, x, w, y)
    ensures one.Rejected? ==> Bind(inner, w, y).Rejected?
    ensures one.Accepted? ==> Bind(one.value, v, x).Accepted? && Bind(one.value, v, x) == Bind(inner, w, y)
  {
  }

  ghost predicate AllCommuted(one: Outcome<seq<Node>>, inner: seq<Node>, v: string, x: int, w: string, y: int) {
    match one
    case Accepted(other) => BindAll(other, v, x).Accepted? && BindAll(other, v, x) == BindAll(inner, w, y)
    case Rejected => BindAll(inner, w, y).Rejected?
  }

  lemma {:induction false} AllCommute(nodes: seq<Node>, v: string, x: int, w: string, y: int, inner: seq<Node>)
    requires v != w && BindAll(nodes, v, x) == Accepted(inner)
    ensures AllCommuted(BindAll(nodes, w, y), inner, v, x, w, y)
    decreases MaxHeight(nodes), |nodes| + 1
  {
    hide Bind, Commutes;
    if nodes != [] {
      BindCommutes(nodes[0], v, x, w, y, inner[0]);
      AllCommute(nodes[1..], v, x, w, y, inner[1..]);
      var first, rest := Bind(nodes[0], w, y), BindAll(nodes[1..], w, y);
      CommutesAgree(first, inner[0], v, x, w, y);
      if first.Accepted? && rest.Accepted? {
        assert ([first.value] + rest.value)[1..] == rest.value;
      }
    }
  }

  // ------------------------------------------------ the parts of a bound node

  /** Node by node, one list is the other with the variable bound. */
  ghost predicate AllBound(nodes: seq<Node>, bound: seq<Node>, variable: string, value: int) {
    |bound| == |nodes| && forall i | 0 <= i < |nodes| :: Bind(nodes[i], variable, value) == Accepted(bound[i])
  }

  /** Two expansions of a list of nodes: refused both, or one the other with the variable bound. */
  ghost predicate ListsMatch(nodes: Outcome<seq<Node>>, bound: Outcome<seq<Node>>, variable: string, value: int) {
    match nodes
    case Accepted(list) => bound.Accepted? && AllBound(list, bound.value, variable, value)
    case Rejected => bound.Rejected?
  }

  lemma AllBoundCons(first: Node, rest: seq<Node>, boundFirst: Node, boundRest: seq<Node>, variable: string, value: int)
    requires Bind(first, variable, value) == Accepted(boundFirst) && AllBound(rest, boundRest, variable, value)
    ensures AllBound([first] + rest, [boundFirst] + boundRest, variable, value)
  {
    hide Bind;
  }

  /** A wrapping sequence without a delay of its own binds like the list inside. */
  lemma WrappedBound(name: string, steps: seq<Node>, bound: seq<Node>, variable: string, value: int)
    requires AllBound(steps, bound, variable, value)
    ensures Bind(Sequence(name, NO_DELAY, steps), variable, value) == Accepted(Sequence(name, NO_DELAY, bound))
  {
    hide BindAll, AllBound;
    AllBoundIsBindAll(steps, bound, variable, value);
  }

  lemma {:induction false} AllBoundIsBindAll(nodes: seq<Node>, bound: seq<Node>, variable: string, value: int)
    requires AllBound(nodes, bound, variable, value)
    ensures BindAll(nodes, variable, value) == Accepted(bound)
  {
    hide Bind;
    if nodes != [] {
      AllBoundIsBindAll(nodes[1..], bound[1..], variable, value);
      assert [bound[0]] + bound[1..] == bound;
    }
  }

  lemma {:induction false} MembersMatch(body: Node, inner: Node, loop: string, values: seq<int>, next: nat,
                                        variable: string, value: int)
    requires variable != loop && Bind(body, variable, value) == Accepted(inner)
    ensures ListsMatch(BindMembers(body, loop, values, next), BindMembers(inner, loop, values, next), variable, value)
  {
    hide Bind, AllBound, Commutes;
    if values == [] {
      NoneBound(variable, value);
    } else {
      BindCommutes(body, variable, value, loop, values[0], inner);
      CommutesAgree(Bind(body, loop, values[0]), inner, variable, value, loop, values[0]);
      MembersMatch(body, inner, loop, values[1..], next + 1, variable, value);
      var one, other := Bind(body, loop, values[0]), Bind(inner, loop, values[0]);
      var rest, others := BindMembers(body, loop, values[1..], next + 1),
        BindMembers(inner, loop, values[1..], next + 1);
      if one.Accepted? && rest.Accepted? {
        var name := "member_" + Padded(next);
        OneBound(one.value, other.value, variable, value);
        WrappedBound(name, [one.value], [other.value], variable, value);
        AllBoundCons(Sequence(name, NO_DELAY, [one.value]), rest.value, Sequence(name, NO_DELAY, [other.value]),
                     others.value, variable, value);
      }
    }
  }

  lemma NoneBound(variable: string, value: int)
    ensures AllBound([], [], variable, value)
  {
  }

  lemma OneBound(node: Node, bound: Node, variable: string, value: int)
    requires Bind(node, variable, value) == Accepted(bound)
    ensures AllBound([node], [bound], variable, value)
  {
  }

  lemma {:induction false} LanesMatch(node: Node, bound: Node, lanes: nat, lane: nat, variable: string, value: int)
    requires node.ForEach? && Bind(node, variable, value) == Accepted(bound) && lane <= lanes
    ensures bound.ForEach? && ListsMatch(LaneNodes(node, lanes, lane), LaneNodes(bound, lanes, lane), variable, value)
    decreases lanes - lane
  {
    hide AllBound, BindMembers, LaneSlice, Padded;
    if lane == lanes {
      NoneBound(variable, value);
    } else {
      LanesMatch(node, bound, lanes, lane + 1, variable, value);
      var slice := LaneSlice(node.values, lanes, lane);
      MembersMatch(node.body, bound.body, node.variable, slice, 1, variable, value);
      hide Bind;
      var members := BindMembers(node.body, node.variable, slice, 1);
      var others := BindMembers(bound.body, node.variable, slice, 1);
      var rest, restBound := LaneNodes(node, lanes, lane + 1), LaneNodes(bound, lanes, lane + 1);
      if members.Accepted? && rest.Accepted? {
        WrappedBound("lane_" + Padded(lane + 1), members.value, others.value, variable, value);
        AllBoundCons(LaneNode(lane, members.value), rest.value, LaneNode(lane, others.value), restBound.value,
                     variable, value);
      }
    }
  }

  ghost predicate PartsBound(parts: seq<Part>, bound: seq<Part>, variable: string, value: int) {
    |bound| == |parts|
    && forall i | 0 <= i < |parts| ::
         bound[i].path == parts[i].path && Bind(parts[i].node, variable, value) == Accepted(bound[i].node)
  }

  ghost predicate PartsMatch(parts: Outcome<seq<Part>>, bound: Outcome<seq<Part>>, variable: string, value: int) {
    match parts
    case Accepted(list) => bound.Accepted? && PartsBound(list, bound.value, variable, value)
    case Rejected => bound.Rejected?
  }

  lemma AtPathBound(nodes: seq<Node>, bound: seq<Node>, path: seq<string>, variable: string, value: int)
    requires AllBound(nodes, bound, variable, value)
    ensures PartsBound(AtPath(nodes, path), AtPath(bound, path), variable, value)
  {
    hide Bind;
  }

  lemma NodesMatch(nodes: Outcome<seq<Node>>, bound: Outcome<seq<Node>>, path: seq<string>, variable: string,
                   value: int)
    requires ListsMatch(nodes, bound, variable, value)
    ensures nodes.Accepted? <==> bound.Accepted?
    ensures nodes.Accepted? ==> PartsBound(AtPath(nodes.value, path), AtPath(bound.value, path), variable, value)
  {
    if nodes.Accepted? {
      AtPathBound(nodes.value, bound.value, path, variable, value);
    }
  }

  lemma NumberedBound(body: Node, inner: Node, count: nat, path: seq<string>, variable: string, value: int)
    requires Bind(body, variable, value) == Accepted(inner)
    ensures PartsBound(Numbered(body, count, path), Numbered(inner, count, path), variable, value)
  {
  }

  /** A bound node has the parts of the node itself under the extended dimensions, each of them bound. */
  lemma PartsOfBound(node: Node, bound: Node, variable: string, value: int, dimensions: Dimensions, path: seq<string>)
    requires !node.Leaf? && Bind(node, variable, value) == Accepted(bound)
    ensures !bound.Leaf? && bound.Serial() == node.Serial()
    ensures PartsMatch(Parts(node, dimensions[variable := value], path), Parts(bound, dimensions, path), variable,
                       value)
  {
    hide PartsBound, LaneNodes, Scalar.Bind, Scalar.Resolve, Numbered;
    var nested := path + [node.name];
    match node
    case Repeat(_, count, _, body) =>
      ScalarBound(count, variable, value, dimensions);
      var total := count.Resolve(dimensions[variable := value]);
      if total.Accepted? && total.value >= 0 {
        NumberedBound(node.body, bound.body, total.value, nested, variable, value);
      }
    case Copies(_, _, count, body) =>
      ScalarBound(count, variable, value, dimensions);
      var total := count.Resolve(dimensions[variable := value]);
      if total.Accepted? && total.value >= 0 {
        NumberedBound(node.body, bound.body, total.value, nested, variable, value);
      }
    case Branches(_, _, branches) =>
      BindAllAt(branches, variable, value, bound.branches);
      AtPathBound(branches, bound.branches, nested, variable, value);
    case Sequence(_, _, steps) =>
      BindAllAt(steps, variable, value, bound.steps);
      AtPathBound(steps, bound.steps, nested, variable, value);
    case ForEach(_, _, values, parallelism, _, _) =>
      var lanes := LaneCount(values, parallelism);
      LanesMatch(node, bound, lanes, 0, variable, value);
      NodesMatch(LaneNodes(node, lanes, 0), LaneNodes(bound, lanes, 0), nested, variable, value);
  }

  // ------------------------------------------------ expansion

  lemma OwnDelayBound(node: Node, bound: Node, variable: string, value: int, dimensions: Dimensions)
    requires Bind(node, variable, value) == Accepted(bound)
    ensures OwnDelay(bound, dimensions) == OwnDelay(node, dimensions[variable := value])
    ensures forall own :: LaterDelay(bound, own) == LaterDelay(node, own)
  {
    hide Duration.Resolve, Duration.Bind, BindAll;
    DurationBound(if node.Repeat? then node.every else node.after, variable, value, dimensions);
  }

  lemma LeafBound(node: Node, bound: Node, variable: string, value: int, dimensions: Dimensions, rows: seq<Row>,
                  frontier: seq<string>, path: seq<string>, inherited: real)
    requires node.Leaf? && Bind(node, variable, value) == Accepted(bound)
    ensures Expand(bound, dimensions, rows, frontier, path, inherited)
         == Expand(node, dimensions[variable := value], rows, frontier, path, inherited)
  {
    hide Emittable, OwnDelay;
    OwnDelayBound(node, bound, variable, value, dimensions);
    assert forall delay :: LeafRow(bound, path, frontier, delay) == LeafRow(node, path, frontier, delay);
  }

  lemma NoPartsNoRows(node: Node, dimensions: Dimensions, rows: seq<Row>, frontier: seq<string>, path: seq<string>,
                      inherited: real)
    requires !node.Leaf? && Parts(node, dimensions, path).Rejected?
    ensures Expand(node, dimensions, rows, frontier, path, inherited).Rejected?
  {
    hide Parts, OwnDelay;
  }

  /**
    Substitution means evaluation: the bound node expands, or is refused, exactly as the node itself does
    once the loop variable is a dimension with that value.
   */
  lemma {:induction false} BindingIsADimension(
      node: Node, bound: Node, variable: string, value: int, dimensions: Dimensions, rows: seq<Row>,
      frontier: seq<string>, path: seq<string>, inherited: real)
    requires Bind(node, variable, value) == Accepted(bound)
    ensures Expand(bound, dimensions, rows, frontier, path, inherited)
         == Expand(node, dimensions[variable := value], rows, frontier, path, inherited)
    decreases node.Height(), 0
  {
    hide Expand, Bind, Parts, OwnDelay, LaterDelay, ExpandSerial, ExpandParallel, PartsBound;
    var extended := dimensions[variable := value];
    OwnDelayBound(node, bound, variable, value, dimensions);
    KeepsKind(node, bound, variable, value);
    if node.Leaf? {
      LeafBound(node, bound, variable, value, dimensions, rows, frontier, path, inherited);
    } else {
      PartsOfBound(node, bound, variable, value, dimensions, path);
      var parts, others := Parts(node, extended, path), Parts(bound, dimensions, path);
      var own := OwnDelay(node, extended);
      if parts.Accepted? {
        ExpandIs(node, extended, rows, frontier, path, inherited, parts.value);
        ExpandIs(bound, dimensions, rows, frontier, path, inherited, others.value);
      } else {
        NoPartsNoRows(node, extended, rows, frontier, path, inherited);
        NoPartsNoRows(bound, dimensions, rows, frontier, path, inherited);
      }
      if parts.Accepted? && own.Accepted? {
        PartHeightBelow(parts.value, node.Height());
        if node.Serial() {
          SerialBound(parts.value, others.value, variable, value, dimensions, rows, frontier, inherited + own.value,
                      LaterDelay(node, own.value));
        } else {
          ParallelBound(parts.value, others.value, variable, value, dimensions, rows, frontier, inherited + own.value);
        }
      }
    }
  }

  lemma KeepsKind(node: Node, bound: Node, variable: string, value: int)
    requires Bind(node, variable, value) == Accepted(bound)
    ensures bound.Leaf? == node.Leaf? && bound.Serial() == node.Serial() && bound.name == node.name
  {
  }

  lemma FirstBound(parts: seq<Part>, bound: seq<Part>, variable: string, value: int)
    requires PartsBound(parts, bound, variable, value)
    ensures |bound| == |parts|
    ensures parts != [] ==>
              && bound[0].path == parts[0].path && Bind(parts[0].node, variable, value) == Accepted(bound[0].node)
              && PartsBound(parts[1..], bound[1..], variable, value)
  {
    hide Bind;
  }

  lemma {:induction false} SerialBound(
      parts: seq<Part>, bound: seq<Part>, variable: string, value: int, dimensions: Dimensions, rows: seq<Row>,
      frontier: seq<string>, first: real, later: real)
    requires PartsBound(parts, bound, variable, value)
    ensures ExpandSerial(bound, dimensions, rows, frontier, first, later)
         == ExpandSerial(parts, dimensions[variable := value], rows, frontier, first, later)
    decreases PartHeight(parts), |parts| + 1
  {
    hide Bind, Expand, PartsBound;
    FirstBound(parts, bound, variable, value);
    if parts != [] {
      BindingIsADimension(parts[0].node, bound[0].node, variable, value, dimensions, rows, frontier, parts[0].path,
                          first);
      var head := Expand(bound[0].node, dimensions, rows, frontier, parts[0].path, first);
      if head.Accepted? {
        SerialBound(parts[1..], bound[1..], variable, value, dimensions, head.value.rows, head.value.frontier, later,
                    later);
      }
    }
  }

  lemma {:induction false} ParallelBound(
      parts: seq<Part>, bound: seq<Part>, variable: string, value: int, dimensions: Dimensions, rows: seq<Row>,
      frontier: seq<string>, delay: real)
    requires PartsBound(parts, bound, variable, value)
    ensures ExpandParallel(bound, dimensions, rows, frontier, delay)
         == ExpandParallel(parts, dimensions[variable := value], rows, frontier, delay)
    decreases PartHeight(parts), |parts| + 1
  {
    hide Bind, Expand, PartsBound;
    FirstBound(parts, bound, variable, value);
    if parts != [] {
      BindingIsADimension(parts[0].node, bound[0].node, variable, value, dimensions, rows, frontier, parts[0].path,
                          delay);
      var head := Expand(bound[0].node, dimensions, rows, frontier, parts[0].path, delay);
      if head.Accepted? {
        ParallelBound(parts[1..], bound[1..], variable, value, dimensions, head.value.rows, frontier, delay);
      }
    }
  }

  // ------------------------------------------------ when binding is refused

  /** Some loop inside has the variable for its own. */
  predicate Shadowed(node: Node, variable: string) {
    match node
    case Leaf(_, _, _, _) => false
    case Repeat(_, _, _, body) => Shadowed(body, variable)
    case Branches(_, _, branches) => exists branch | branch in branches :: Shadowed(branch, variable)
    case Copies(_, _, _, body) => Shadowed(body, variable)
    case Sequence(_, _, steps) => exists step | step in steps :: Shadowed(step, variable)
    case ForEach(_, loop, _, _, _, body) => loop == variable || Shadowed(body, variable)
  }

  lemma {:induction false} RefusedExactlyShadowed(node: Node, variable: string, value: int)
    ensures Bind(node, variable, value).Rejected? <==> Shadowed(node, variable)
    decreases node.Height(), 0
  {
    hide BindAll;
    match node
    case Leaf(_, _, _, _) =>
    case Repeat(_, _, _, body) => RefusedExactlyShadowed(body, variable, value);
    case Copies(_, _, _, body) => RefusedExactlyShadowed(body, variable, value);
    case ForEach(_, _, _, _, _, body) => RefusedExactlyShadowed(body, variable, value);
    case Branches(_, _, branches) => AllRefused(branches, variable, value);
    case Sequence(_, _, steps) => AllRefused(steps, variable, value);
  }

  lemma {:induction false} AllRefused(nodes: seq<Node>, variable: string, value: int)
    ensures BindAll(nodes, variable, value).Rejected? <==> exists node | node in nodes :: Shadowed(node, variable)
    decreases MaxHeight(nodes), |nodes| + 1
  {
    hide Bind, Shadowed;
    if nodes != [] {
      RefusedExactlyShadowed(nodes[0], variable, value);
      AllRefused(nodes[1..], variable, value);
      assert forall node :: node in nodes <==> node == nodes[0] || node in nodes[1..];
    }
  }
}
