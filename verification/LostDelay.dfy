/** Declared delays that reach no row: exactly when a node drops the delay it inherits. */
module LostDelay {
  import opened Outcomes
  import opened TaskNodes
  import opened Expansion
  import opened StructuralSpan
  import opened TaskCompiler

  /**
    An inherited delay goes to the first part of a serial node, and is lost there when there is none or
    that one drops it; it goes to all parts of a parallel node.
   */
  predicate Drops(node: Node, dimensions: Dimensions, path: seq<string>)
    decreases node.Height()
  {
    !node.Leaf? && Parts(node, dimensions, path).Accepted?
    && var parts := Parts(node, dimensions, path).value;
       if node.Serial() then parts == [] || Drops(parts[0].node, dimensions, parts[0].path)
       else forall part | part in parts :: Drops(part.node, dimensions, part.path)
  }

  // ------------------------------------------------ the rows of a node that drops its delay

  lemma {:induction false} DroppedIsIgnored(
      node: Node, dimensions: Dimensions, rows: seq<Row>, frontier: seq<string>, path: seq<string>, a: real, b: real)
    requires Drops(node, dimensions, path)
    ensures Expand(node, dimensions, rows, frontier, path, a) == Expand(node, dimensions, rows, frontier, path, b)
    decreases node.Height(), 0
  {
    hide Expand, Parts, OwnDelay, LaterDelay, ExpandSerial, ExpandParallel;
    var own, parts := OwnDelay(node, dimensions), Parts(node, dimensions, path).value;
    PartHeightBelow(parts, node.Height());
    ExpandIs(node, dimensions, rows, frontier, path, a, parts);
    ExpandIs(node, dimensions, rows, frontier, path, b, parts);
    if own.Accepted? {
      if node.Serial() {
        SerialIgnores(parts, dimensions, rows, frontier, a + own.value, b + own.value, LaterDelay(node, own.value));
      } else {
        ParallelIgnores(parts, dimensions, rows, frontier, a + own.value, b + own.value);
      }
    }
  }

  lemma SerialIgnores(parts: seq<Part>, dimensions: Dimensions, rows: seq<Row>, frontier: seq<string>, a: real, b: real,
                      later: real)
    requires parts == [] || Drops(parts[0].node, dimensions, parts[0].path)
    ensures ExpandSerial(parts, dimensions, rows, frontier, a, later)
         == ExpandSerial(parts, dimensions, rows, frontier, b, later)
    decreases PartHeight(parts), |parts|
  {
    hide Drops, Expand;
    if parts != [] {
      DroppedIsIgnored(parts[0].node, dimensions, rows, frontier, parts[0].path, a, b);
    }
  }

  lemma {:induction false} ParallelIgnores(
      parts: seq<Part>, dimensions: Dimensions, rows: seq<Row>, frontier: seq<string>, a: real, b: real)
    requires forall part | part in parts :: Drops(part.node, dimensions, part.path)
    ensures ExpandParallel(parts, dimensions, rows, frontier, a) == ExpandParallel(parts, dimensions, rows, frontier, b)
    decreases PartHeight(parts), |parts|
  {
    hide Drops, Expand;
    if parts != [] {
      DroppedIsIgnored(parts[0].node, dimensions, rows, frontier, parts[0].path, a, b);
      var head := Expand(parts[0].node, dimensions, rows, frontier, parts[0].path, a);
      if head.Accepted? {
        ParallelIgnores(parts[1..], dimensions, head.value.rows, frontier, a, b);
      }
    }
  }

  // ------------------------------------------------ the rows of any other node

  /** Some row that both expansions have in the same place starts after different delays. */
  ghost predicate Differ(one: Grown, other: Grown) {
    exists i :: 0 <= i < |one.rows| && i < |other.rows| && one.rows[i].after != other.rows[i].after
  }

  lemma DifferLater(one: Grown, other: Grown, longer: Grown, another: Grown)
    requires Differ(one, other) && one.rows <= longer.rows && other.rows <= another.rows
    ensures Differ(longer, another)
  {
    var i :| 0 <= i < |one.rows| && i < |other.rows| && one.rows[i].after != other.rows[i].after;
    assert longer.rows[i] == one.rows[i] && another.rows[i] == other.rows[i];
  }

  lemma {:induction false} KeptIsUsed(
      node: Node, dimensions: Dimensions, rows: seq<Row>, frontier: seq<string>, path: seq<string>, a: real, b: real,
      one: Grown, other: Grown)
    requires node.WellFormed() && !Drops(node, dimensions, path) && a != b
    requires Expand(node, dimensions, rows, frontier, path, a) == Accepted(one)
    requires Expand(node, dimensions, rows, frontier, path, b) == Accepted(other)
    ensures Differ(one, other)
    decreases node.Height(), 0
  {
    hide Parts, OwnDelay, LaterDelay, ExpandSerial, ExpandParallel, Differ;
    if node.Leaf? {
      LeavesDiffer(node, dimensions, rows, frontier, path, a, b, one, other);
    } else {
      var parts, first, later := ExpandUnfolds(node, dimensions, rows, frontier, path, a, one);
      var same, second, rest := ExpandUnfolds(node, dimensions, rows, frontier, path, b, other);
      if node.Serial() {
        SerialUses(parts, dimensions, rows, frontier, first, second, later, one, other);
      } else {
        ParallelUses(parts, dimensions, rows, frontier, first, second, one, other);
      }
    }
  }

  lemma LeavesDiffer(leaf: Node, dimensions: Dimensions, rows: seq<Row>, frontier: seq<string>, path: seq<string>,
                     a: real, b: real, one: Grown, other: Grown)
    requires leaf.Leaf? && a != b
    requires Expand(leaf, dimensions, rows, frontier, path, a) == Accepted(one)
    requires Expand(leaf, dimensions, rows, frontier, path, b) == Accepted(other)
    ensures Differ(one, other)
  {
    var own := OwnDelay(leaf, dimensions).value;
    assert one.rows[|rows|] == LeafRow(leaf, path, frontier, a + own);
    assert other.rows[|rows|] == LeafRow(leaf, path, frontier, b + own);
  }

  lemma SerialUses(parts: seq<Part>, dimensions: Dimensions, rows: seq<Row>, frontier: seq<string>, a: real, b: real,
                   later: real, one: Grown, other: Grown)
    requires parts != [] && parts[0].node.WellFormed() && a != b
    requires !Drops(parts[0].node, dimensions, parts[0].path)
    requires ExpandSerial(parts, dimensions, rows, frontier, a, later) == Accepted(one)
    requires ExpandSerial(parts, dimensions, rows, frontier, b, later) == Accepted(other)
    ensures Differ(one, other)
    decreases PartHeight(parts), |parts|
  {
    hide Drops, Expand, Differ;
    var mine := Expand(parts[0].node, dimensions, rows, frontier, parts[0].path, a).value;
    var theirs := Expand(parts[0].node, dimensions, rows, frontier, parts[0].path, b).value;
    KeptIsUsed(parts[0].node, dimensions, rows, frontier, parts[0].path, a, b, mine, theirs);
    DifferLater(mine, theirs, one, other);
  }

  lemma {:induction false} ParallelUses(
      parts: seq<Part>, dimensions: Dimensions, rows: seq<Row>, frontier: seq<string>, a: real, b: real, one: Grown,
      other: Grown)
    requires (forall part | part in parts :: part.node.WellFormed()) && a != b
    requires exists part | part in parts :: !Drops(part.node, dimensions, part.path)
    requires ExpandParallel(parts, dimensions, rows, frontier, a) == Accepted(one)
    requires ExpandParallel(parts, dimensions, rows, frontier, b) == Accepted(other)
    ensures Differ(one, other)
    decreases PartHeight(parts), |parts|
  {
    hide Drops, Expand, Differ;
    var mine := Expand(parts[0].node, dimensions, rows, frontier, parts[0].path, a).value;
    var theirs := Expand(parts[0].node, dimensions, rows, frontier, parts[0].path, b).value;
    var myRest := ExpandParallel(parts[1..], dimensions, mine.rows, frontier, a).value;
    var theirRest := ExpandParallel(parts[1..], dimensions, theirs.rows, frontier, b).value;
    if Drops(parts[0].node, dimensions, parts[0].path) {
      DroppedIsIgnored(parts[0].node, dimensions, rows, frontier, parts[0].path, a, b);
      ParallelUses(parts[1..], dimensions, mine.rows, frontier, a, b, myRest, theirRest);
      DifferLater(myRest, theirRest, one, other);
    } else {
      KeptIsUsed(parts[0].node, dimensions, rows, frontier, parts[0].path, a, b, mine, theirs);
      DifferLater(mine, theirs, one, other);
    }
  }

  /**
    An accepted node expands to the same rows whatever delay it inherits exactly when it drops the delay;
    otherwise every other delay gives other rows.
   */
  lemma LostExactlyWhenDropped(
      node: Node, dimensions: Dimensions, rows: seq<Row>, frontier: seq<string>, path: seq<string>, a: real, b: real)
    requires node.WellFormed() && a != b
    requires Expand(node, dimensions, rows, frontier, path, a).Accepted?
    ensures Drops(node, dimensions, path)
       <==> Expand(node, dimensions, rows, frontier, path, a) == Expand(node, dimensions, rows, frontier, path, b)
  {
    hide Drops, Expand;
    var one := Expand(node, dimensions, rows, frontier, path, a);
    var other := Expand(node, dimensions, rows, frontier, path, b);
    if Drops(node, dimensions, path) {
      DroppedIsIgnored(node, dimensions, rows, frontier, path, a, b);
    } else if other.Accepted? {
      KeptIsUsed(node, dimensions, rows, frontier, path, a, b, one.value, other.value);
    }
  }

  // ------------------------------------------------ the same for structural durations

  lemma {:induction false} LastingIgnores(node: Node, dimensions: Dimensions, path: seq<string>, a: real, b: real)
    requires Drops(node, dimensions, path)
    ensures Lasting(node, dimensions, path, a) == Lasting(node, dimensions, path, b)
    decreases node.Height(), 0
  {
    hide Lasting, Parts, OwnDelay, LaterDelay, LastingSerial, LastingParallel;
    var own, parts := OwnDelay(node, dimensions), Parts(node, dimensions, path).value;
    PartHeightBelow(parts, node.Height());
    if own.Rejected? {
      NoDuration(node, dimensions, path, a);
      NoDuration(node, dimensions, path, b);
    } else {
      LastingUnfolds(node, dimensions, path, a, parts);
      LastingUnfolds(node, dimensions, path, b, parts);
      if node.Serial() {
        LastingSerialIgnores(parts, dimensions, a + own.value, b + own.value, LaterDelay(node, own.value));
      } else {
        LastingParallelIgnores(parts, dimensions, a + own.value, b + own.value);
      }
    }
  }

  lemma NoDuration(node: Node, dimensions: Dimensions, path: seq<string>, inherited: real)
    requires OwnDelay(node, dimensions).Rejected?
    ensures Lasting(node, dimensions, path, inherited) == 0.0
  {
    hide OwnDelay, Parts;
  }

  lemma LastingSerialIgnores(parts: seq<Part>, dimensions: Dimensions, a: real, b: real, later: real)
    requires parts == [] || Drops(parts[0].node, dimensions, parts[0].path)
    ensures LastingSerial(parts, dimensions, a, later) == LastingSerial(parts, dimensions, b, later)
    decreases PartHeight(parts), |parts|
  {
    hide Drops, Lasting;
    if parts != [] {
      LastingIgnores(parts[0].node, dimensions, parts[0].path, a, b);
    }
  }

  lemma {:induction false} LastingParallelIgnores(parts: seq<Part>, dimensions: Dimensions, a: real, b: real)
    requires forall part | part in parts :: Drops(part.node, dimensions, part.path)
    ensures LastingParallel(parts, dimensions, a) == LastingParallel(parts, dimensions, b)
    decreases PartHeight(parts), |parts|
  {
    hide Drops, Lasting;
    if parts != [] {
      LastingIgnores(parts[0].node, dimensions, parts[0].path, a, b);
      LastingParallelIgnores(parts[1..], dimensions, a, b);
    }
  }

  lemma {:induction false} LastingNonNegative(node: Node, dimensions: Dimensions, path: seq<string>, inherited: real)
    requires inherited >= 0.0
    ensures Lasting(node, dimensions, path, inherited) >= 0.0
    decreases node.Height(), 0
  {
    hide Parts, OwnDelay;
    var own := OwnDelay(node, dimensions);
    if own.Accepted? && !node.Leaf? && Parts(node, dimensions, path).Accepted? {
      var parts := Parts(node, dimensions, path).value;
      PartHeightBelow(parts, node.Height());
      if node.Serial() {
        LastingSerialNonNegative(parts, dimensions, inherited + own.value, LaterDelay(node, own.value));
      } else {
        LastingParallelNonNegative(parts, dimensions, inherited + own.value);
      }
    }
  }

  lemma {:induction false} LastingSerialNonNegative(parts: seq<Part>, dimensions: Dimensions, first: real, later: real)
    requires first >= 0.0 && later >= 0.0
    ensures LastingSerial(parts, dimensions, first, later) >= 0.0
    decreases PartHeight(parts), |parts|
  {
    hide Lasting;
    if parts != [] {
      LastingNonNegative(parts[0].node, dimensions, parts[0].path, first);
      LastingSerialNonNegative(parts[1..], dimensions, later, later);
    }
  }

  lemma {:induction false} LastingParallelNonNegative(parts: seq<Part>, dimensions: Dimensions, delay: real)
    requires delay >= 0.0
    ensures LastingParallel(parts, dimensions, delay) >= 0.0
    decreases PartHeight(parts), |parts|
  {
    hide Lasting;
    if parts != [] {
      LastingNonNegative(parts[0].node, dimensions, parts[0].path, delay);
      LastingParallelNonNegative(parts[1..], dimensions, delay);
    }
  }

  /** A node that does not drop its delay makes everything behind it wait at least as long. */
  lemma {:induction false} LastingCovers(
      node: Node, dimensions: Dimensions, rows: seq<Row>, frontier: seq<string>, path: seq<string>, delay: real,
      inherited: real, grown: Grown)
    requires node.WellFormed() && !Drops(node, dimensions, path) && inherited >= 0.0
    requires Expand(node, dimensions, rows, frontier, path, delay) == Accepted(grown)
    ensures Lasting(node, dimensions, path, inherited) >= inherited
    decreases node.Height(), 0
  {
    hide Parts, OwnDelay, ExpandSerial, ExpandParallel, LastingSerial, LastingParallel;
    var own := OwnDelay(node, dimensions);
    assert own.Accepted?;
    if !node.Leaf? {
      var parts, first, later := ExpandUnfolds(node, dimensions, rows, frontier, path, delay, grown);
      LastingUnfolds(node, dimensions, path, inherited, parts);
      if node.Serial() {
        SerialCovers(parts, dimensions, rows, frontier, first, inherited + own.value, LaterDelay(node, own.value),
                     grown);
      } else {
        ParallelCovers(parts, dimensions, rows, frontier, first, inherited + own.value, grown);
      }
    }
  }

  lemma SerialCovers(parts: seq<Part>, dimensions: Dimensions, rows: seq<Row>, frontier: seq<string>, delay: real,
                     first: real, later: real, grown: Grown)
    requires parts != [] && parts[0].node.WellFormed() && first >= 0.0 && later >= 0.0
    requires !Drops(parts[0].node, dimensions, parts[0].path)
    requires ExpandSerial(parts, dimensions, rows, frontier, delay, later) == Accepted(grown)
    ensures LastingSerial(parts, dimensions, first, later) >= first
    decreases PartHeight(parts), |parts|
  {
    hide Drops, Expand, Lasting;
    var head := Expand(parts[0].node, dimensions, rows, frontier, parts[0].path, delay).value;
    LastingCovers(parts[0].node, dimensions, rows, frontier, parts[0].path, delay, first, head);
    LastingSerialNonNegative(parts[1..], dimensions, later, later);
  }

  lemma {:induction false} ParallelCovers(
      parts: seq<Part>, dimensions: Dimensions, rows: seq<Row>, frontier: seq<string>, delay: real, inherited: real,
      grown: Grown)
    requires (forall part | part in parts :: part.node.WellFormed()) && inherited >= 0.0
    requires exists part | part in parts :: !Drops(part.node, dimensions, part.path)
    requires ExpandParallel(parts, dimensions, rows, frontier, delay) == Accepted(grown)
    ensures LastingParallel(parts, dimensions, inherited) >= inherited
    decreases PartHeight(parts), |parts|
  {
    hide Drops, Expand, Lasting;
    var head := Expand(parts[0].node, dimensions, rows, frontier, parts[0].path, delay).value;
    if Drops(parts[0].node, dimensions, parts[0].path) {
      var rest := ExpandParallel(parts[1..], dimensions, head.rows, frontier, delay).value;
      ParallelCovers(parts[1..], dimensions, head.rows, frontier, delay, inherited, rest);
    } else {
      LastingCovers(parts[0].node, dimensions, rows, frontier, parts[0].path, delay, inherited, head);
    }
  }

  /** An inherited delay does not count in the duration of an accepted node exactly when the node drops it. */
  lemma DurationIgnoresExactlyDropped(
      node: Node, dimensions: Dimensions, rows: seq<Row>, frontier: seq<string>, path: seq<string>, delay: real)
    requires node.WellFormed() && Expand(node, dimensions, rows, frontier, path, delay).Accepted?
    ensures Drops(node, dimensions, path)
       <==> forall a, b | a >= 0.0 && b >= 0.0 ::
              Lasting(node, dimensions, path, a) == Lasting(node, dimensions, path, b)
  {
    hide Drops, Expand, Lasting;
    if Drops(node, dimensions, path) {
      forall a, b | a >= 0.0 && b >= 0.0
        ensures Lasting(node, dimensions, path, a) == Lasting(node, dimensions, path, b)
      {
        LastingIgnores(node, dimensions, path, a, b);
      }
    } else {
      var grown := Expand(node, dimensions, rows, frontier, path, delay).value;
      var least := Lasting(node, dimensions, path, 0.0);
      LastingNonNegative(node, dimensions, path, 0.0);
      LastingCovers(node, dimensions, rows, frontier, path, delay, least + 1.0, grown);
    }
  }

  // ------------------------------------------------ a compiled graph

  const WORK := Leaf("a", Batch, NO_DELAY, [])
  const SKIPPED := Repeat("r", Literal(0), NO_DELAY, WORK)
  const DELAYED := Sequence("s", Fixed(5.0, 1.0), [SKIPPED, WORK])
  const WORK_ROW := Row("s.a", [], 0.0, Batch, [])

  /** A sequence declared to start after five seconds, whose first step repeats zero times, starts at once. */
  lemma DeclaredDelayIsLost()
    ensures Compile([DELAYED], map[]) == Accepted([WORK_ROW])
    ensures DELAYED.after.Resolve(map[]) == Accepted(5.0) && Drops(SKIPPED, map[], ["s"])
    ensures GraphLasting([DELAYED], map[]) == 0.0
  {
    hide Expand, Lasting;
    WorkAlone();
    SkippedNothing();
    var parts := AtPath([SKIPPED, WORK], ["s"]);
    assert parts == [Part(SKIPPED, ["s"]), Part(WORK, ["s"])];
    var rest := parts[1..];
    assert rest == [Part(WORK, ["s"])] && rest[1..] == [];
    var grown := Grown([WORK_ROW], ["s.a"]);
    assert ExpandSerial([], map[], grown.rows, grown.frontier, 0.0, 0.0) == Accepted(grown);
    assert ExpandSerial(rest, map[], [], [], 0.0, 0.0) == Accepted(grown);
    assert LastingSerial([], map[], 0.0, 0.0) == 0.0;
    assert LastingSerial(rest, map[], 0.0, 0.0) == 0.0;
    assert ExpandSerial(parts, map[], [], [], 5.0, 0.0) == Accepted(Grown([WORK_ROW], ["s.a"]));
    assert LastingSerial(parts, map[], 5.0, 0.0) == 0.0;
    DelayedRoot(parts);
    assert [WORK_ROW][..0] == [];
  }

  lemma DelayedRoot(parts: seq<Part>)
    requires parts == [Part(SKIPPED, ["s"]), Part(WORK, ["s"])]
    requires ExpandSerial(parts, map[], [], [], 5.0, 0.0) == Accepted(Grown([WORK_ROW], ["s.a"]))
    requires LastingSerial(parts, map[], 5.0, 0.0) == 0.0
    ensures ExpandSerial(AtPath([DELAYED], []), map[], [], [], 0.0, 0.0) == Accepted(Grown([WORK_ROW], ["s.a"]))
    ensures LastingSerial(AtPath([DELAYED], []), map[], 0.0, 0.0) == 0.0
  {
    hide ExpandSerial, LastingSerial;
    assert [] + ["s"] == ["s"] && AtPath([SKIPPED, WORK], ["s"]) == parts;
    assert Parts(DELAYED, map[], []) == Accepted(parts);
    assert OwnDelay(DELAYED, map[]) == Accepted(5.0);
    assert Expand(DELAYED, map[], [], [], [], 0.0) == Accepted(Grown([WORK_ROW], ["s.a"]));
    assert Lasting(DELAYED, map[], [], 0.0) == 0.0;
    OnlyRoot();
  }

  lemma OnlyRoot()
    ensures ExpandSerial(AtPath([DELAYED], []), map[], [], [], 0.0, 0.0) == Expand(DELAYED, map[], [], [], [], 0.0)
    ensures LastingSerial(AtPath([DELAYED], []), map[], 0.0, 0.0) == Lasting(DELAYED, map[], [], 0.0)
  {
    hide Expand, Lasting;
    assert AtPath([DELAYED], []) == [Part(DELAYED, [])];
    assert [Part(DELAYED, [])][1..] == [];
  }

  lemma WorkAlone()
    ensures Expand(WORK, map[], [], [], ["s"], 0.0) == Accepted(Grown([WORK_ROW], ["s.a"]))
    ensures Lasting(WORK, map[], ["s"], 0.0) == 0.0
  {
    assert ["s"] + ["a"] == ["s", "a"];
    assert ["s", "a"][1..] == ["a"] && Joined(["a"]) == "a";
    assert QualifiedName(["s"], "a") == "s" + "." + "a" == "s.a";
    assert OwnDelay(WORK, map[]) == Accepted(0.0);
    assert [] + References(["s"], []) == [];
    assert LeafRow(WORK, ["s"], [], 0.0) == WORK_ROW;
    assert [] + [WORK_ROW] == [WORK_ROW];
  }

  lemma SkippedNothing()
    ensures Expand(SKIPPED, map[], [], [], ["s"], 5.0) == Accepted(Grown([], []))
    ensures Lasting(SKIPPED, map[], ["s"], 5.0) == 0.0
    ensures Drops(SKIPPED, map[], ["s"])
  {
    assert OwnDelay(SKIPPED, map[]) == Accepted(0.0);
    assert SKIPPED.count.Resolve(map[]) == Accepted(0);
    assert Numbered(WORK, 0, ["s"] + ["r"]) == [];
    assert Parts(SKIPPED, map[], ["s"]) == Accepted([]);
  }
}
