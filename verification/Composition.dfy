/**
  What each kind of node expands to, as relations that name no helper of the compiler: how many parts,
  with which names, in which order, after which delays, from which frontier.
 */
module Composition {
  import opened Outcomes
  import opened TaskNodes
  import opened Expansion
  import opened LoopBinding

  // ------------------------------------------------ values

  ghost predicate Lasts(duration: Duration, dimensions: Dimensions, seconds: real) {
    seconds >= 0.0 && match duration
                      case Fixed(amount, unit) => seconds == amount * unit
                      case Scaled(name, unit) => name in dimensions && seconds == dimensions[name] as real * unit
  }

  ghost predicate Counts(scalar: Scalar, dimensions: Dimensions, count: int) {
    match scalar
    case Literal(number) => count == number
    case Reference(name) => name in dimensions && count == dimensions[name]
  }

  lemma LastsExactly(duration: Duration, dimensions: Dimensions, seconds: real)
    ensures Lasts(duration, dimensions, seconds) <==> duration.Resolve(dimensions) == Accepted(seconds)
  {
    hide InSeconds;
    match duration
    case Fixed(amount, unit) =>
      InSecondsIs(amount, unit, seconds);
    case Scaled(name, unit) =>
      if name in dimensions {
        InSecondsIs(dimensions[name] as real, unit, seconds);
      }
  }

  lemma InSecondsIs(amount: real, unit: real, seconds: real)
    ensures seconds >= 0.0 && seconds == amount * unit <==> InSeconds(amount, unit) == Accepted(seconds)
  {
  }

  lemma CountsExactly(scalar: Scalar, dimensions: Dimensions, count: int)
    ensures Counts(scalar, dimensions, count) <==> scalar.Resolve(dimensions) == Accepted(count)
  {
  }

  // ------------------------------------------------ names

  /** A name of one component is itself, any other is its components with dots between. */
  lemma {:induction false} JoinedSplits(path: seq<string>, name: string)
    ensures Joined(path + [name]) == if path == [] then name else Joined(path) + "." + name
  {
    if |path| > 1 {
      assert (path + [name])[1..] == path[1..] + [name];
      JoinedSplits(path[1..], name);
      assert Joined(path + [name]) == path[0] + "." + Joined(path[1..] + [name]);
      assert path[0] + "." + (Joined(path[1..]) + "." + name) == (path[0] + "." + Joined(path[1..])) + "." + name;
    } else if |path| == 1 {
      assert (path + [name])[1..] == [name] && path + [name] == [path[0], name];
      assert Joined([name]) == name;
    }
  }

  /** The number that a decimal text stands for. */
  function Number(text: string): int {
    if text == "" then 0 else 10 * Number(text[..|text| - 1]) + (text[|text| - 1] as int - '0' as int)
  }

  lemma {:induction false} DigitsDenote(n: nat)
    ensures Number(Digits(n)) == n
    ensures n > 0 ==> Digits(n)[0] != '0'
    ensures Number(Padded(n)) == n && |Padded(n)| >= 2 && (|Padded(n)| == 2 || Padded(n)[0] != '0')
  {
    var text, digit := Digits(n), '0' + (n % 10) as char;
    assert text[|text| - 1] == digit && digit as int - '0' as int == n % 10;
    if n < 10 {
      assert text == [digit] && text[..0] == "" && Number(text) == n;
      assert ("0" + text)[..1] == "0" && Number("0") == 0;
    } else {
      DigitsDenote(n / 10);
      assert text[..|text| - 1] == Digits(n / 10);
    }
  }

  // ------------------------------------------------ leaves

  /** The row of a leaf: its name, everything it waits for, its delay, and whose messages it reuses. */
  ghost predicate RowFor(leaf: Node, seconds: real, frontier: seq<string>, path: seq<string>, inherited: real, row: Row)
    requires leaf.Leaf?
  {
    && row.id == Joined(path + [leaf.name]) && row.kind == leaf.kind && row.after == inherited + seconds
    && (forall d :: d in row.dependencies <==>
          d in frontier || exists k :: 0 <= k < |leaf.dependsOn| && d == Named(path, leaf.dependsOn[k].step))
    && (forall i, j | 0 <= i < j < |row.dependencies| :: row.dependencies[i] != row.dependencies[j])
    && row.sources == SourcesUpTo(leaf, path, |leaf.dependsOn|)
  }

  /** The names of the reused steps among the first dependencies, in their order. */
  function SourcesUpTo(leaf: Node, path: seq<string>, count: nat): seq<string>
    requires leaf.Leaf? && count <= |leaf.dependsOn|
  {
    if count == 0 then []
    else
      var last := leaf.dependsOn[count - 1];
      SourcesUpTo(leaf, path, count - 1) + if last.reuseMessages then [Named(path, last.step)] else []
  }

  lemma {:induction false} ReusedAppend(dependencies: seq<Dependency>, last: Dependency)
    ensures Reused(dependencies + [last]) == Reused(dependencies) + if last.reuseMessages then [last] else []
  {
    if dependencies == [] {
      assert [] + [last] == [last] && [last][1..] == [];
    } else {
      assert (dependencies + [last])[1..] == dependencies[1..] + [last];
      ReusedAppend(dependencies[1..], last);
    }
  }

  lemma {:induction false} SourcesAreReused(leaf: Node, path: seq<string>, count: nat)
    requires leaf.Leaf? && count <= |leaf.dependsOn|
    ensures SourcesUpTo(leaf, path, count) == References(path, Reused(leaf.dependsOn[..count]))
  {
    hide Reused, QualifiedReference, Named;
    if count == 0 {
      NothingReused();
    } else {
      var before, last := leaf.dependsOn[..count - 1], leaf.dependsOn[count - 1];
      SourcesAreReused(leaf, path, count - 1);
      assert leaf.dependsOn[..count] == before + [last];
      ReusedAppend(before, last);
      NamedIsReference(path, last.step);
    }
  }

  lemma NothingReused()
    ensures Reused([]) == []
  {
  }

  /** A dotted name is absolute, any other belongs to the same path. */
  function Named(path: seq<string>, name: string): string {
    if exists i :: 0 <= i < |name| && name[i] == '.' then name else Joined(path + [name])
  }

  lemma NamedIsReference(path: seq<string>, name: string)
    ensures QualifiedReference(path, name) == Named(path, name)
  {
  }

  lemma ReferencesMembers(path: seq<string>, dependencies: seq<Dependency>)
    ensures forall s :: s in References(path, dependencies) <==>
                        exists d :: d in dependencies && s == Named(path, d.step)
  {
    hide QualifiedReference, Named;
    forall name ensures QualifiedReference(path, name) == Named(path, name) {
      NamedIsReference(path, name);
    }
    forall s | exists d :: d in dependencies && s == Named(path, d.step) ensures s in References(path, dependencies) {
      var d :| d in dependencies && s == Named(path, d.step);
      var k :| 0 <= k < |dependencies| && dependencies[k] == d;
      assert References(path, dependencies)[k] == s;
    }
  }

  lemma LeafRowFor(leaf: Node, seconds: real, frontier: seq<string>, path: seq<string>, inherited: real)
    requires leaf.Leaf?
    ensures RowFor(leaf, seconds, frontier, path, inherited, LeafRow(leaf, path, frontier, inherited + seconds))
  {
    hide References, Named, Reused, Distinct;
    var row := LeafRow(leaf, path, frontier, inherited + seconds);
    ReferencesMembers(path, leaf.dependsOn);
    SourcesAreReused(leaf, path, |leaf.dependsOn|);
    assert leaf.dependsOn[..|leaf.dependsOn|] == leaf.dependsOn;
    assert forall d :: d in leaf.dependsOn <==> exists k :: 0 <= k < |leaf.dependsOn| && leaf.dependsOn[k] == d;
  }

  /** Accepted names and sizes: an identifier of up to 120 characters that is new, and at most ten thousand rows. */
  ghost predicate Fits(rows: seq<Row>, row: Row) {
    1 <= |row.id| <= 120 && |rows| < 10_000 && row.after >= 0.0 && forall i | 0 <= i < |rows| :: rows[i].id != row.id
  }

  lemma FitsExactly(rows: seq<Row>, row: Row)
    ensures Fits(rows, row) <==> Emittable(rows, row)
  {
    if Fits(rows, row) {
      assert forall other | other in rows :: other.id != row.id;
    }
    if Emittable(rows, row) {
      forall i | 0 <= i < |rows| ensures rows[i].id != row.id {
        assert rows[i] in rows;
      }
    }
  }

  ghost predicate LeafTo(leaf: Node, dimensions: Dimensions, rows: seq<Row>, frontier: seq<string>, path: seq<string>,
                         inherited: real, seconds: real, row: Row)
    requires leaf.Leaf?
  {
    && Lasts(leaf.after, dimensions, seconds) && RowFor(leaf, seconds, frontier, path, inherited, row)
       && Fits(rows, row)
  }

  /** A leaf adds its row and is the new frontier. */
  lemma LeafMeans(leaf: Node, dimensions: Dimensions, rows: seq<Row>, frontier: seq<string>, path: seq<string>,
                  inherited: real, grown: Grown)
    returns (seconds: real, row: Row)
    requires leaf.Leaf? && Expand(leaf, dimensions, rows, frontier, path, inherited) == Accepted(grown)
    ensures LeafTo(leaf, dimensions, rows, frontier, path, inherited, seconds, row)
    ensures grown == Grown(rows + [row], [row.id])
  {
    hide Lasts, RowFor, Fits, Emittable, LeafRow;
    assert OwnDelay(leaf, dimensions).Accepted?;
    seconds := OwnDelay(leaf, dimensions).value;
    row := LeafRow(leaf, path, frontier, inherited + seconds);
    LastsExactly(leaf.after, dimensions, seconds);
    LeafRowFor(leaf, seconds, frontier, path, inherited);
    FitsExactly(rows, row);
  }

  /** And it is accepted whenever that is possible. */
  lemma LeafAccepted(leaf: Node, dimensions: Dimensions, rows: seq<Row>, frontier: seq<string>, path: seq<string>,
                     inherited: real, seconds: real, row: Row)
    requires leaf.Leaf? && LeafTo(leaf, dimensions, rows, frontier, path, inherited, seconds, row)
    ensures Expand(leaf, dimensions, rows, frontier, path, inherited).Accepted?
  {
    hide Lasts, RowFor, Fits, Emittable, LeafRow;
    LastsExactly(leaf.after, dimensions, seconds);
    assert OwnDelay(leaf, dimensions) == Accepted(seconds);
    LeafRowFor(leaf, seconds, frontier, path, inherited);
    var own := LeafRow(leaf, path, frontier, inherited + seconds);
    FitsAlike(leaf, seconds, frontier, path, inherited, rows, own, row);
    FitsExactly(rows, own);
  }

  lemma FitsAlike(leaf: Node, seconds: real, frontier: seq<string>, path: seq<string>, inherited: real, rows: seq<Row>,
                  row: Row, other: Row)
    requires leaf.Leaf? && RowFor(leaf, seconds, frontier, path, inherited, row)
    requires RowFor(leaf, seconds, frontier, path, inherited, other) && Fits(rows, other)
    ensures Fits(rows, row)
  {
  }

  // ------------------------------------------------ parts one after another

  /** Each part starts where the part before it ended. */
  ghost predicate InTurn(parts: seq<Part>, dimensions: Dimensions, rows: seq<Row>, frontier: seq<string>, first: real,
                         later: real, steps: seq<Grown>)
  {
    && |steps| == |parts| + 1 && steps[0] == Grown(rows, frontier)
    && forall i | 0 <= i < |parts| ::
         Expand(parts[i].node, dimensions, steps[i].rows, steps[i].frontier, parts[i].path,
                if i == 0 then first else later)
         == Accepted(steps[i + 1])
  }

  lemma {:induction false} SerialSteps(parts: seq<Part>, dimensions: Dimensions, rows: seq<Row>, frontier: seq<string>,
                                       first: real, later: real, grown: Grown)
    returns (steps: seq<Grown>)
    requires ExpandSerial(parts, dimensions, rows, frontier, first, later) == Accepted(grown)
    ensures InTurn(parts, dimensions, rows, frontier, first, later, steps) && steps[|parts|] == grown
    decreases |parts|
  {
    hide Expand;
    if parts == [] {
      steps := [grown];
    } else {
      var head := Expand(parts[0].node, dimensions, rows, frontier, parts[0].path, first).value;
      var rest := SerialSteps(parts[1..], dimensions, head.rows, head.frontier, later, later, grown);
      steps := [Grown(rows, frontier)] + rest;
      forall i | 0 <= i < |parts|
        ensures Expand(parts[i].node, dimensions, steps[i].rows, steps[i].frontier, parts[i].path,
                       if i == 0 then first else later)
             == Accepted(steps[i + 1])
      {
        if i > 0 {
          assert parts[i] == parts[1..][i - 1] && steps[i] == rest[i - 1] && steps[i + 1] == rest[i];
        }
      }
    }
  }

  lemma {:induction false} StepsSerial(parts: seq<Part>, dimensions: Dimensions, rows: seq<Row>, frontier: seq<string>,
                                       first: real, later: real, steps: seq<Grown>)
    requires InTurn(parts, dimensions, rows, frontier, first, later, steps)
    ensures ExpandSerial(parts, dimensions, rows, frontier, first, later) == Accepted(steps[|parts|])
    decreases |parts|
  {
    hide Expand;
    if parts != [] {
      assert Expand(parts[0].node, dimensions, steps[0].rows, steps[0].frontier, parts[0].path, first)
          == Accepted(steps[1]);
      var rest := steps[1..];
      forall i | 0 <= i < |parts| - 1
        ensures Expand(parts[1..][i].node, dimensions, rest[i].rows, rest[i].frontier, parts[1..][i].path, later)
             == Accepted(rest[i + 1])
      {
        assert parts[1..][i] == parts[i + 1] && rest[i] == steps[i + 1] && rest[i + 1] == steps[i + 2];
      }
      StepsSerial(parts[1..], dimensions, rest[0].rows, rest[0].frontier, later, later, rest);
    }
  }

  // ------------------------------------------------ parts side by side

  function RowsAfter(rows: seq<Row>, outs: seq<Grown>, count: nat): seq<Row>
    requires count <= |outs|
  {
    if count == 0 then rows else outs[count - 1].rows
  }

  /** All parts start from one frontier; rows accumulate. */
  ghost predicate SideBySide(parts: seq<Part>, dimensions: Dimensions, rows: seq<Row>, frontier: seq<string>,
                             delay: real, outs: seq<Grown>)
  {
    && |outs| == |parts|
    && forall i | 0 <= i < |parts| ::
         Expand(parts[i].node, dimensions, RowsAfter(rows, outs, i), frontier, parts[i].path, delay)
         == Accepted(outs[i])
  }

  function Joint(outs: seq<Grown>): seq<string> {
    if outs == [] then [] else outs[0].frontier + Joint(outs[1..])
  }

  lemma {:induction false} ParallelOuts(parts: seq<Part>, dimensions: Dimensions, rows: seq<Row>, frontier: seq<string>,
                                        delay: real, grown: Grown)
    returns (outs: seq<Grown>)
    requires ExpandParallel(parts, dimensions, rows, frontier, delay) == Accepted(grown)
    ensures SideBySide(parts, dimensions, rows, frontier, delay, outs)
    ensures grown == Grown(RowsAfter(rows, outs, |parts|), Joint(outs))
    decreases |parts|
  {
    hide Expand;
    if parts == [] {
      outs := [];
    } else {
      var head := Expand(parts[0].node, dimensions, rows, frontier, parts[0].path, delay).value;
      var rest := ExpandParallel(parts[1..], dimensions, head.rows, frontier, delay).value;
      var others := ParallelOuts(parts[1..], dimensions, head.rows, frontier, delay, rest);
      outs := [head] + others;
      assert outs[1..] == others;
      forall i | 0 <= i < |parts|
        ensures Expand(parts[i].node, dimensions, RowsAfter(rows, outs, i), frontier, parts[i].path, delay)
             == Accepted(outs[i])
      {
        if i > 0 {
          assert parts[i] == parts[1..][i - 1] && outs[i] == others[i - 1];
          assert RowsAfter(rows, outs, i) == RowsAfter(head.rows, others, i - 1);
        }
      }
    }
  }

  lemma {:induction false} OutsParallel(parts: seq<Part>, dimensions: Dimensions, rows: seq<Row>, frontier: seq<string>,
                                        delay: real, outs: seq<Grown>)
    requires SideBySide(parts, dimensions, rows, frontier, delay, outs)
    ensures ExpandParallel(parts, dimensions, rows, frontier, delay)
         == Accepted(Grown(RowsAfter(rows, outs, |parts|), Joint(outs)))
    decreases |parts|
  {
    hide Expand;
    if parts != [] {
      assert RowsAfter(rows, outs, 0) == rows;
      var others := outs[1..];
      forall i | 0 <= i < |parts| - 1
        ensures Expand(parts[1..][i].node, dimensions, RowsAfter(outs[0].rows, others, i), frontier, parts[1..][i].path,
                       delay)
             == Accepted(others[i])
      {
        assert parts[1..][i] == parts[i + 1] && others[i] == outs[i + 1];
        assert RowsAfter(rows, outs, i + 1) == RowsAfter(outs[0].rows, others, i);
      }
      OutsParallel(parts[1..], dimensions, outs[0].rows, frontier, delay, others);
    }
  }

  // ------------------------------------------------ every kind of composite

  /** One to a hundred iterations or none, each after the interval; the first also after what is inherited. */
  ghost predicate RepeatTo(node: Node, dimensions: Dimensions, rows: seq<Row>, frontier: seq<string>, path: seq<string>,
                           inherited: real, count: int, seconds: real, steps: seq<Grown>)
    requires node.Repeat?
  {
    && Counts(node.count, dimensions, count) && 0 <= count <= 100 && Lasts(node.every, dimensions, seconds)
    && |steps| == count + 1 && steps[0] == Grown(rows, frontier)
    && forall i | 0 <= i < count ::
         Expand(node.body, dimensions, steps[i].rows, steps[i].frontier, path + [node.name] + [Digits(i + 1)],
                if i == 0 then inherited + seconds else seconds)
         == Accepted(steps[i + 1])
  }

  lemma RepeatMeans(node: Node, dimensions: Dimensions, rows: seq<Row>, frontier: seq<string>, path: seq<string>,
                    inherited: real, grown: Grown)
    returns (count: int, seconds: real, steps: seq<Grown>)
    requires node.Repeat? && Expand(node, dimensions, rows, frontier, path, inherited) == Accepted(grown)
    ensures RepeatTo(node, dimensions, rows, frontier, path, inherited, count, seconds, steps) && steps[count] == grown
  {
    hide ExpandSerial, InTurn, Lasts, Counts, Duration.Resolve, Scalar.Resolve;
    assert OwnDelay(node, dimensions).Accepted? && Parts(node, dimensions, path).Accepted?;
    count, seconds := node.count.Resolve(dimensions).value, node.every.Resolve(dimensions).value;
    CountsExactly(node.count, dimensions, count);
    LastsExactly(node.every, dimensions, seconds);
    var parts := Numbered(node.body, count, path + [node.name]);
    ExpandIs(node, dimensions, rows, frontier, path, inherited, parts);
    hide Expand;
    steps := SerialSteps(parts, dimensions, rows, frontier, inherited + seconds, seconds, grown);
    RepeatSteps(node, dimensions, rows, frontier, path, inherited, count, seconds, steps);
  }

  lemma RepeatSteps(node: Node, dimensions: Dimensions, rows: seq<Row>, frontier: seq<string>, path: seq<string>,
                    inherited: real, count: nat, seconds: real, steps: seq<Grown>)
    requires node.Repeat? && Counts(node.count, dimensions, count) && count <= 100
    requires Lasts(node.every, dimensions, seconds)
    ensures InTurn(Numbered(node.body, count, path + [node.name]), dimensions, rows, frontier, inherited + seconds,
                   seconds, steps)
       <==> RepeatTo(node, dimensions, rows, frontier, path, inherited, count, seconds, steps)
  {
    hide Expand, Lasts, Counts;
    var parts := Numbered(node.body, count, path + [node.name]);
    assert forall i | 0 <= i < count :: parts[i] == Part(node.body, path + [node.name] + [Digits(i + 1)]);
  }

  lemma RepeatAccepted(node: Node, dimensions: Dimensions, rows: seq<Row>, frontier: seq<string>, path: seq<string>,
                       inherited: real, count: int, seconds: real, steps: seq<Grown>)
    requires node.Repeat? && RepeatTo(node, dimensions, rows, frontier, path, inherited, count, seconds, steps)
    ensures Expand(node, dimensions, rows, frontier, path, inherited) == Accepted(steps[count])
  {
    hide ExpandSerial, InTurn, Lasts, Counts, Expand, Duration.Resolve, Scalar.Resolve;
    CountsExactly(node.count, dimensions, count);
    LastsExactly(node.every, dimensions, seconds);
    var parts := Numbered(node.body, count, path + [node.name]);
    assert Parts(node, dimensions, path) == Accepted(parts) && OwnDelay(node, dimensions) == Accepted(seconds);
    ExpandIs(node, dimensions, rows, frontier, path, inherited, parts);
    RepeatSteps(node, dimensions, rows, frontier, path, inherited, count, seconds, steps);
    StepsSerial(parts, dimensions, rows, frontier, inherited + seconds, seconds, steps);
  }

  /** Step after step; only the first is delayed, by the sequence's own delay and what is inherited. */
  ghost predicate SequenceTo(node: Node, dimensions: Dimensions, rows: seq<Row>, frontier: seq<string>,
                             path: seq<string>, inherited: real, seconds: real, steps: seq<Grown>)
    requires node.Sequence?
  {
    && Lasts(node.after, dimensions, seconds)
    && |steps| == |node.steps| + 1 && steps[0] == Grown(rows, frontier)
    && forall i | 0 <= i < |node.steps| ::
         Expand(node.steps[i], dimensions, steps[i].rows, steps[i].frontier, path + [node.name],
                if i == 0 then inherited + seconds else 0.0)
         == Accepted(steps[i + 1])
  }

  lemma SequenceSteps(node: Node, dimensions: Dimensions, rows: seq<Row>, frontier: seq<string>, path: seq<string>,
                      inherited: real, seconds: real, steps: seq<Grown>)
    requires node.Sequence? && Lasts(node.after, dimensions, seconds)
    ensures InTurn(AtPath(node.steps, path + [node.name]), dimensions, rows, frontier, inherited + seconds, 0.0, steps)
       <==> SequenceTo(node, dimensions, rows, frontier, path, inherited, seconds, steps)
  {
    hide Expand, Lasts;
    var parts := AtPath(node.steps, path + [node.name]);
    assert forall i | 0 <= i < |parts| :: parts[i] == Part(node.steps[i], path + [node.name]);
  }

  lemma SequenceMeans(node: Node, dimensions: Dimensions, rows: seq<Row>, frontier: seq<string>, path: seq<string>,
                      inherited: real, grown: Grown)
    returns (seconds: real, steps: seq<Grown>)
    requires node.Sequence? && Expand(node, dimensions, rows, frontier, path, inherited) == Accepted(grown)
    ensures SequenceTo(node, dimensions, rows, frontier, path, inherited, seconds, steps)
    ensures steps[|node.steps|] == grown
  {
    hide ExpandSerial, InTurn, Lasts, Duration.Resolve;
    assert OwnDelay(node, dimensions).Accepted?;
    seconds := node.after.Resolve(dimensions).value;
    LastsExactly(node.after, dimensions, seconds);
    var parts := AtPath(node.steps, path + [node.name]);
    ExpandIs(node, dimensions, rows, frontier, path, inherited, parts);
    hide Expand;
    steps := SerialSteps(parts, dimensions, rows, frontier, inherited + seconds, 0.0, grown);
    SequenceSteps(node, dimensions, rows, frontier, path, inherited, seconds, steps);
  }

  lemma SequenceAccepted(node: Node, dimensions: Dimensions, rows: seq<Row>, frontier: seq<string>, path: seq<string>,
                         inherited: real, seconds: real, steps: seq<Grown>)
    requires node.Sequence? && SequenceTo(node, dimensions, rows, frontier, path, inherited, seconds, steps)
    ensures Expand(node, dimensions, rows, frontier, path, inherited) == Accepted(steps[|node.steps|])
  {
    hide ExpandSerial, InTurn, Lasts, Expand, Duration.Resolve;
    LastsExactly(node.after, dimensions, seconds);
    var parts := AtPath(node.steps, path + [node.name]);
    assert Parts(node, dimensions, path) == Accepted(parts) && OwnDelay(node, dimensions) == Accepted(seconds);
    ExpandIs(node, dimensions, rows, frontier, path, inherited, parts);
    SequenceSteps(node, dimensions, rows, frontier, path, inherited, seconds, steps);
    StepsSerial(parts, dimensions, rows, frontier, inherited + seconds, 0.0, steps);
  }

  /** How many parts a parallel node has, and which node and path each has. */
  ghost predicate Beside(node: Node, dimensions: Dimensions, path: seq<string>, parts: seq<Part>)
    requires node.Branches? || node.Copies?
  {
    match node
    case Branches(name, _, branches) =>
      |parts| == |branches| && forall i | 0 <= i < |branches| :: parts[i] == Part(branches[i], path + [name])
    case Copies(name, _, count, body) =>
      && Counts(count, dimensions, |parts|) && 1 <= |parts| <= 10_000
      && forall i | 0 <= i < |parts| :: parts[i] == Part(body, path + [name] + [Digits(i + 1)])
  }

  lemma BesideExactly(node: Node, dimensions: Dimensions, path: seq<string>, parts: seq<Part>)
    requires node.Branches? || node.Copies?
    ensures Beside(node, dimensions, path, parts) <==> Parts(node, dimensions, path) == Accepted(parts)
  {
    hide Counts, Scalar.Resolve;
    match node
    case Branches(name, _, branches) =>
      if Beside(node, dimensions, path, parts) {
        assert parts == AtPath(branches, path + [name]);
      }
    case Copies(name, _, count, body) =>
      CountsExactly(count, dimensions, |parts|);
      if Beside(node, dimensions, path, parts) {
        assert parts == Numbered(body, |parts|, path + [name]);
      }
  }

  /** All parts start from the incoming frontier after the node's own delay and what is inherited. */
  ghost predicate ParallelTo(node: Node, dimensions: Dimensions, rows: seq<Row>, frontier: seq<string>,
                             path: seq<string>, inherited: real, seconds: real, parts: seq<Part>, outs: seq<Grown>)
    requires node.Branches? || node.Copies?
  {
    && Lasts(node.after, dimensions, seconds) && Beside(node, dimensions, path, parts)
    && SideBySide(parts, dimensions, rows, frontier, inherited + seconds, outs)
  }

  lemma ParallelMeans(node: Node, dimensions: Dimensions, rows: seq<Row>, frontier: seq<string>, path: seq<string>,
                      inherited: real, grown: Grown)
    returns (seconds: real, parts: seq<Part>, outs: seq<Grown>)
    requires (node.Branches? || node.Copies?)
    requires Expand(node, dimensions, rows, frontier, path, inherited) == Accepted(grown)
    ensures ParallelTo(node, dimensions, rows, frontier, path, inherited, seconds, parts, outs)
    ensures grown == Grown(RowsAfter(rows, outs, |parts|), Joint(outs))
  {
    hide ExpandParallel, SideBySide, Lasts, Beside, Duration.Resolve, Parts, RowsAfter, Joint;
    assert OwnDelay(node, dimensions).Accepted? && Parts(node, dimensions, path).Accepted?;
    seconds, parts := node.after.Resolve(dimensions).value, Parts(node, dimensions, path).value;
    LastsExactly(node.after, dimensions, seconds);
    BesideExactly(node, dimensions, path, parts);
    ExpandIs(node, dimensions, rows, frontier, path, inherited, parts);
    hide Expand;
    outs := ParallelOuts(parts, dimensions, rows, frontier, inherited + seconds, grown);
  }

  lemma ParallelAccepted(node: Node, dimensions: Dimensions, rows: seq<Row>, frontier: seq<string>, path: seq<string>,
                         inherited: real, seconds: real, parts: seq<Part>, outs: seq<Grown>)
    requires (node.Branches? || node.Copies?)
    requires ParallelTo(node, dimensions, rows, frontier, path, inherited, seconds, parts, outs)
    ensures Expand(node, dimensions, rows, frontier, path, inherited)
         == Accepted(Grown(RowsAfter(rows, outs, |parts|), Joint(outs)))
  {
    hide ExpandParallel, Lasts, Beside, Expand, Duration.Resolve, SideBySide, Parts, RowsAfter, Joint;
    LastsExactly(node.after, dimensions, seconds);
    BesideExactly(node, dimensions, path, parts);
    assert OwnDelay(node, dimensions) == Accepted(seconds);
    ExpandIs(node, dimensions, rows, frontier, path, inherited, parts);
    OutsParallel(parts, dimensions, rows, frontier, inherited + seconds, outs);
  }

  // ------------------------------------------------ rows of composites of leaves

  /** The row of a leaf that starts `delay` after its frontier. */
  lemma LeafAfter(leaf: Node, dimensions: Dimensions, rows: seq<Row>, frontier: seq<string>, path: seq<string>,
                  delay: real, own: real, grown: Grown)
    requires leaf.Leaf? && Expand(leaf, dimensions, rows, frontier, path, delay) == Accepted(grown)
    requires Lasts(leaf.after, dimensions, own)
    ensures |grown.rows| == |rows| + 1 && grown.rows == rows + [grown.rows[|rows|]]
    ensures grown.rows[|rows|].after == delay + own && grown.rows[|rows|].id == Joined(path + [leaf.name])
  {
    hide Expand, Lasts;
    var seconds, row := LeafMeans(leaf, dimensions, rows, frontier, path, delay, grown);
    LastsExactly(leaf.after, dimensions, own);
    LastsExactly(leaf.after, dimensions, seconds);
  }

  ghost predicate RepeatedRow(node: Node, path: seq<string>, inherited: real, every: real, own: real, i: nat, row: Row)
    requires node.Repeat?
  {
    && row.after == every + own + (if i == 0 then inherited else 0.0)
    && row.id == Joined(path + [node.name] + [Digits(i + 1)] + [node.body.name])
  }

  /**
    Row i of a repeated leaf starts after the interval and the leaf's own delay, row 0 also after what
    is inherited.
   */
  lemma RepeatedLeafRows(node: Node, dimensions: Dimensions, rows: seq<Row>, frontier: seq<string>, path: seq<string>,
                         inherited: real, every: real, own: real, grown: Grown)
    requires node.Repeat? && node.body.Leaf?
    requires Expand(node, dimensions, rows, frontier, path, inherited) == Accepted(grown)
    requires Lasts(node.every, dimensions, every) && Lasts(node.body.after, dimensions, own)
    ensures rows <= grown.rows && Counts(node.count, dimensions, |grown.rows| - |rows|)
    ensures var added := grown.rows[|rows|..];
      forall i | 0 <= i < |added| :: RepeatedRow(node, path, inherited, every, own, i, added[i])
  {
    hide Expand, Lasts, Counts, RepeatedRow;
    var count, seconds, steps := RepeatMeans(node, dimensions, rows, frontier, path, inherited, grown);
    LastsExactly(node.every, dimensions, every);
    LastsExactly(node.every, dimensions, seconds);
    var added: seq<Row> := [];
    for k := 0 to count
      invariant |added| == k && steps[k].rows == rows + added
      invariant forall i | 0 <= i < k :: RepeatedRow(node, path, inherited, every, own, i, added[i])
    {
      LeafAfter(node.body, dimensions, steps[k].rows, steps[k].frontier, path + [node.name] + [Digits(k + 1)],
                if k == 0 then inherited + every else every, own, steps[k + 1]);
      var row := steps[k + 1].rows[|rows| + k];
      RepeatedRowIs(node, path, inherited, every, own, k, row);
      added := added + [row];
    }
    assert grown.rows[|rows|..] == added;
  }

  lemma RepeatedRowIs(node: Node, path: seq<string>, inherited: real, every: real, own: real, k: nat, row: Row)
    requires node.Repeat? && row.after == (if k == 0 then inherited + every else every) + own
    requires row.id == Joined(path + [node.name] + [Digits(k + 1)] + [node.body.name])
    ensures RepeatedRow(node, path, inherited, every, own, k, row)
  {
  }

  /** Of the rows of a sequence of leaves only row 0 is delayed by the sequence and what is inherited. */
  lemma SequencedLeafRows(node: Node, dimensions: Dimensions, rows: seq<Row>, frontier: seq<string>, path: seq<string>,
                          inherited: real, after: real, own: seq<real>, grown: Grown)
    requires node.Sequence? && forall step | step in node.steps :: step.Leaf?
    requires Expand(node, dimensions, rows, frontier, path, inherited) == Accepted(grown)
    requires Lasts(node.after, dimensions, after) && |own| == |node.steps|
    requires forall i | 0 <= i < |own| :: Lasts(node.steps[i].after, dimensions, own[i])
    ensures |grown.rows| == |rows| + |node.steps|
    ensures forall i | 0 <= i < |node.steps| ::
              && grown.rows[|rows| + i].after == own[i] + (if i == 0 then inherited + after else 0.0)
              && grown.rows[|rows| + i].id == Joined(path + [node.name] + [node.steps[i].name])
  {
    hide Expand, Lasts, Joined;
    var seconds, steps := SequenceMeans(node, dimensions, rows, frontier, path, inherited, grown);
    LastsExactly(node.after, dimensions, after);
    LastsExactly(node.after, dimensions, seconds);
    for k := 0 to |node.steps|
      invariant |steps[k].rows| == |rows| + k
      invariant forall i | 0 <= i < k ::
                  && steps[k].rows[|rows| + i].after == own[i] + (if i == 0 then inherited + after else 0.0)
                  && steps[k].rows[|rows| + i].id == Joined(path + [node.name] + [node.steps[i].name])
    {
      LeafAfter(node.steps[k], dimensions, steps[k].rows, steps[k].frontier, path + [node.name],
                if k == 0 then inherited + after else 0.0, own[k], steps[k + 1]);
    }
  }

  // ------------------------------------------------ bounded loops

  /** One lane: the loop's body for one value after another, the value a dimension; only the first is delayed. */
  ghost predicate LaneTo(node: Node, dimensions: Dimensions, rows: seq<Row>, frontier: seq<string>, path: seq<string>,
                         delay: real, slice: seq<int>, steps: seq<Grown>)
    requires node.ForEach?
  {
    && |steps| == |slice| + 1 && steps[0] == Grown(rows, frontier)
    && forall m | 0 <= m < |slice| ::
         Expand(node.body, dimensions[node.variable := slice[m]], steps[m].rows, steps[m].frontier,
                path + ["member_" + Padded(m + 1)], if m == 0 then delay else 0.0)
         == Accepted(steps[m + 1])
  }

  lemma {:induction false} MembersAre(body: Node, variable: string, values: seq<int>, next: nat, members: seq<Node>)
    requires BindMembers(body, variable, values, next) == Accepted(members)
    ensures |members| == |values|
    ensures forall m | 0 <= m < |values| :: MemberOf(body, variable, values[m], next + m, members[m])
  {
    hide Bind, Padded, MemberOf;
    if values != [] {
      MembersUnfold(body, variable, values, next, members);
      MembersAre(body, variable, values[1..], next + 1, members[1..]);
      forall m | 0 <= m < |values| ensures MemberOf(body, variable, values[m], next + m, members[m]) {
        if m > 0 {
          assert MemberOf(body, variable, values[1..][m - 1], next + 1 + (m - 1), members[1..][m - 1]);
        }
      }
    }
  }

  lemma MembersUnfold(body: Node, variable: string, values: seq<int>, next: nat, members: seq<Node>)
    requires values != [] && BindMembers(body, variable, values, next) == Accepted(members)
    ensures members != [] && MemberOf(body, variable, values[0], next, members[0])
    ensures BindMembers(body, variable, values[1..], next + 1) == Accepted(members[1..])
  {
    hide Bind, Padded;
  }

  ghost predicate MemberOf(body: Node, variable: string, value: int, number: nat, member: Node) {
    Bind(body, variable, value).Accepted?
    && member == Sequence("member_" + Padded(number), NO_DELAY, [Bind(body, variable, value).value])
  }

  /** A member expands as the body does with the value for the variable. */
  lemma MemberExpands(body: Node, variable: string, value: int, number: nat, member: Node, dimensions: Dimensions,
                      rows: seq<Row>, frontier: seq<string>, path: seq<string>, delay: real)
    requires MemberOf(body, variable, value, number, member)
    ensures Expand(member, dimensions, rows, frontier, path, delay)
         == Expand(body, dimensions[variable := value], rows, frontier, path + ["member_" + Padded(number)], delay)
  {
    hide Expand, Bind, Padded;
    var bound := Bind(body, variable, value).value;
    var parts := AtPath([bound], path + [member.name]);
    ExpandIs(member, dimensions, rows, frontier, path, delay, parts);
    assert OwnDelay(member, dimensions) == Accepted(0.0);
    BindingIsADimension(body, bound, variable, value, dimensions, rows, frontier, path + [member.name], delay);
    assert parts[0] == Part(bound, path + [member.name]) && parts[1..] == [];
  }

  lemma LaneSteps(node: Node, lane: nat, slice: seq<int>, members: seq<Node>, dimensions: Dimensions, rows: seq<Row>,
                  frontier: seq<string>, path: seq<string>, delay: real, steps: seq<Grown>)
    requires node.ForEach? && BindMembers(node.body, node.variable, slice, 1) == Accepted(members)
    ensures var lanePath := path + ["lane_" + Padded(lane + 1)];
      InTurn(AtPath(members, lanePath), dimensions, rows, frontier, delay, 0.0, steps)
      <==> LaneTo(node, dimensions, rows, frontier, lanePath, delay, slice, steps)
  {
    hide Expand, Padded, BindMembers, MemberOf;
    var lanePath := path + ["lane_" + Padded(lane + 1)];
    var parts := AtPath(members, lanePath);
    MembersAre(node.body, node.variable, slice, 1, members);
    if |steps| == |slice| + 1 {
      forall m | 0 <= m < |slice|
        ensures Expand(parts[m].node, dimensions, steps[m].rows, steps[m].frontier, parts[m].path,
                       if m == 0 then delay else 0.0)
             == Expand(node.body, dimensions[node.variable := slice[m]], steps[m].rows, steps[m].frontier,
                       lanePath + ["member_" + Padded(m + 1)], if m == 0 then delay else 0.0)
      {
        assert parts[m] == Part(members[m], lanePath);
        MemberExpands(node.body, node.variable, slice[m], 1 + m, members[m], dimensions, steps[m].rows,
                      steps[m].frontier, lanePath, if m == 0 then delay else 0.0);
      }
    }
  }

  lemma LaneIs(lane: nat, members: seq<Node>, dimensions: Dimensions, rows: seq<Row>, frontier: seq<string>,
               path: seq<string>, delay: real)
    ensures Expand(LaneNode(lane, members), dimensions, rows, frontier, path, delay)
         == ExpandSerial(AtPath(members, path + ["lane_" + Padded(lane + 1)]), dimensions, rows, frontier, delay, 0.0)
  {
    hide Expand, Padded, ExpandSerial;
    var parts := AtPath(members, path + ["lane_" + Padded(lane + 1)]);
    ExpandIs(LaneNode(lane, members), dimensions, rows, frontier, path, delay, parts);
    assert OwnDelay(LaneNode(lane, members), dimensions) == Accepted(0.0);
  }

  /**
    As many lanes as the parallelism and the values allow, side by side, each with its slice of the
    values; the slices are those that `LaneSlices` describes.
   */
  ghost predicate ForEachTo(node: Node, dimensions: Dimensions, rows: seq<Row>, frontier: seq<string>,
                            path: seq<string>, inherited: real, seconds: real, lanes: seq<seq<Grown>>, outs: seq<Grown>)
    requires node.ForEach? && node.WellFormed()
  {
    && Lasts(node.after, dimensions, seconds) && !Shadowed(node.body, node.variable)
    && |outs| == |lanes| == (if node.parallelism <= |node.values| then node.parallelism else |node.values|)
    && forall k | 0 <= k < |lanes| ::
         LaneRuns(node, dimensions, RowsAfter(rows, outs, k), frontier, path + [node.name], inherited + seconds,
                  |lanes|, k, lanes[k], outs[k])
  }

  ghost predicate LaneRuns(node: Node, dimensions: Dimensions, rows: seq<Row>, frontier: seq<string>,
                           path: seq<string>, delay: real, count: nat, k: nat, steps: seq<Grown>, out: Grown)
    requires node.ForEach? && k < count
  {
    && steps != [] && steps[|steps| - 1] == out
    && LaneTo(node, dimensions, rows, frontier, path + ["lane_" + Padded(k + 1)], delay,
              LaneSlice(node.values, count, k), steps)
  }

  ghost predicate LaneOf(node: Node, lanes: nat, k: nat, lane: Node)
    requires node.ForEach? && k < lanes
  {
    var members := BindMembers(node.body, node.variable, LaneSlice(node.values, lanes, k), 1);
    members.Accepted? && lane == LaneNode(k, members.value)
  }

  lemma {:induction false} LanesAre(node: Node, lanes: nat, lane: nat, nodes: seq<Node>)
    requires node.ForEach? && lane <= lanes && LaneNodes(node, lanes, lane) == Accepted(nodes)
    ensures |nodes| == lanes - lane
    ensures forall k | 0 <= k < |nodes| :: LaneOf(node, lanes, lane + k, nodes[k])
    decreases lanes - lane
  {
    hide LaneOf, LaneNodes;
    if lane == lanes {
      NoLanes(node, lanes);
    } else {
      LanesUnfold(node, lanes, lane, nodes);
      LanesAre(node, lanes, lane + 1, nodes[1..]);
      forall k | 0 <= k < |nodes| ensures LaneOf(node, lanes, lane + k, nodes[k]) {
        if k > 0 {
          assert LaneOf(node, lanes, lane + 1 + (k - 1), nodes[1..][k - 1]);
        }
      }
    }
  }

  lemma NoLanes(node: Node, lanes: nat)
    requires node.ForEach?
    ensures LaneNodes(node, lanes, lanes) == Accepted([])
  {
  }

  lemma LanesUnfold(node: Node, lanes: nat, lane: nat, nodes: seq<Node>)
    requires node.ForEach? && lane < lanes && LaneNodes(node, lanes, lane) == Accepted(nodes)
    ensures nodes != [] && LaneOf(node, lanes, lane, nodes[0])
            && LaneNodes(node, lanes, lane + 1) == Accepted(nodes[1..])
  {
    hide LaneSlice, BindMembers, LaneNode;
  }

  lemma ForEachMeans(node: Node, dimensions: Dimensions, rows: seq<Row>, frontier: seq<string>, path: seq<string>,
                     inherited: real, grown: Grown)
    returns (seconds: real, lanes: seq<seq<Grown>>, outs: seq<Grown>)
    requires node.ForEach? && node.WellFormed()
    requires Expand(node, dimensions, rows, frontier, path, inherited) == Accepted(grown)
    ensures ForEachTo(node, dimensions, rows, frontier, path, inherited, seconds, lanes, outs)
    ensures grown == Grown(RowsAfter(rows, outs, |outs|), Joint(outs))
  {
    hide ExpandParallel, SideBySide, Lasts, Duration.Resolve, RowsAfter, Joint, LaneRuns, LaneNodes, Shadowed, LaneOf,
      LaneCount, AtPath;
    assert OwnDelay(node, dimensions).Accepted? && Parts(node, dimensions, path).Accepted?;
    seconds := node.after.Resolve(dimensions).value;
    LastsExactly(node.after, dimensions, seconds);
    var count := LaneCount(node.values, node.parallelism);
    LanesCounted(node.values, node.parallelism);
    var nodes := LaneNodes(node, count, 0).value;
    var parts := AtPath(nodes, path + [node.name]);
    ExpandIs(node, dimensions, rows, frontier, path, inherited, parts);
    hide Expand;
    outs := ParallelOuts(parts, dimensions, rows, frontier, inherited + seconds, grown);
    LanesAre(node, count, 0, nodes);
    NotShadowed(node, count, nodes);
    NodesSideBySide(nodes, dimensions, rows, frontier, path + [node.name], inherited + seconds, outs);
    lanes := EveryLane(node, dimensions, rows, frontier, path + [node.name], inherited + seconds, count, nodes, outs);
  }

  lemma NotShadowed(node: Node, count: nat, nodes: seq<Node>)
    requires node.ForEach? && node.WellFormed() && count == LaneCount(node.values, node.parallelism)
    requires LaneNodes(node, count, 0) == Accepted(nodes)
    ensures !Shadowed(node.body, node.variable)
  {
    hide Shadowed, Bind;
    LanesAre(node, count, 0, nodes);
    assert LaneOf(node, count, 0, nodes[0]);
    var slice := LaneSlice(node.values, count, 0);
    assert |slice| >= 1 by { FirstSliceIsSome(node.values, count); }
    var members := BindMembers(node.body, node.variable, slice, 1).value;
    MembersAre(node.body, node.variable, slice, 1, members);
    assert MemberOf(node.body, node.variable, slice[0], 1, members[0]);
    RefusedExactlyShadowed(node.body, node.variable, slice[0]);
  }

  lemma FirstSliceIsSome(values: seq<int>, lanes: nat)
    requires 1 <= lanes <= |values|
    ensures |LaneSlice(values, lanes, 0)| >= 1
  {
    LaneStartGrows(0, |values|, lanes);
    AtLeastOneEach(|values|, lanes);
  }

  lemma EveryLane(node: Node, dimensions: Dimensions, rows: seq<Row>, frontier: seq<string>, path: seq<string>,
                  delay: real, count: nat, nodes: seq<Node>, outs: seq<Grown>)
    returns (lanes: seq<seq<Grown>>)
    requires node.ForEach? && |nodes| == count && forall k | 0 <= k < count :: LaneOf(node, count, k, nodes[k])
    requires |outs| == count
    requires forall k | 0 <= k < count ::
               Expand(nodes[k], dimensions, RowsAfter(rows, outs, k), frontier, path, delay) == Accepted(outs[k])
    ensures |lanes| == count
    ensures forall k | 0 <= k < count ::
              LaneRuns(node, dimensions, RowsAfter(rows, outs, k), frontier, path, delay, count, k, lanes[k], outs[k])
  {
    hide Expand, LaneRuns, LaneOf, RowsAfter;
    lanes := [];
    for k := 0 to count
      invariant |lanes| == k
      invariant forall j | 0 <= j < k ::
                  LaneRuns(node, dimensions, RowsAfter(rows, outs, j), frontier, path, delay, count, j, lanes[j],
                           outs[j])
    {
      var steps := OneLane(node, dimensions, RowsAfter(rows, outs, k), frontier, path, delay, count, k, nodes[k],
                           outs[k]);
      lanes := lanes + [steps];
    }
  }

  lemma NodesSideBySide(nodes: seq<Node>, dimensions: Dimensions, rows: seq<Row>, frontier: seq<string>,
                        path: seq<string>, delay: real, outs: seq<Grown>)
    ensures |AtPath(nodes, path)| == |nodes|
    ensures SideBySide(AtPath(nodes, path), dimensions, rows, frontier, delay, outs)
       <==> (|outs| == |nodes|
             && forall k | 0 <= k < |nodes| ::
                  Expand(nodes[k], dimensions, RowsAfter(rows, outs, k), frontier, path, delay) == Accepted(outs[k]))
  {
    hide Expand;
    assert forall k | 0 <= k < |nodes| :: AtPath(nodes, path)[k] == Part(nodes[k], path);
  }

  lemma OneLane(node: Node, dimensions: Dimensions, rows: seq<Row>, frontier: seq<string>, path: seq<string>,
                delay: real, count: nat, k: nat, lane: Node, out: Grown)
    returns (steps: seq<Grown>)
    requires node.ForEach? && k < count && LaneOf(node, count, k, lane)
    requires Expand(lane, dimensions, rows, frontier, path, delay) == Accepted(out)
    ensures LaneRuns(node, dimensions, rows, frontier, path, delay, count, k, steps, out)
  {
    hide Expand, ExpandSerial, InTurn, LaneTo, LaneSlice, BindMembers, Padded, LaneNode;
    var slice := LaneSlice(node.values, count, k);
    var members := BindMembers(node.body, node.variable, slice, 1).value;
    var parts := AtPath(members, path + ["lane_" + Padded(k + 1)]);
    LaneIs(k, members, dimensions, rows, frontier, path, delay);
    steps := SerialSteps(parts, dimensions, rows, frontier, delay, 0.0, out);
    LaneSteps(node, k, slice, members, dimensions, rows, frontier, path, delay, steps);
    StepsLength(parts, dimensions, rows, frontier, delay, 0.0, steps);
  }

  lemma StepsLength(parts: seq<Part>, dimensions: Dimensions, rows: seq<Row>, frontier: seq<string>, first: real,
                    later: real, steps: seq<Grown>)
    requires InTurn(parts, dimensions, rows, frontier, first, later, steps)
    ensures |steps| == |parts| + 1
  {
  }

  /** And every such arrangement is accepted. */
  lemma ForEachAccepted(node: Node, dimensions: Dimensions, rows: seq<Row>, frontier: seq<string>, path: seq<string>,
                        inherited: real, seconds: real, lanes: seq<seq<Grown>>, outs: seq<Grown>)
    requires node.ForEach? && node.WellFormed()
    requires ForEachTo(node, dimensions, rows, frontier, path, inherited, seconds, lanes, outs)
    ensures Expand(node, dimensions, rows, frontier, path, inherited)
         == Accepted(Grown(RowsAfter(rows, outs, |outs|), Joint(outs)))
  {
    hide Expand, ExpandParallel, SideBySide, Lasts, Duration.Resolve, RowsAfter, Joint, LaneRuns, LaneNodes, Shadowed,
      LaneOf, LaneCount, AtPath;
    LastsExactly(node.after, dimensions, seconds);
    var count := LaneCount(node.values, node.parallelism);
    LanesCounted(node.values, node.parallelism);
    var nodes := LanesExist(node, count, 0);
    var parts := AtPath(nodes, path + [node.name]);
    assert Parts(node, dimensions, path) == Accepted(parts) && OwnDelay(node, dimensions) == Accepted(seconds);
    ExpandIs(node, dimensions, rows, frontier, path, inherited, parts);
    LanesAre(node, count, 0, nodes);
    LanesSideBySide(node, dimensions, rows, frontier, path + [node.name], inherited + seconds, count, nodes, lanes,
                    outs);
    NodesSideBySide(nodes, dimensions, rows, frontier, path + [node.name], inherited + seconds, outs);
    OutsParallel(parts, dimensions, rows, frontier, inherited + seconds, outs);
  }

  lemma {:induction false} MembersExist(body: Node, variable: string, values: seq<int>, next: nat)
    requires !Shadowed(body, variable)
    ensures BindMembers(body, variable, values, next).Accepted?
  {
    hide Bind, Shadowed, Padded;
    if values != [] {
      RefusedExactlyShadowed(body, variable, values[0]);
      MembersExist(body, variable, values[1..], next + 1);
    }
  }

  lemma {:induction false} LanesExist(node: Node, lanes: nat, lane: nat) returns (nodes: seq<Node>)
    requires node.ForEach? && !Shadowed(node.body, node.variable) && lane <= lanes
    ensures LaneNodes(node, lanes, lane) == Accepted(nodes)
    decreases lanes - lane
  {
    hide LaneSlice, BindMembers, LaneNode, Shadowed;
    if lane < lanes {
      MembersExist(node.body, node.variable, LaneSlice(node.values, lanes, lane), 1);
      nodes := LanesExist(node, lanes, lane + 1);
    }
    nodes := LaneNodes(node, lanes, lane).value;
  }

  lemma LanesSideBySide(node: Node, dimensions: Dimensions, rows: seq<Row>, frontier: seq<string>, path: seq<string>,
                        delay: real, count: nat, nodes: seq<Node>, lanes: seq<seq<Grown>>, outs: seq<Grown>)
    requires node.ForEach? && |nodes| == count == |lanes| == |outs|
    requires forall k | 0 <= k < count :: LaneOf(node, count, k, nodes[k])
    requires forall k | 0 <= k < count ::
               LaneRuns(node, dimensions, RowsAfter(rows, outs, k), frontier, path, delay, count, k, lanes[k], outs[k])
    ensures SideBySide(AtPath(nodes, path), dimensions, rows, frontier, delay, outs)
  {
    hide Expand, LaneRuns, LaneOf, AtPath;
    forall k | 0 <= k < count
      ensures Expand(nodes[k], dimensions, RowsAfter(rows, outs, k), frontier, path, delay) == Accepted(outs[k])
    {
      LaneAccepted(node, dimensions, RowsAfter(rows, outs, k), frontier, path, delay, count, k, nodes[k], lanes[k],
                   outs[k]);
    }
    NodesSideBySide(nodes, dimensions, rows, frontier, path, delay, outs);
  }

  lemma LaneAccepted(node: Node, dimensions: Dimensions, rows: seq<Row>, frontier: seq<string>, path: seq<string>,
                     delay: real, count: nat, k: nat, lane: Node, steps: seq<Grown>, out: Grown)
    requires node.ForEach? && k < count && LaneOf(node, count, k, lane)
    requires LaneRuns(node, dimensions, rows, frontier, path, delay, count, k, steps, out)
    ensures Expand(lane, dimensions, rows, frontier, path, delay) == Accepted(out)
  {
    hide Expand, ExpandSerial, InTurn, LaneTo, LaneSlice, BindMembers, Padded, LaneNode;
    var slice := LaneSlice(node.values, count, k);
    var members := BindMembers(node.body, node.variable, slice, 1).value;
    var parts := AtPath(members, path + ["lane_" + Padded(k + 1)]);
    LaneSteps(node, k, slice, members, dimensions, rows, frontier, path, delay, steps);
    StepsLength(parts, dimensions, rows, frontier, delay, 0.0, steps);
    StepsSerial(parts, dimensions, rows, frontier, delay, 0.0, steps);
    LaneIs(k, members, dimensions, rows, frontier, path, delay);
  }
}
