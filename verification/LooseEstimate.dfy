/** Why exactness of the overlap estimate needs graphs without dependencies between branches. */
module LooseEstimate {
  import opened Outcomes
  import opened TaskNodes
  import opened Expansion
  import opened Dependencies
  import opened PeakOverlap
  import opened TaskCompiler

  const FIRST := Leaf("a", Batch, NO_DELAY, [])
  const SECOND := Leaf("b", Batch, NO_DELAY, [Dependency("a", false)])
  const BOTH := Branches("p", NO_DELAY, [FIRST, SECOND])
  const FIRST_ROW := Row("p.a", [], 0.0, Batch, [])
  const SECOND_ROW := Row("p.b", ["p.a"], 0.0, Batch, [])

  lemma NestedName(outer: string, inner: string)
    ensures QualifiedName([outer], inner) == outer + "." + inner
  {
    assert [outer] + [inner] == [outer, inner];
    assert [outer, inner][1..] == [inner] && Joined([inner]) == inner;
  }

  lemma LooseFirst()
    ensures QualifiedName(["p"], "a") == "p.a"
    ensures Expand(FIRST, map[], [], [], ["p"], 0.0) == Accepted(Grown([FIRST_ROW], ["p.a"]))
  {
    NestedName("p", "a");
    assert OwnDelay(FIRST, map[]) == Accepted(0.0);
    assert [] + References(["p"], []) == [];
    assert LeafRow(FIRST, ["p"], [], 0.0) == FIRST_ROW;
    assert [] + [FIRST_ROW] == [FIRST_ROW];
  }

  lemma LooseSecond()
    ensures QualifiedName(["p"], "b") == "p.b"
    ensures Expand(SECOND, map[], [FIRST_ROW], [], ["p"], 0.0) == Accepted(Grown([FIRST_ROW, SECOND_ROW], ["p.b"]))
  {
    NestedName("p", "a");
    NestedName("p", "b");
    assert OwnDelay(SECOND, map[]) == Accepted(0.0);
    var named := References(["p"], SECOND.dependsOn);
    assert '.' !in "a";
    assert QualifiedReference(["p"], "a") == "p.a";
    assert named == ["p.a"];
    assert [] + named == ["p.a"];
    assert ["p.a"][..0] == [] && Distinct([]) == [];
    assert Distinct(["p.a"]) == ["p.a"];
    var one := [Dependency("a", false)];
    assert one[1..] == [] && Reused(one[1..]) == [];
    assert Reused(SECOND.dependsOn) == [];
    assert LeafRow(SECOND, ["p"], [], 0.0) == SECOND_ROW;
    assert Ids([FIRST_ROW]) == {"p.a"} by {
      assert FIRST_ROW in [FIRST_ROW];
    }
    assert "p.b" != "p.a" by {
      assert "p.b"[2] != "p.a"[2];
    }
    assert [FIRST_ROW] + [SECOND_ROW] == [FIRST_ROW, SECOND_ROW];
  }

  lemma LooseRows()
    ensures Compile([BOTH], map[]) == Accepted([FIRST_ROW, SECOND_ROW])
  {
    hide Expand;
    LooseFirst();
    LooseSecond();
    var rows := [FIRST_ROW, SECOND_ROW];
    var parts := AtPath([FIRST, SECOND], ["p"]);
    assert parts == [Part(FIRST, ["p"]), Part(SECOND, ["p"])];
    assert parts[1..] == [Part(SECOND, ["p"])];
    assert [Part(SECOND, ["p"])][1..] == [];
    assert ExpandParallel([], map[], rows, [], 0.0) == Accepted(Grown(rows, []));
    assert ["p.b"] + [] == ["p.b"];
    assert ExpandParallel(parts[1..], map[], [FIRST_ROW], [], 0.0) == Accepted(Grown(rows, ["p.b"]));
    assert ExpandParallel(parts, map[], [], [], 0.0) == Accepted(Grown(rows, ["p.a"] + ["p.b"]));
    LooseRoot(parts, rows);
    assert rows[..1] == [FIRST_ROW];
    assert FIRST_ROW in rows[..1];
  }

  lemma LooseRoot(parts: seq<Part>, rows: seq<Row>)
    requires parts == [Part(FIRST, ["p"]), Part(SECOND, ["p"])]
    requires ExpandParallel(parts, map[], [], [], 0.0) == Accepted(Grown(rows, ["p.a"] + ["p.b"]))
    ensures Parts(BOTH, map[], []) == Accepted(parts)
    ensures ExpandSerial(AtPath([BOTH], []), map[], [], [], 0.0, 0.0) == Accepted(Grown(rows, ["p.a"] + ["p.b"]))
  {
    hide ExpandParallel;
    assert [] + ["p"] == ["p"];
    assert AtPath([FIRST, SECOND], ["p"]) == parts;
    assert Parts(BOTH, map[], []) == Accepted(parts);
    assert OwnDelay(BOTH, map[]) == Accepted(0.0);
    assert Expand(BOTH, map[], [], [], [], 0.0) == Accepted(Grown(rows, ["p.a"] + ["p.b"]));
    assert AtPath([BOTH], []) == [Part(BOTH, [])];
    assert [Part(BOTH, [])][1..] == [];
  }

  lemma LoosePeak(weights: Weights)
    requires weights == map["p.a" := 1, "p.b" := 1]
    ensures GraphPeak([BOTH], map[], weights) == 2
  {
    hide Expand;
    LooseFirst();
    LooseSecond();
    var parts := AtPath([FIRST, SECOND], ["p"]);
    assert parts == [Part(FIRST, ["p"]), Part(SECOND, ["p"])];
    assert parts[1..] == [Part(SECOND, ["p"])] && [Part(SECOND, ["p"])][1..] == [];
    assert [] + ["p"] == ["p"];
    assert PeakOfParallel(parts[1..], map[], weights) == 1;
    assert PeakOfParallel(parts, map[], weights) == 2;
    assert Peak(BOTH, map[], weights, []) == 2;
    assert AtPath([BOTH], []) == [Part(BOTH, [])];
    assert [Part(BOTH, [])][1..] == [] && PeakOfSerial([], map[], weights) == 0;
  }

  /** With a dependency between parallel branches the estimate can exceed every set of unrelated rows. */
  lemma PeakCanBeLoose()
    ensures Compile([BOTH], map[]) == Accepted([FIRST_ROW, SECOND_ROW])
    ensures var weights := map["p.a" := 1, "p.b" := 1];
      && GraphPeak([BOTH], map[], weights) == 2
      && forall chosen | Unrelated([FIRST_ROW, SECOND_ROW], chosen) ::
           Load([FIRST_ROW, SECOND_ROW], chosen, weights) <= 1
  {
    hide Compile, GraphPeak;
    var rows := [FIRST_ROW, SECOND_ROW];
    var weights: Weights := map["p.a" := 1, "p.b" := 1];
    LooseRows();
    LoosePeak(weights);
    assert SECOND_ROW in rows && Edge(rows, "p.a", "p.b");
    forall chosen | Unrelated(rows, chosen) ensures Load(rows, chosen, weights) <= 1 {
      EdgeIsAncestor(rows, "p.a", "p.b");
      AncestorsAreDependencies(rows, "p.a", "p.b");
      assert "p.a" != "p.b" by {
        assert "p.b"[2] != "p.a"[2];
      }
      assert !("p.a" in chosen && "p.b" in chosen);
      assert rows[1..] == [SECOND_ROW] && [SECOND_ROW][1..] == [];
      assert Load([SECOND_ROW], chosen, weights) == if "p.b" in chosen then 1 else 0;
    }
  }
}
