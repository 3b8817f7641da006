/** The order that dependencies induce on expanded rows. */
module Dependencies {
  import opened Expansion

  /** Every dependency names an earlier row. */
  ghost predicate Backward(rows: seq<Row>) {
    forall i | 0 <= i < |rows| :: forall d | d in rows[i].dependencies :: d in Ids(rows[..i])
  }

  // ------------------------------------------------ chains: the meaning of a transitive dependency

  ghost predicate Edge(rows: seq<Row>, earlier: string, later: string) {
    exists row :: row in rows && row.id == later && earlier in row.dependencies
  }

  ghost predicate Chain(rows: seq<Row>, chain: seq<string>) {
    && (forall i | 0 <= i < |chain| :: chain[i] in Ids(rows))
    && (forall i | 0 <= i < |chain| - 1 :: Edge(rows, chain[i], chain[i + 1]))
  }

  /** `later` waits, directly or through others, for `earlier`. */
  ghost predicate DependsOn(rows: seq<Row>, later: string, earlier: string) {
    exists chain :: |chain| >= 2 && chain[0] == earlier && chain[|chain| - 1] == later && Chain(rows, chain)
  }

  /** No two of the given rows are related by a transitive dependency. */
  ghost predicate Unrelated(rows: seq<Row>, chosen: set<string>) {
    forall a, b | a in chosen && b in chosen && a != b :: !DependsOn(rows, a, b)
  }

  // ------------------------------------------------ ancestor sets: the form the compiler computes

  function Ancestors(rows: seq<Row>, id: string): set<string>
    decreases |rows|, 0
  {
    if rows == [] then {}
    else
      var last, before := rows[|rows| - 1], rows[..|rows| - 1];
      if last.id != id then Ancestors(before, id)
      else (set d | d in last.dependencies) + AllAncestors(before, last.dependencies)
  }

  function AllAncestors(rows: seq<Row>, ids: seq<string>): set<string>
    decreases |rows|, 1
  {
    set d, a | d in ids && a in Ancestors(rows, d) :: a
  }

  /** The given rows and everything they wait for. */
  function Downset(rows: seq<Row>, ids: seq<string>): set<string> {
    (set d | d in ids) + AllAncestors(rows, ids)
  }

  lemma IdsAppend(rows: seq<Row>, more: seq<Row>)
    ensures Ids(rows + more) == Ids(rows) + Ids(more)
  {
    forall id | id in Ids(rows) + Ids(more)
      ensures id in Ids(rows + more)
    {
      var row :| (row in rows || row in more) && row.id == id;
      assert row in rows + more;
    }
  }

  lemma {:induction false} AncestorsStable(rows: seq<Row>, more: seq<Row>, id: string)
    requires id !in Ids(more)
    ensures Ancestors(rows + more, id) == Ancestors(rows, id)
    decreases |more|
  {
    if more == [] {
      assert rows + more == rows;
    } else {
      var before := more[..|more| - 1];
      assert more[|more| - 1] in more;
      assert (rows + more)[..|rows + more| - 1] == rows + before;
      AncestorsStable(rows, before, id);
    }
  }

  lemma {:induction false} AncestorsEarlier(rows: seq<Row>, id: string)
    requires Backward(rows)
    ensures Ancestors(rows, id) <= Ids(rows)
    ensures id !in Ids(rows) ==> Ancestors(rows, id) == {}
    decreases |rows|
  {
    if rows == [] {
    } else {
      var last, before := rows[|rows| - 1], rows[..|rows| - 1];
      assert rows == before + [last];
      IdsAppend(before, [last]);
      assert Backward(before) by {
        forall i | 0 <= i < |before| ensures forall d | d in before[i].dependencies :: d in Ids(before[..i]) {
          assert before[..i] == rows[..i] && before[i] == rows[i];
        }
      }
      assert last in rows;
      AncestorsEarlier(before, id);
      forall d | d in last.dependencies ensures Ancestors(before, d) <= Ids(before) {
        AncestorsEarlier(before, d);
      }
    }
  }

  lemma BackwardPrefix(rows: seq<Row>, more: seq<Row>)
    requires Backward(rows + more)
    ensures Backward(rows)
  {
    forall i | 0 <= i < |rows| ensures forall d | d in rows[i].dependencies :: d in Ids(rows[..i]) {
      assert (rows + more)[..i] == rows[..i] && (rows + more)[i] == rows[i];
    }
  }

  lemma {:induction false} AncestorsTransitive(rows: seq<Row>, a: string, b: string, c: string)
    requires UniqueIds(rows) && Backward(rows)
    requires a in Ancestors(rows, b) && b in Ancestors(rows, c)
    ensures a in Ancestors(rows, c)
    decreases |rows|
  {
    var last, before := rows[|rows| - 1], rows[..|rows| - 1];
    assert rows == before + [last];
    BackwardPrefix(before, [last]);
    if last.id == c {
      var d :| d in last.dependencies && (b == d || b in Ancestors(before, d));
      assert rows[..|rows| - 1] == before;
      assert d in Ids(before);
      AncestorsEarlier(before, d);
      assert b in Ids(before);
      assert Ancestors(rows, b) == Ancestors(before, b);
      if b != d {
        AncestorsTransitive(before, a, b, d);
      }
    } else {
      AncestorsEarlier(before, c);
      AncestorsTransitive(before, a, b, c);
    }
  }

  lemma EdgeIsAncestor(rows: seq<Row>, earlier: string, later: string)
    requires UniqueIds(rows) && Backward(rows)
    requires Edge(rows, earlier, later)
    ensures earlier in Ancestors(rows, later)
  {
    hide UniqueIds, Backward, Ancestors;
    var i :| 0 <= i < |rows| && rows[i].id == later && earlier in rows[i].dependencies;
    assert rows == rows[..i] + [rows[i]] + rows[i + 1..];
    AncestorsInPlace(rows[..i], rows[i], rows[i + 1..]);
  }

  lemma {:induction false} ChainIsAncestor(rows: seq<Row>, chain: seq<string>)
    requires UniqueIds(rows) && Backward(rows)
    requires |chain| >= 2 && Chain(rows, chain)
    ensures chain[0] in Ancestors(rows, chain[|chain| - 1])
  {
    EdgeIsAncestor(rows, chain[0], chain[1]);
    if |chain| > 2 {
      assert Chain(rows, chain[1..]) by {
        forall i | 0 <= i < |chain| - 2 ensures Edge(rows, chain[1..][i], chain[1..][i + 1]) {
          assert Edge(rows, chain[i + 1], chain[i + 2]);
        }
      }
      ChainIsAncestor(rows, chain[1..]);
      AncestorsTransitive(rows, chain[0], chain[1], chain[|chain| - 1]);
    }
  }

  lemma ChainSteps(rows: seq<Row>, chain: seq<string>, later: string)
    requires chain != [] && Chain(rows, chain) && later in Ids(rows) && Edge(rows, chain[|chain| - 1], later)
    ensures Chain(rows, chain + [later])
  {
    var longer := chain + [later];
    forall i | 0 <= i < |longer| - 1 ensures Edge(rows, longer[i], longer[i + 1]) {
      if i < |chain| - 1 {
        assert Edge(rows, chain[i], chain[i + 1]);
      }
    }
  }

  lemma {:induction false} ChainExtends(rows: seq<Row>, more: seq<Row>, chain: seq<string>)
    requires Chain(rows, chain)
    ensures Chain(rows + more, chain)
  {
    IdsAppend(rows, more);
    forall i | 0 <= i < |chain| - 1 ensures Edge(rows + more, chain[i], chain[i + 1]) {
      assert Edge(rows, chain[i], chain[i + 1]);
      var row :| row in rows && row.id == chain[i + 1] && chain[i] in row.dependencies;
      assert row in rows + more;
    }
  }

  lemma {:induction false} AncestorHasChain(rows: seq<Row>, earlier: string, later: string)
    requires Backward(rows) && earlier in Ancestors(rows, later)
    ensures DependsOn(rows, later, earlier)
    decreases |rows|, 0
  {
    var last, before := rows[|rows| - 1], rows[..|rows| - 1];
    assert rows == before + [last];
    BackwardPrefix(before, [last]);
    if last.id != later {
      AncestorHasChain(before, earlier, later);
      var chain :| |chain| >= 2 && chain[0] == earlier && chain[|chain| - 1] == later && Chain(before, chain);
      ChainExtends(before, [last], chain);
    } else {
      var d :| d in last.dependencies && (earlier == d || earlier in Ancestors(before, d));
      AncestorThroughLast(before, last, d, earlier);
    }
  }

  lemma AncestorThroughLast(before: seq<Row>, last: Row, d: string, earlier: string)
    requires Backward(before + [last]) && d in last.dependencies
    requires earlier == d || earlier in Ancestors(before, d)
    ensures DependsOn(before + [last], last.id, earlier)
    decreases |before|, 1
  {
    hide Backward, Ancestors, UniqueIds;
    var rows := before + [last];
    BackwardPrefix(before, [last]);
    LastDependency(before, last, d);
    if earlier == d {
      assert Chain(rows, [d]);
      ChainSteps(rows, [d], last.id);
      assert [d] + [last.id] == [d, last.id];
    } else {
      AncestorHasChain(before, earlier, d);
      var chain :| |chain| >= 2 && chain[0] == earlier && chain[|chain| - 1] == d && Chain(before, chain);
      ChainExtends(before, [last], chain);
      ChainSteps(rows, chain, last.id);
      assert (chain + [last.id])[0] == earlier;
    }
  }

  lemma LastDependency(before: seq<Row>, last: Row, d: string)
    requires Backward(before + [last]) && d in last.dependencies
    ensures d in Ids(before) && d in Ids(before + [last]) && last.id in Ids(before + [last])
    ensures Edge(before + [last], d, last.id)
  {
    var rows := before + [last];
    IdsAppend(before, [last]);
    assert last in rows;
    assert rows[..|before|] == before && rows[|before|] == last;
  }

  /** The ancestor sets the compiler accumulates row by row are exactly the transitive dependencies. */
  lemma AncestorsAreDependencies(rows: seq<Row>, earlier: string, later: string)
    requires UniqueIds(rows) && Backward(rows)
    ensures earlier in Ancestors(rows, later) <==> DependsOn(rows, later, earlier)
  {
    if DependsOn(rows, later, earlier) {
      var chain :| |chain| >= 2 && chain[0] == earlier && chain[|chain| - 1] == later && Chain(rows, chain);
      ChainIsAncestor(rows, chain);
    }
    if earlier in Ancestors(rows, later) {
      AncestorHasChain(rows, earlier, later);
    }
  }

  lemma {:induction false} NotOwnAncestor(rows: seq<Row>, id: string)
    requires UniqueIds(rows) && Backward(rows)
    ensures id !in Ancestors(rows, id)
    decreases |rows|
  {
    if rows != [] {
      var last, before := rows[|rows| - 1], rows[..|rows| - 1];
      assert rows == before + [last];
      BackwardPrefix(before, [last]);
      if last.id == id {
        assert id !in Ids(before);
        assert forall d | d in rows[|before|].dependencies :: d in Ids(before);
        forall d | d in last.dependencies ensures Ancestors(before, d) <= Ids(before) {
          AncestorsEarlier(before, d);
        }
      } else {
        NotOwnAncestor(before, id);
      }
    }
  }

  ghost predicate Antichain(rows: seq<Row>, chosen: set<string>) {
    forall a, b | a in chosen && b in chosen :: a !in Ancestors(rows, b)
  }

  lemma UnrelatedIsAntichain(rows: seq<Row>, chosen: set<string>)
    requires UniqueIds(rows) && Backward(rows)
    ensures Unrelated(rows, chosen) <==> Antichain(rows, chosen)
  {
    forall a, b | a in chosen && b in chosen ensures a in Ancestors(rows, b) <==> a != b && DependsOn(rows, b, a) {
      AncestorsAreDependencies(rows, a, b);
      NotOwnAncestor(rows, b);
    }
  }

  // ------------------------------------------------ one row in its place

  lemma IdsNext(rows: seq<Row>, i: nat)
    requires i < |rows|
    ensures Ids(rows[..i + 1]) == Ids(rows[..i]) + {rows[i].id}
  {
    assert rows[..i + 1] == rows[..i] + [rows[i]];
    IdsAppend(rows[..i], [rows[i]]);
    assert rows[i] in [rows[i]];
  }

  lemma DependenciesEarlier(rows: seq<Row>, i: nat)
    requires i < |rows| && Backward(rows)
    ensures forall d | d in rows[i].dependencies :: d in Ids(rows[..i])
  {
  }

  lemma OwnIdOnce(before: seq<Row>, row: Row, after: seq<Row>)
    requires UniqueIds(before + [row] + after)
    ensures row.id !in Ids(before) && row.id !in Ids(after)
  {
    var rows := before + [row] + after;
    forall other | other in before ensures other.id != row.id {
      var j :| 0 <= j < |before| && before[j] == other;
      assert rows[j].id != rows[|before|].id;
    }
    forall other | other in after ensures other.id != row.id {
      var j :| 0 <= j < |after| && after[j] == other;
      assert rows[|before|].id != rows[|before| + 1 + j].id;
    }
  }

  lemma AncestorsInPlace(before: seq<Row>, row: Row, after: seq<Row>)
    requires UniqueIds(before + [row] + after)
    ensures Ancestors(before + [row] + after, row.id) == Downset(before, row.dependencies)
    ensures Ancestors(before + [row], row.id) == Downset(before, row.dependencies)
    ensures forall id | id in Ids(before) :: Ancestors(before + [row], id) == Ancestors(before, id)
  {
    OwnIdOnce(before, row, after);
    AncestorsStable(before + [row], after, row.id);
    assert (before + [row])[..|before|] == before;
  }
}
