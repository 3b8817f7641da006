/** The planned span of a graph, the heaviest chain it stands for, and the runs it bounds. */
module PlannedSpan {
  import opened Expansion
  import opened Dependencies
  import opened Triggers

  /** The earliest offset at which a row can complete. */
  function Offset(rows: seq<Row>, id: string): real
    decreases |rows|, 0
  {
    if rows == [] then 0.0
    else
      var last, before := rows[|rows| - 1], rows[..|rows| - 1];
      if last.id == id then LatestOffset(before, last.dependencies) + last.after else Offset(before, id)
  }

  function LatestOffset(rows: seq<Row>, ids: seq<string>): real
    decreases |rows|, 1 + |ids|
  {
    if ids == [] then 0.0
    else if |ids| == 1 then Offset(rows, ids[0])
    else Later(Offset(rows, ids[0]), LatestOffset(rows, ids[1..]))
  }

  lemma {:induction false} OffsetStable(rows: seq<Row>, more: seq<Row>, id: string)
    requires id !in Ids(more)
    ensures Offset(rows + more, id) == Offset(rows, id)
    decreases |more|
  {
    if more == [] {
      assert rows + more == rows;
    } else {
      var before := more[..|more| - 1];
      assert more[|more| - 1] in more;
      assert (rows + more)[..|rows + more| - 1] == rows + before;
      OffsetStable(rows, before, id);
    }
  }

  lemma {:induction false} LatestOffsetBounds(rows: seq<Row>, ids: seq<string>)
    ensures forall id | id in ids :: Offset(rows, id) <= LatestOffset(rows, ids)
    ensures ids == [] || exists id | id in ids :: Offset(rows, id) == LatestOffset(rows, ids)
  {
    if |ids| > 1 {
      LatestOffsetBounds(rows, ids[1..]);
      assert forall id | id in ids :: id == ids[0] || id in ids[1..];
      var late :| late in ids[1..] && Offset(rows, late) == LatestOffset(rows, ids[1..]);
      assert late in ids && ids[0] in ids;
    } else if |ids| == 1 {
      assert ids[0] in ids;
    }
  }

  /** What the row at `i` adds to the latest of its dependencies. */
  lemma OffsetOfRow(rows: seq<Row>, i: nat)
    requires i < |rows| && UniqueIds(rows) && Backward(rows)
    ensures Offset(rows, rows[i].id) == LatestOffset(rows, rows[i].dependencies) + rows[i].after
  {
    hide Backward, UniqueIds, Offset, LatestOffset;
    var before, row, after := rows[..i], rows[i], rows[i + 1..];
    DependenciesEarlier(rows, i);
    assert rows == before + [row] + after;
    OffsetInPlace(before, row, after);
    assert rows == before + ([row] + after);
    LatestOffsetStable(before, [row] + after, row.dependencies);
  }

  lemma OffsetInPlace(before: seq<Row>, row: Row, after: seq<Row>)
    requires UniqueIds(before + [row] + after)
    ensures Offset(before + [row] + after, row.id) == LatestOffset(before, row.dependencies) + row.after
  {
    hide LatestOffset;
    OwnIdOnce(before, row, after);
    OffsetStable(before + [row], after, row.id);
    assert (before + [row])[..|before|] == before;
  }

  lemma {:induction false} LatestOffsetStable(rows: seq<Row>, more: seq<Row>, ids: seq<string>)
    requires UniqueIds(rows + more) && forall id | id in ids :: id in Ids(rows)
    ensures LatestOffset(rows + more, ids) == LatestOffset(rows, ids)
  {
    if ids != [] {
      assert ids[0] in ids;
      var i :| 0 <= i < |rows| && rows[i].id == ids[0];
      forall row | row in more ensures row.id != ids[0] {
        var j :| 0 <= j < |more| && more[j] == row;
        assert (rows + more)[i].id != (rows + more)[|rows| + j].id;
      }
      OffsetStable(rows, more, ids[0]);
      LatestOffsetStable(rows, more, ids[1..]);
    }
  }

  lemma {:induction false} OffsetNonNegative(rows: seq<Row>, id: string)
    requires NonNegative(rows)
    ensures Offset(rows, id) >= 0.0
    decreases |rows|, 0
  {
    if rows != [] {
      var last, before := rows[|rows| - 1], rows[..|rows| - 1];
      assert last in rows;
      OffsetNonNegative(before, id);
      forall d | d in last.dependencies ensures Offset(before, d) >= 0.0 {
        OffsetNonNegative(before, d);
      }
      LatestOffsetBounds(before, last.dependencies);
    }
  }

  // ------------------------------------------------ chains

  /** The delay declared by the row with this identifier. */
  function DelayOf(rows: seq<Row>, id: string): real {
    if rows == [] then 0.0
    else if rows[0].id == id then rows[0].after
    else DelayOf(rows[1..], id)
  }

  lemma {:induction false} DelayOfRow(rows: seq<Row>, i: nat)
    requires i < |rows| && UniqueIds(rows)
    ensures DelayOf(rows, rows[i].id) == rows[i].after
  {
    if i > 0 {
      DelayOfRow(rows[1..], i - 1);
    }
  }

  function ChainDelay(rows: seq<Row>, chain: seq<string>): real {
    if chain == [] then 0.0
    else ChainDelay(rows, chain[..|chain| - 1]) + DelayOf(rows, chain[|chain| - 1])
  }

  lemma RowsAgree(rows: seq<Row>, i: nat, row: Row)
    requires i < |rows| && UniqueIds(rows) && row in rows && row.id == rows[i].id
    ensures row == rows[i]
  {
  }

  lemma {:induction false} ChainWithinOffset(rows: seq<Row>, chain: seq<string>)
    requires UniqueIds(rows) && Backward(rows) && NonNegative(rows) && chain != [] && Chain(rows, chain)
    ensures ChainDelay(rows, chain) <= Offset(rows, chain[|chain| - 1])
  {
    hide Backward, Offset, UniqueIds;
    var last, before := chain[|chain| - 1], chain[..|chain| - 1];
    var i :| 0 <= i < |rows| && rows[i].id == last;
    OffsetOfRow(rows, i);
    DelayOfRow(rows, i);
    LatestOffsetBounds(rows, rows[i].dependencies);
    forall d | d in rows[i].dependencies ensures Offset(rows, d) >= 0.0 {
      OffsetNonNegative(rows, d);
    }
    if before == [] {
      assert ChainDelay(rows, before) == 0.0;
      assert LatestOffset(rows, []) == 0.0;
    } else {
      assert Edge(rows, chain[|chain| - 2], chain[|chain| - 2 + 1]);
      var row :| row in rows && row.id == last && before[|before| - 1] in row.dependencies;
      RowsAgree(rows, i, row);
      assert Chain(rows, before) by {
        forall k | 0 <= k < |before| - 1 ensures Edge(rows, before[k], before[k + 1]) {
          assert Edge(rows, chain[k], chain[k + 1]);
        }
      }
      ChainWithinOffset(rows, before);
    }
  }

  lemma {:induction false} OffsetHasChain(rows: seq<Row>, i: nat) returns (chain: seq<string>)
    requires i < |rows| && UniqueIds(rows) && Backward(rows)
    ensures chain != [] && Chain(rows, chain) && chain[|chain| - 1] == rows[i].id
    ensures ChainDelay(rows, chain) == Offset(rows, rows[i].id)
  {
    hide Backward, Offset, UniqueIds;
    var row := rows[i];
    DependenciesEarlier(rows, i);
    OffsetOfRow(rows, i);
    DelayOfRow(rows, i);
    LatestOffsetBounds(rows, row.dependencies);
    if row.dependencies == [] {
      chain := [row.id];
      assert chain[..0] == [];
    } else {
      var d :| d in row.dependencies && Offset(rows, d) == LatestOffset(rows, row.dependencies);
      var j :| 0 <= j < i && rows[..i][j].id == d;
      assert rows[j].id == d;
      var before := OffsetHasChain(rows, j);
      assert Edge(rows, d, row.id);
      ChainSteps(rows, before, row.id);
      chain := before + [row.id];
      assert chain[..|before|] == before;
    }
  }

  // ------------------------------------------------ the span

  ghost predicate IsSpan(rows: seq<Row>, span: real) {
    && (forall chain | chain != [] && Chain(rows, chain) :: ChainDelay(rows, chain) <= span)
    && (if rows == [] then span == 0.0
        else exists chain :: chain != [] && Chain(rows, chain) && ChainDelay(rows, chain) == span)
  }

  lemma SpanIsHeaviestChain(rows: seq<Row>, span: real, heaviest: int)
    requires UniqueIds(rows) && Backward(rows) && NonNegative(rows)
    requires forall i | 0 <= i < |rows| :: Offset(rows, rows[i].id) <= span
    requires if rows == [] then span == 0.0
             else 0 <= heaviest < |rows| && Offset(rows, rows[heaviest].id) == span
    ensures IsSpan(rows, span)
  {
    forall chain | chain != [] && Chain(rows, chain) ensures ChainDelay(rows, chain) <= span {
      ChainWithinOffset(rows, chain);
      assert chain[|chain| - 1] in Ids(rows);
    }
    if rows != [] {
      var chain := OffsetHasChain(rows, heaviest);
    }
  }

  /** The largest of the given entries, zero when there is none. */
  function Largest(ids: seq<string>, offsets: map<string, real>): real
    requires forall id | id in ids :: id in offsets
  {
    if ids == [] then 0.0
    else if |ids| == 1 then offsets[ids[0]]
    else Later(offsets[ids[0]], Largest(ids[1..], offsets))
  }

  lemma {:induction false} LatestOfOffsets(rows: seq<Row>, ids: seq<string>, offsets: map<string, real>)
    requires forall id | id in ids :: id in offsets && offsets[id] == Offset(rows, id)
    ensures Largest(ids, offsets) == LatestOffset(rows, ids)
  {
    if ids != [] {
      assert ids[0] in ids;
      LatestOfOffsets(rows, ids[1..], offsets);
    }
  }

  lemma SpanStarts(rows: seq<Row>)
    ensures Ids(rows[..0]) == {}
    ensures forall i | 0 <= i < |rows| :: rows[i].id in Ids(rows[..i + 1])
  {
  }

  /** Completion offsets in row order; the span is the delay of the heaviest dependency chain. */
  method PlannedSpan(rows: seq<Row>) returns (span: real)
    requires UniqueIds(rows) && Backward(rows) && NonNegative(rows)
    ensures IsSpan(rows, span)
  {
    hide Offset, LatestOffset, IsSpan, Backward, UniqueIds, Ids;
    SpanStarts(rows);
    var offsets: map<string, real> := map[];
    span := 0.0;
    var heaviest := -1;
    for i := 0 to |rows|
      invariant offsets.Keys == Ids(rows[..i])
      invariant forall id | id in offsets :: offsets[id] == Offset(rows, id)
      invariant forall j | 0 <= j < i :: Offset(rows, rows[j].id) <= span
      invariant if i == 0 then span == 0.0 && heaviest == -1
                else 0 <= heaviest < i && Offset(rows, rows[heaviest].id) == span
    {
      var row := rows[i];
      DependenciesEarlier(rows, i);
      var latest := Largest(row.dependencies, offsets);
      LatestOfOffsets(rows, row.dependencies, offsets);
      OffsetOfRow(rows, i);
      IdsNext(rows, i);
      offsets := offsets[row.id := latest + row.after];
      if i == 0 || latest + row.after > span {
        span, heaviest := latest + row.after, i;
      }
    }
    assert rows[..|rows|] == rows;
    SpanIsHeaviestChain(rows, span, heaviest);
  }
}
