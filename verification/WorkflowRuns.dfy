/** Readiness of graph nodes and every run of a compiled graph that readiness drives. */
module WorkflowRuns {
  import opened Collections
  import opened Outcomes
  import opened Expansion
  import opened Dependencies
  import opened PlannedSpan
  import opened Triggers

  datatype NodeSnapshot = NodeSnapshot(nodeId: string, dependencies: seq<string>, delay: real, state: string,
                                       completedAt: Option<Instant>, terminalStatus: Option<string>)

  function CompletionsOf(nodes: seq<NodeSnapshot>): map<string, Completion> {
    if nodes == [] then map[]
    else
      var last, before := nodes[|nodes| - 1], CompletionsOf(nodes[..|nodes| - 1]);
      if last.terminalStatus.Some? && last.completedAt.Some? then
        before[last.nodeId := Completion(last.terminalStatus.value == "succeeded", last.completedAt.value)]
      else before
  }

  /** The instant a waiting node became due, if it is ready. */
  function DueAt(node: NodeSnapshot, completions: map<string, Completion>, createdAt: Instant, now: Instant)
    : Option<Instant>
  {
    if node.state != "pending" && node.state != "blocked" then None
    else
      var eligibility := DependencyTrigger(node.dependencies, createdAt, node.delay, now, completions);
      if eligibility.ready then eligibility.dueAt else None
  }

  /** A node is ready when it waits and its delay has passed since each dependency succeeded, or since the creation. */
  ghost predicate IsReady(node: NodeSnapshot, completions: map<string, Completion>, createdAt: Instant, now: Instant) {
    && node.state in {"pending", "blocked"}
    && (node.dependencies == [] ==> createdAt + node.delay <= now)
    && forall d | d in node.dependencies ::
         d in completions && completions[d].succeeded && completions[d].completedAt + node.delay <= now
  }

  lemma DueExactlyWhenReady(node: NodeSnapshot, completions: map<string, Completion>, createdAt: Instant, now: Instant)
    ensures DueAt(node, completions, createdAt, now).Some? <==> IsReady(node, completions, createdAt, now)
  {
    hide DependencyTrigger;
    TriggerExactly(node.dependencies, createdAt, node.delay, now, completions);
  }

  predicate UniqueNodes(nodes: seq<NodeSnapshot>) {
    forall i, j | 0 <= i < j < |nodes| :: nodes[i].nodeId != nodes[j].nodeId
  }

  function Entry<T>(entries: map<string, T>, key: string): Option<T> {
    if key in entries then Some(entries[key]) else None
  }

  method RecordedCompletions(nodes: seq<NodeSnapshot>) returns (completions: map<string, Completion>)
    ensures completions == CompletionsOf(nodes)
  {
    completions := map[];
    for i := 0 to |nodes|
      invariant completions == CompletionsOf(nodes[..i])
    {
      var node := nodes[i];
      assert nodes[..i + 1][..i] == nodes[..i];
      if node.terminalStatus.Some? && node.completedAt.Some? {
        completions := completions[node.nodeId := Completion(node.terminalStatus.value == "succeeded",
                                                             node.completedAt.value)];
      }
    }
    assert nodes[..|nodes|] == nodes;
  }

  /** Exactly the ready nodes, each with the instant at which it became due. */
  method ReadyNodes(nodes: seq<NodeSnapshot>, createdAt: Instant, now: Instant) returns (ready: map<string, Instant>)
    requires UniqueNodes(nodes)
    ensures forall id | id in ready :: exists i :: 0 <= i < |nodes| && nodes[i].nodeId == id
    ensures forall i | 0 <= i < |nodes| ::
              Entry(ready, nodes[i].nodeId) == DueAt(nodes[i], CompletionsOf(nodes), createdAt, now)
    ensures forall i | 0 <= i < |nodes| ::
              nodes[i].nodeId in ready <==> IsReady(nodes[i], CompletionsOf(nodes), createdAt, now)
  {
    hide IsReady;
    var completions := RecordedCompletions(nodes);
    ready := map[];
    for i := 0 to |nodes|
      invariant forall id | id in ready :: exists j :: 0 <= j < i && nodes[j].nodeId == id
      invariant forall j | 0 <= j < i ::
                  Entry(ready, nodes[j].nodeId) == DueAt(nodes[j], completions, createdAt, now)
    {
      var node := nodes[i];
      if node.state == "pending" || node.state == "blocked" {
        var eligibility := DependencyTrigger(node.dependencies, createdAt, node.delay, now, completions);
        if eligibility.ready && eligibility.dueAt.Some? {
          ready := ready[node.nodeId := eligibility.dueAt.value];
        }
      }
    }
    forall i | 0 <= i < |nodes| ensures nodes[i].nodeId in ready <==> IsReady(nodes[i], completions, createdAt, now) {
      DueExactlyWhenReady(nodes[i], completions, createdAt, now);
    }
  }

  // ------------------------------------------------ runs

  /** `due` remembers when each activated node became due. */
  datatype Progress = Progress(clock: Instant, due: map<string, Instant>, completions: map<string, Completion>)

  datatype Event = Activate(id: string, at: Instant) | Complete(id: string, at: Instant, succeeded: bool)

  function Snapshot(row: Row, progress: Progress): NodeSnapshot {
    var done := row.id in progress.completions;
    NodeSnapshot(row.id, row.dependencies, row.after, if row.id in progress.due then "emitted" else "pending",
                 if done then Some(progress.completions[row.id].completedAt) else None,
                 if done then Some(if progress.completions[row.id].succeeded then "succeeded" else "failed") else None)
  }

  function Snapshots(rows: seq<Row>, progress: Progress): seq<NodeSnapshot> {
    seq(|rows|, i requires 0 <= i < |rows| => Snapshot(rows[i], progress))
  }

  function RowOf(rows: seq<Row>, id: string): Option<Row> {
    if rows == [] then None else if rows[0].id == id then Some(rows[0]) else RowOf(rows[1..], id)
  }

  /** Time never goes back; only ready nodes are activated; only activated nodes complete, once. */
  function Step(rows: seq<Row>, createdAt: Instant, progress: Progress, event: Event): Option<Progress> {
    if event.at < progress.clock then None
    else
      match event
      case Activate(id, at) =>
        var row := RowOf(rows, id);
        if row.None? then None
        else
          var due := DueAt(Snapshot(row.value, progress), CompletionsOf(Snapshots(rows, progress)), createdAt, at);
          if due.None? then None else Some(progress.(clock := at, due := progress.due[id := due.value]))
      case Complete(id, at, succeeded) =>
        if id in progress.due && id !in progress.completions then
          Some(progress.(clock := at, completions := progress.completions[id := Completion(succeeded, at)]))
        else None
  }

  function Run(rows: seq<Row>, createdAt: Instant, events: seq<Event>): Option<Progress> {
    if events == [] then Some(Progress(createdAt, map[], map[]))
    else
      var before := Run(rows, createdAt, events[..|events| - 1]);
      if before.None? then None else Step(rows, createdAt, before.value, events[|events| - 1])
  }

  lemma {:induction false} RowOfFinds(rows: seq<Row>, id: string)
    requires UniqueIds(rows)
    ensures RowOf(rows, id).Some? <==> id in Ids(rows)
    ensures RowOf(rows, id).Some? ==> exists i ::
              0 <= i < |rows| && rows[i] == RowOf(rows, id).value && rows[i].id == id
  {
    if rows != [] {
      RowOfFinds(rows[1..], id);
      assert forall row | row in rows :: row == rows[0] || row in rows[1..];
    }
  }

  /** What a node can read from snapshots is exactly what the run has recorded. */
  lemma SnapshotsShowCompletions(rows: seq<Row>, progress: Progress)
    requires progress.completions.Keys <= Ids(rows)
    ensures CompletionsOf(Snapshots(rows, progress)) == progress.completions
  {
    SnapshotsPrefix(rows, progress, |rows|);
    assert rows[..|rows|] == rows;
  }

  lemma {:induction false} SnapshotsPrefix(rows: seq<Row>, progress: Progress, n: nat)
    requires n <= |rows|
    ensures CompletionsOf(Snapshots(rows[..n], progress))
         == map id | id in progress.completions && id in Ids(rows[..n]) :: progress.completions[id]
  {
    if n > 0 {
      SnapshotsPrefix(rows, progress, n - 1);
      IdsNext(rows, n - 1);
      assert Snapshots(rows[..n], progress)[..n - 1] == Snapshots(rows[..n - 1], progress);
    }
  }

  ghost predicate Consistent(rows: seq<Row>, createdAt: Instant, progress: Progress) {
    && progress.completions.Keys <= progress.due.Keys <= Ids(rows)
    && progress.clock >= createdAt
    && (forall id | id in progress.due ::
          createdAt + Offset(rows, id) <= progress.due[id] <= progress.clock)
    && (forall id | id in progress.completions :: progress.due[id] <= progress.completions[id].completedAt)
  }

  /** Every node completes at the instant it became due. */
  ghost predicate Punctual(progress: Progress) {
    && progress.completions.Keys <= progress.due.Keys
    && forall id | id in progress.completions :: progress.completions[id].completedAt == progress.due[id]
  }

  ghost predicate OnSchedule(rows: seq<Row>, createdAt: Instant, progress: Progress) {
    forall id | id in progress.due :: progress.due[id] == createdAt + Offset(rows, id)
  }

  lemma {:induction false} LatestFollowsOffsets(rows: seq<Row>, createdAt: Instant, steps: seq<string>,
                                                completions: map<string, Completion>)
    requires forall step | step in steps :: step in completions
    requires forall step | step in steps :: completions[step].completedAt == createdAt + Offset(rows, step)
    ensures LatestCompletion(steps, completions, createdAt) == createdAt + LatestOffset(rows, steps)
  {
    if steps != [] {
      assert steps[0] in steps;
      LatestFollowsOffsets(rows, createdAt, steps[1..], completions);
    }
  }

  /** Activation takes a new row whose dependencies have completed, and records when it became due. */
  lemma ActivatedRow(rows: seq<Row>, createdAt: Instant, progress: Progress, event: Event)
    returns (i: nat, due: Instant)
    requires UniqueIds(rows) && event.Activate? && progress.completions.Keys <= Ids(rows)
    requires Step(rows, createdAt, progress, event).Some?
    ensures i < |rows| && rows[i].id == event.id && event.id !in progress.due
    ensures forall d | d in rows[i].dependencies :: d in progress.completions
    ensures due == LatestCompletion(rows[i].dependencies, progress.completions, createdAt) + rows[i].after
    ensures progress.clock <= event.at && due <= event.at
    ensures Step(rows, createdAt, progress, event)
         == Some(progress.(clock := event.at, due := progress.due[event.id := due]))
  {
    hide UniqueIds, LatestCompletion, CompletionsOf, Snapshots, RowOf;
    SnapshotsShowCompletions(rows, progress);
    RowOfFinds(rows, event.id);
    i :| 0 <= i < |rows| && rows[i] == RowOf(rows, event.id).value && rows[i].id == event.id;
    due := LatestCompletion(rows[i].dependencies, progress.completions, createdAt) + rows[i].after;
  }

  lemma DueAfterOffset(rows: seq<Row>, createdAt: Instant, progress: Progress, i: nat)
    requires UniqueIds(rows) && Backward(rows) && i < |rows| && Consistent(rows, createdAt, progress)
    requires forall d | d in rows[i].dependencies :: d in progress.completions
    ensures var due := LatestCompletion(rows[i].dependencies, progress.completions, createdAt) + rows[i].after;
      && createdAt + Offset(rows, rows[i].id) <= due
      && (Punctual(progress) && OnSchedule(rows, createdAt, progress) ==> due == createdAt + Offset(rows, rows[i].id))
  {
    hide Backward, UniqueIds, Offset, LatestOffset, LatestCompletion;
    var row := rows[i];
    OffsetOfRow(rows, i);
    if Punctual(progress) && OnSchedule(rows, createdAt, progress) {
      LatestFollowsOffsets(rows, createdAt, row.dependencies, progress.completions);
    } else {
      LatestOffsetBounds(rows, row.dependencies);
      LatestBounds(row.dependencies, progress.completions, createdAt);
      NoDependencies(rows, progress.completions, createdAt);
    }
  }

  lemma ActivateKeeps(rows: seq<Row>, createdAt: Instant, progress: Progress, event: Event)
    requires UniqueIds(rows) && Backward(rows) && event.Activate?
    requires Consistent(rows, createdAt, progress) && Step(rows, createdAt, progress, event).Some?
    ensures var next := Step(rows, createdAt, progress, event).value;
      && Consistent(rows, createdAt, next) && event.id !in progress.due
      && (Punctual(progress) && OnSchedule(rows, createdAt, progress) ==> OnSchedule(rows, createdAt, next))
  {
    hide Backward, UniqueIds, Offset, LatestCompletion, Step, Punctual;
    var i, due := ActivatedRow(rows, createdAt, progress, event);
    DueAfterOffset(rows, createdAt, progress, i);
  }

  lemma NoDependencies(rows: seq<Row>, completions: map<string, Completion>, createdAt: Instant)
    ensures LatestOffset(rows, []) == 0.0 && LatestCompletion([], completions, createdAt) == createdAt
  {
  }

  lemma {:induction false} RunConsistent(rows: seq<Row>, createdAt: Instant, events: seq<Event>)
    requires UniqueIds(rows) && Backward(rows) && Run(rows, createdAt, events).Some?
    ensures var progress := Run(rows, createdAt, events).value;
      Consistent(rows, createdAt, progress) && (Punctual(progress) ==> OnSchedule(rows, createdAt, progress))
  {
    if events != [] {
      hide Offset, Backward, UniqueIds, CompletionsOf, Snapshots;
      var event := events[|events| - 1];
      RunConsistent(rows, createdAt, events[..|events| - 1]);
      var before := Run(rows, createdAt, events[..|events| - 1]).value;
      if event.Activate? {
        ActivateKeeps(rows, createdAt, before, event);
      }
      var progress := Step(rows, createdAt, before, event).value;
      if Punctual(progress) {
        assert Punctual(before) by {
          forall id | id in before.completions ensures before.completions[id].completedAt == before.due[id] {
            assert id in progress.completions;
          }
        }
      }
    }
  }

  /**
    In every run no node completes before its planned offset; when every node completes at the
    instant it became due, each completes exactly at its offset.
   */
  lemma CompletionsFollowOffsets(rows: seq<Row>, createdAt: Instant, events: seq<Event>, id: string)
    requires UniqueIds(rows) && Backward(rows) && Run(rows, createdAt, events).Some?
    requires id in Run(rows, createdAt, events).value.completions
    ensures var progress := Run(rows, createdAt, events).value;
      && createdAt + Offset(rows, id) <= progress.completions[id].completedAt
      && (Punctual(progress) ==> progress.completions[id].completedAt == createdAt + Offset(rows, id))
  {
    RunConsistent(rows, createdAt, events);
  }

  /** A run that completes the whole graph lasts at least the planned span, and exactly that when punctual. */
  lemma RunLastsTheSpan(rows: seq<Row>, createdAt: Instant, events: seq<Event>, span: real)
    requires UniqueIds(rows) && Backward(rows) && NonNegative(rows) && rows != [] && IsSpan(rows, span)
    requires Run(rows, createdAt, events).Some?
    requires Ids(rows) <= Run(rows, createdAt, events).value.completions.Keys
    ensures var completions := Run(rows, createdAt, events).value.completions;
      && (exists id | id in completions :: completions[id].completedAt >= createdAt + span)
      && (Punctual(Run(rows, createdAt, events).value) ==>
            forall id | id in completions :: completions[id].completedAt <= createdAt + span)
  {
    hide Run, Offset, Backward, UniqueIds;
    RunConsistent(rows, createdAt, events);
    var progress := Run(rows, createdAt, events).value;
    var chain :| chain != [] && Chain(rows, chain) && ChainDelay(rows, chain) == span;
    ChainWithinOffset(rows, chain);
    var last := chain[|chain| - 1];
    assert last in Ids(rows) && progress.completions[last].completedAt >= createdAt + span;
    if Punctual(progress) {
      forall id | id in progress.completions ensures progress.completions[id].completedAt <= createdAt + span {
        var i :| 0 <= i < |rows| && rows[i].id == id;
        var heaviest := OffsetHasChain(rows, i);
      }
    }
  }

  // ------------------------------------------------ a punctual run exists

  ghost predicate AllSettled(rows: seq<Row>, createdAt: Instant, progress: Progress) {
    progress.due.Keys == progress.completions.Keys && progress.due.Keys <= Ids(rows) && createdAt <= progress.clock
  }

  ghost predicate AsPlanned(rows: seq<Row>, createdAt: Instant, progress: Progress) {
    forall id | id in progress.due ::
      && progress.due[id] == createdAt + Offset(rows, id)
      && id in progress.completions && progress.completions[id] == Completion(true, progress.due[id])
  }

  ghost predicate NoneOverdue(rows: seq<Row>, createdAt: Instant, progress: Progress) {
    forall i | 0 <= i < |rows| && rows[i].id !in progress.due :: progress.clock <= createdAt + Offset(rows, rows[i].id)
  }

  /** So far every node activated has succeeded at its planned offset, and no other is planned earlier than now. */
  ghost predicate OnTrack(rows: seq<Row>, createdAt: Instant, progress: Progress) {
    && AllSettled(rows, createdAt, progress) && AsPlanned(rows, createdAt, progress)
    && NoneOverdue(rows, createdAt, progress)
  }

  /** The remaining row that is planned first, and first in order among those. */
  lemma NextPlanned(rows: seq<Row>, done: set<string>) returns (next: nat)
    requires !(Ids(rows) <= done)
    ensures next < |rows| && rows[next].id !in done
    ensures forall i | 0 <= i < |rows| && rows[i].id !in done ::
              Offset(rows, rows[next].id) < Offset(rows, rows[i].id)
              || (Offset(rows, rows[next].id) == Offset(rows, rows[i].id) && next <= i)
  {
    hide Offset;
    var id :| id in Ids(rows) && id !in done;
    next :| 0 <= next < |rows| && rows[next].id == id;
    var best: int := -1;
    for i := 0 to |rows|
      invariant -1 <= best < i && (best >= 0 ==> rows[best].id !in done)
      invariant forall j | 0 <= j < i && rows[j].id !in done ::
                  best >= 0 && (Offset(rows, rows[best].id) < Offset(rows, rows[j].id)
                                || (Offset(rows, rows[best].id) == Offset(rows, rows[j].id) && best <= j))
    {
      if rows[i].id !in done && (best < 0 || Offset(rows, rows[i].id) < Offset(rows, rows[best].id)) {
        best := i;
      }
    }
    next := best;
  }

  /** Its dependencies are planned no later and listed earlier, so they are done. */
  lemma DependenciesDone(rows: seq<Row>, done: set<string>, next: nat)
    requires UniqueIds(rows) && Backward(rows) && NonNegative(rows) && next < |rows|
    requires forall i | 0 <= i < |rows| && rows[i].id !in done ::
               Offset(rows, rows[next].id) < Offset(rows, rows[i].id)
               || (Offset(rows, rows[next].id) == Offset(rows, rows[i].id) && next <= i)
    ensures forall d | d in rows[next].dependencies :: d in done
  {
    hide Offset, LatestOffset, Backward, UniqueIds;
    OffsetOfRow(rows, next);
    LatestOffsetBounds(rows, rows[next].dependencies);
    DependenciesEarlier(rows, next);
    assert rows[next] in rows;
    forall d | d in rows[next].dependencies ensures d in done {
      var j :| 0 <= j < next && rows[..next][j].id == d;
      assert rows[j].id == d;
    }
  }

  lemma RowOfUnique(rows: seq<Row>, i: nat)
    requires UniqueIds(rows) && i < |rows|
    ensures RowOf(rows, rows[i].id) == Some(rows[i])
  {
    RowOfFinds(rows, rows[i].id);
    assert rows[i] in rows;
  }

  lemma DueAsPlanned(rows: seq<Row>, createdAt: Instant, progress: Progress, next: nat)
    requires UniqueIds(rows) && Backward(rows) && AsPlanned(rows, createdAt, progress)
    requires next < |rows| && rows[next].id !in progress.due
    requires forall d | d in rows[next].dependencies :: d in progress.due
    ensures var at := createdAt + Offset(rows, rows[next].id);
      DueAt(Snapshot(rows[next], progress), progress.completions, createdAt, at) == Some(at)
  {
    hide Offset, LatestOffset, Backward, UniqueIds, LatestCompletion, DependencyTrigger;
    var row := rows[next];
    OffsetOfRow(rows, next);
    LatestFollowsOffsets(rows, createdAt, row.dependencies, progress.completions);
    AllSucceeded(row.dependencies, createdAt, row.after, createdAt + Offset(rows, row.id), progress.completions);
  }

  /** The next row becomes ready exactly when planned. */
  lemma ActivatesAsPlanned(rows: seq<Row>, createdAt: Instant, progress: Progress, next: nat, activate: Event,
                           activated: Progress)
    requires UniqueIds(rows) && Backward(rows) && OnTrack(rows, createdAt, progress)
    requires next < |rows| && rows[next].id !in progress.due
    requires forall d | d in rows[next].dependencies :: d in progress.due
    requires activate == Activate(rows[next].id, createdAt + Offset(rows, rows[next].id))
    requires activated == progress.(clock := activate.at, due := progress.due[activate.id := activate.at])
    ensures Step(rows, createdAt, progress, activate) == Some(activated)
  {
    hide Offset, Backward, UniqueIds, CompletionsOf, Snapshots, DueAt, RowOf, AsPlanned, Snapshot, Ids;
    DueAsPlanned(rows, createdAt, progress, next);
    SnapshotsShowCompletions(rows, progress);
    RowOfUnique(rows, next);
  }

  function Left(rows: seq<Row>, progress: Progress): set<string> {
    Ids(rows) - progress.due.Keys
  }

  /** Activating and completing the next row as planned. */
  lemma NextAsPlanned(rows: seq<Row>, createdAt: Instant, progress: Progress)
    returns (activate: Event, activated: Progress, complete: Event, done: Progress)
    requires UniqueIds(rows) && Backward(rows) && NonNegative(rows) && OnTrack(rows, createdAt, progress)
    requires !(Ids(rows) <= progress.due.Keys)
    ensures Step(rows, createdAt, progress, activate) == Some(activated)
    ensures Step(rows, createdAt, activated, complete) == Some(done)
    ensures OnTrack(rows, createdAt, done) && |Left(rows, done)| < |Left(rows, progress)|
  {
    hide Offset, Backward, UniqueIds, Step, AsPlanned, NoneOverdue;
    var next := NextPlanned(rows, progress.due.Keys);
    DependenciesDone(rows, progress.due.Keys, next);
    var id, at := rows[next].id, createdAt + Offset(rows, rows[next].id);
    activate, complete := Activate(id, at), Complete(id, at, true);
    activated := progress.(clock := at, due := progress.due[id := at]);
    ActivatesAsPlanned(rows, createdAt, progress, next, activate, activated);
    CompletesAtOnce(rows, createdAt, activated, id, at);
    done := activated.(completions := activated.completions[id := Completion(true, at)]);
    StaysOnTrack(rows, createdAt, progress, next, at, done);
    hide OnTrack, AllSettled;
    assert id in Left(rows, progress) && id !in Left(rows, done);
    ProperSubsetSize(Left(rows, done), Left(rows, progress));
  }

  lemma {:induction false} PunctualFrom(rows: seq<Row>, createdAt: Instant, events: seq<Event>)
    returns (whole: seq<Event>)
    requires UniqueIds(rows) && Backward(rows) && NonNegative(rows)
    requires Run(rows, createdAt, events).Some? && OnTrack(rows, createdAt, Run(rows, createdAt, events).value)
    ensures Run(rows, createdAt, whole).Some?
    ensures OnTrack(rows, createdAt, Run(rows, createdAt, whole).value)
    ensures Ids(rows) <= Run(rows, createdAt, whole).value.due.Keys
    decreases |Left(rows, Run(rows, createdAt, events).value)|
  {
    hide Run, Backward, UniqueIds, Step, OnTrack, Ids;
    var progress := Run(rows, createdAt, events).value;
    if Ids(rows) <= progress.due.Keys {
      return events;
    }
    var activate, activated, complete, done := NextAsPlanned(rows, createdAt, progress);
    RunMore(rows, createdAt, events, activate);
    RunMore(rows, createdAt, events + [activate], complete);
    whole := PunctualFrom(rows, createdAt, events + [activate] + [complete]);
  }

  lemma RunMore(rows: seq<Row>, createdAt: Instant, events: seq<Event>, event: Event)
    ensures Run(rows, createdAt, events + [event])
         == if Run(rows, createdAt, events).None? then None
            else Step(rows, createdAt, Run(rows, createdAt, events).value, event)
  {
    assert (events + [event])[..|events|] == events;
  }

  lemma CompletesAtOnce(rows: seq<Row>, createdAt: Instant, activated: Progress, id: string, at: Instant)
    requires id in activated.due && id !in activated.completions && activated.clock == at
    ensures Step(rows, createdAt, activated, Complete(id, at, true))
         == Some(activated.(completions := activated.completions[id := Completion(true, at)]))
  {
  }

  lemma StaysOnTrack(rows: seq<Row>, createdAt: Instant, progress: Progress, next: nat, at: Instant, done: Progress)
    requires NonNegative(rows) && OnTrack(rows, createdAt, progress) && next < |rows| && rows[next].id !in progress.due
    requires forall i | 0 <= i < |rows| && rows[i].id !in progress.due ::
               Offset(rows, rows[next].id) <= Offset(rows, rows[i].id)
    requires at == createdAt + Offset(rows, rows[next].id)
    requires done == Progress(at, progress.due[rows[next].id := at],
                              progress.completions[rows[next].id := Completion(true, at)])
    ensures OnTrack(rows, createdAt, done) && rows[next].id in Ids(rows)
  {
    OffsetNonNegative(rows, rows[next].id);
    hide Offset, NonNegative, AllSettled, AsPlanned, NoneOverdue;
    assert rows[next] in rows;
    OneMoreSettled(rows, createdAt, progress, rows[next].id, at, done);
    OneMoreAsPlanned(rows, createdAt, progress, rows[next].id, at, done);
    OthersNotOverdue(rows, createdAt, progress, next, done);
  }

  lemma OneMoreAsPlanned(rows: seq<Row>, createdAt: Instant, progress: Progress, id: string, at: Instant,
                         done: Progress)
    requires AsPlanned(rows, createdAt, progress) && at == createdAt + Offset(rows, id)
    requires done == Progress(at, progress.due[id := at], progress.completions[id := Completion(true, at)])
    ensures AsPlanned(rows, createdAt, done)
  {
    hide Offset;
  }

  lemma OthersNotOverdue(rows: seq<Row>, createdAt: Instant, progress: Progress, next: nat, done: Progress)
    requires next < |rows| && done.clock == createdAt + Offset(rows, rows[next].id)
    requires done.due.Keys == progress.due.Keys + {rows[next].id}
    requires forall i | 0 <= i < |rows| && rows[i].id !in progress.due ::
               Offset(rows, rows[next].id) <= Offset(rows, rows[i].id)
    ensures NoneOverdue(rows, createdAt, done)
  {
    hide Offset;
  }

  lemma OneMoreSettled(rows: seq<Row>, createdAt: Instant, progress: Progress, id: string, at: Instant, done: Progress)
    requires AllSettled(rows, createdAt, progress) && id in Ids(rows) && createdAt <= at
    requires done == Progress(at, progress.due[id := at], progress.completions[id := Completion(true, at)])
    ensures AllSettled(rows, createdAt, done) && done.due.Keys == progress.due.Keys + {id}
  {
    assert done.completions.Keys == progress.completions.Keys + {id};
  }

  /**
    Every compiled graph has a run in which each node completes exactly at its planned offset: the span
    is attained.
   */
  lemma PunctualRunExists(rows: seq<Row>, createdAt: Instant) returns (events: seq<Event>)
    requires UniqueIds(rows) && Backward(rows) && NonNegative(rows)
    ensures Run(rows, createdAt, events).Some? && Punctual(Run(rows, createdAt, events).value)
    ensures var completions := Run(rows, createdAt, events).value.completions;
      && completions.Keys == Ids(rows)
      && forall id | id in completions :: completions[id] == Completion(true, createdAt + Offset(rows, id))
  {
    hide Offset, Backward, UniqueIds, Step;
    forall id | id in Ids(rows) ensures Offset(rows, id) >= 0.0 {
      OffsetNonNegative(rows, id);
    }
    events := PunctualFrom(rows, createdAt, []);
  }
}
