/**
  The dependent plan queue: at most one request of each family is out at a time, and a failure skips
  the rest of its family.
 */
module ProbeQueue {
  import opened Collections

  datatype Request = Request(family: string, occurrence: nat, dispatchIndex: nat, delay: nat)

  // ------------------------------------------------ stable sorting by a key

  predicate Sorted(items: seq<Request>, key: Request -> nat) {
    forall i, j | 0 <= i < j < |items| :: key(items[i]) <= key(items[j])
  }

  /** Appending and sorting a sorted list: the item goes after those with the same key. */
  function Insert(items: seq<Request>, item: Request, key: Request -> nat): seq<Request> {
    if items == [] || key(items[|items| - 1]) <= key(item) then items + [item]
    else Insert(items[..|items| - 1], item, key) + [items[|items| - 1]]
  }

  function SortBy(items: seq<Request>, key: Request -> nat): seq<Request> {
    if items == [] then [] else Insert(SortBy(items[..|items| - 1], key), items[|items| - 1], key)
  }

  lemma {:induction false} InsertKeeps(items: seq<Request>, item: Request, key: Request -> nat)
    requires Sorted(items, key)
    ensures Sorted(Insert(items, item, key), key)
    ensures multiset(Insert(items, item, key)) == multiset(items) + multiset{item}
    decreases |items|
  {
    if items != [] && key(items[|items| - 1]) > key(item) {
      var front, last := items[..|items| - 1], items[|items| - 1];
      assert items == front + [last];
      InsertKeeps(front, item, key);
      var inserted := Insert(front, item, key);
      forall k | 0 <= k < |inserted| ensures key(inserted[k]) <= key(last) {
        assert inserted[k] in multiset(inserted);
        assert inserted[k] == item || inserted[k] in front;
      }
      SortedAppend(inserted, last, key);
    } else {
      SortedAppend(items, item, key);
    }
  }

  lemma SortedAppend(items: seq<Request>, last: Request, key: Request -> nat)
    requires Sorted(items, key) && forall k | 0 <= k < |items| :: key(items[k]) <= key(last)
    ensures Sorted(items + [last], key)
  {
  }

  lemma {:induction false} SortKeeps(items: seq<Request>, key: Request -> nat)
    ensures Sorted(SortBy(items, key), key) && multiset(SortBy(items, key)) == multiset(items)
    decreases |items|
  {
    if items != [] {
      var front, last := items[..|items| - 1], items[|items| - 1];
      assert items == front + [last];
      SortKeeps(front, key);
      InsertKeeps(SortBy(front, key), last, key);
    }
  }

  lemma MembersKept(before: seq<Request>, after: seq<Request>)
    requires multiset(before) == multiset(after)
    ensures |before| == |after| && forall item :: item in before <==> item in after
  {
    assert |multiset(before)| == |multiset(after)|;
    forall item ensures item in before <==> item in after {
      assert item in multiset(before) <==> item in multiset(after);
    }
  }

  function Occurrence(): Request -> nat {
    (request: Request) => request.occurrence
  }

  function Dispatch(): Request -> nat {
    (request: Request) => request.dispatchIndex
  }

  // ------------------------------------------------ families

  function OfFamily(plan: seq<Request>, family: string): seq<Request> {
    if plan == [] then []
    else
      var last := |plan| - 1;
      OfFamily(plan[..last], family) + if plan[last].family == family then [plan[last]] else []
  }

  /** A family's requests by occurrence. */
  function Chain(plan: seq<Request>, family: string): seq<Request> {
    SortBy(OfFamily(plan, family), Occurrence())
  }

  function Families(plan: seq<Request>): set<string> {
    set request | request in plan :: request.family
  }

  lemma {:induction false} OfFamilyMembers(plan: seq<Request>, family: string)
    ensures forall item :: item in OfFamily(plan, family) <==> item in plan && item.family == family
    decreases |plan|
  {
    if plan != [] {
      var last := |plan| - 1;
      assert plan == plan[..last] + [plan[last]];
      OfFamilyMembers(plan[..last], family);
    }
  }

  lemma ChainMembers(plan: seq<Request>, family: string)
    ensures forall item :: item in Chain(plan, family) <==> item in plan && item.family == family
    ensures Sorted(Chain(plan, family), Occurrence())
    ensures forall i, j | 0 <= i < j < |Chain(plan, family)| ::
              Chain(plan, family)[i].occurrence <= Chain(plan, family)[j].occurrence
  {
    OfFamilyMembers(plan, family);
    SortKeeps(OfFamily(plan, family), Occurrence());
    MembersKept(Chain(plan, family), OfFamily(plan, family));
  }

  // ------------------------------------------------ where each family is

  datatype Place = Ready | Claimed | Delayed | Succeeded | Failed

  /** The family's request number `at` is at `place`; the earlier ones succeeded. */
  datatype Stage = Stage(at: nat, place: Place) {
    predicate Out() {
      place.Claimed? || place.Delayed?
    }

    predicate Settled() {
      place.Succeeded? || place.Failed?
    }
  }

  type Stages = map<string, Stage>

  function Outgoing(stages: Stages): set<string> {
    set family | family in stages && stages[family].Out()
  }

  /** What a completion makes of its family: the next occurrence, success of the whole, or failure. */
  function AfterComplete(stage: Stage, chain: seq<Request>, success: bool): Stage {
    if !success then Stage(stage.at, Failed)
    else if stage.at + 1 >= |chain| then Stage(stage.at, Succeeded)
    else Stage(stage.at + 1, if chain[stage.at + 1].delay != 0 then Delayed else Ready)
  }

  type Chains = map<string, seq<Request>>

  /** Every family has at least one request, and its requests carry its name. */
  ghost predicate ProperChains(chains: Chains) {
    forall family | family in chains ::
      chains[family] != [] && forall k | 0 <= k < |chains[family]| :: chains[family][k].family == family
  }

  predicate At(chains: Chains, stages: Stages, family: string) {
    family in chains && family in stages && stages[family].at < |chains[family]|
  }

  /** Requests that will never be sent: those after a failed one. */
  predicate IsSkipped(chains: Chains, stages: Stages, request: Request) {
    && At(chains, stages, request.family) && stages[request.family].place.Failed?
    && request in chains[request.family][stages[request.family].at + 1..]
  }

  predicate IsReady(chains: Chains, stages: Stages, request: Request) {
    && At(chains, stages, request.family) && stages[request.family].place.Ready?
    && request == chains[request.family][stages[request.family].at]
  }

  /** What a family still has to send follows the request it is at; a settled family sends no more. */
  ghost predicate FamilyAgrees(chain: seq<Request>, stage: Stage, remaining: seq<Request>) {
    && stage.at < |chain|
    && remaining == (if stage.Settled() then [] else chain[stage.at + 1..])
    && (stage.place.Succeeded? ==> stage.at + 1 == |chain|)
  }

  ghost predicate FamiliesAgree(chains: Chains, stages: Stages, families: map<string, seq<Request>>) {
    && stages.Keys == families.Keys == chains.Keys
    && forall family | family in stages :: FamilyAgrees(chains[family], stages[family], families[family])
  }

  /** The ready list holds exactly the ready requests, each once, in dispatch order. */
  ghost predicate ReadyAgrees(chains: Chains, stages: Stages, ready: seq<Request>) {
    && Sorted(ready, Dispatch())
    && (forall request :: request in ready <==> IsReady(chains, stages, request))
    && (forall i, j | 0 <= i < j < |ready| :: ready[i] != ready[j])
  }

  ghost predicate SkippedAgrees(chains: Chains, stages: Stages, skipped: seq<Request>) {
    forall request :: request in skipped <==> IsSkipped(chains, stages, request)
  }

  /** The queue's fields agree with where every family is. */
  ghost predicate Agrees(chains: Chains, stages: Stages, families: map<string, seq<Request>>,
                         ready: seq<Request>, skipped: seq<Request>, inflight: int) {
    && ProperChains(chains) && FamiliesAgree(chains, stages, families) && ReadyAgrees(chains, stages, ready)
    && inflight == |Outgoing(stages)| && SkippedAgrees(chains, stages, skipped)
  }

  // ------------------------------------------------ transitions

  lemma OutgoingAfter(stages: Stages, family: string, stage: Stage)
    requires family in stages
    ensures |Outgoing(stages[family := stage])| + (if stages[family].Out() then 1 else 0)
         == |Outgoing(stages)| + (if stage.Out() then 1 else 0)
  {
    var rest := Outgoing(stages) - {family};
    assert Outgoing(stages) == if stages[family].Out() then rest + {family} else rest;
    assert Outgoing(stages[family := stage]) == if stage.Out() then rest + {family} else rest;
  }

  lemma FamiliesAfter(chains: Chains, stages: Stages, families: map<string, seq<Request>>, family: string, stage: Stage,
                      remaining: seq<Request>)
    requires FamiliesAgree(chains, stages, families) && family in stages
             && FamilyAgrees(chains[family], stage, remaining)
    ensures FamiliesAgree(chains, stages[family := stage], families[family := remaining])
  {
    forall other | other in stages
      ensures FamilyAgrees(chains[other], stages[family := stage][other], families[family := remaining][other])
    {
      assert other != family ==> FamilyAgrees(chains[other], stages[other], families[other]);
    }
  }

  /** The ready list after a family moved: its old request is out, its new one in if it is ready. */
  lemma ReadyMembersAfter(chains: Chains, stages: Stages, ready: seq<Request>, after: seq<Request>, family: string,
                          stage: Stage)
    requires ProperChains(chains) && (forall request :: request in ready <==> IsReady(chains, stages, request))
    requires family in chains && family in stages && stage.at < |chains[family]|
    requires forall request :: request in after <==>
               (request in ready && request.family != family)
               || (stage.place.Ready? && request == chains[family][stage.at])
    ensures forall request :: request in after <==> IsReady(chains, stages[family := stage], request)
  {
    assert chains[family][stage.at].family == family;
  }

  /** A family that fails adds what it had left to the skipped list; nothing else changes it. */
  lemma SkippedAfter(chains: Chains, stages: Stages, skipped: seq<Request>, family: string, stage: Stage)
    requires ProperChains(chains) && SkippedAgrees(chains, stages, skipped)
    requires family in chains && family in stages && stage.at < |chains[family]| && !stages[family].place.Failed?
    ensures SkippedAgrees(chains, stages[family := stage],
                          skipped + if stage.place.Failed? then chains[family][stage.at + 1..] else [])
  {
    var added := if stage.place.Failed? then chains[family][stage.at + 1..] else [];
    forall request | request in added ensures request.family == family {
      var k :| 0 <= k < |added| && added[k] == request;
      assert chains[family][stage.at + 1 + k] == request;
    }
    forall request ensures request in skipped + added <==> IsSkipped(chains, stages[family := stage], request) {
      assert request in skipped <==> IsSkipped(chains, stages, request);
    }
  }

  // ------------------------------------------------ the operations

  /** The first ready request is claimed. */
  lemma ClaimKeeps(chains: Chains, stages: Stages, families: map<string, seq<Request>>,
                   ready: seq<Request>, skipped: seq<Request>, inflight: int)
    requires Agrees(chains, stages, families, ready, skipped, inflight) && ready != []
    ensures At(chains, stages, ready[0].family)
    ensures var family := ready[0].family;
      Agrees(chains, stages[family := Stage(stages[family].at, Claimed)], families, ready[1..], skipped, inflight + 1)
  {
    hide ProperChains, FamiliesAgree, SkippedAgrees, ReadyAgrees, Sorted, IsReady, FamilyAgrees, Outgoing;
    FirstReady(chains, stages, ready);
    var family := ready[0].family;
    var stage := Stage(stages[family].at, Claimed);
    OutgoingAfter(stages, family, stage);
    FamilyAt(chains, stages, families, family);
    assert FamiliesAgree(chains, stages[family := stage], families) by {
      FamilyMoves(chains[family], stages[family], stage, families[family]);
      FamiliesAfter(chains, stages, families, family, stage, families[family]);
      assert families[family := families[family]] == families;
    }
    assert SkippedAgrees(chains, stages[family := stage], skipped) by {
      SkippedAfter(chains, stages, skipped, family, stage);
      assert skipped + [] == skipped;
    }
    RestReady(chains, stages, ready);
  }

  /** Its family was elsewhere and does not become ready, so the ready list stays. */
  lemma ReadyStays(chains: Chains, stages: Stages, ready: seq<Request>, family: string, stage: Stage)
    requires ProperChains(chains) && ReadyAgrees(chains, stages, ready) && family in chains && family in stages
    requires stage.at < |chains[family]| && !stages[family].place.Ready? && !stage.place.Ready?
    ensures ReadyAgrees(chains, stages[family := stage], ready)
  {
    NoneReady(chains, stages, ready, family);
    ReadyMembersAfter(chains, stages, ready, ready, family, stage);
  }

  function Leftover(chain: seq<Request>, stage: Stage): seq<Request>
    requires stage.at < |chain|
  {
    if stage.place.Failed? then chain[stage.at + 1..] else []
  }

  function ReadyAfter(ready: seq<Request>, chain: seq<Request>, stage: Stage): seq<Request>
    requires stage.at < |chain|
  {
    if stage.place.Ready? then Insert(ready, chain[stage.at], Dispatch()) else ready
  }

  /** Whatever becomes of a family that is out, the queue goes on agreeing with where families are. */
  lemma MoveKeeps(chains: Chains, stages: Stages, families: map<string, seq<Request>>, ready: seq<Request>,
                  skipped: seq<Request>, inflight: int, family: string, stage: Stage, remaining: seq<Request>)
    requires Agrees(chains, stages, families, ready, skipped, inflight)
    requires family in stages && stages[family].Out() && family in chains
             && FamilyAgrees(chains[family], stage, remaining)
    ensures stage.at < |chains[family]|
    ensures Agrees(chains, stages[family := stage], families[family := remaining],
                   ReadyAfter(ready, chains[family], stage), skipped + Leftover(chains[family], stage),
                   inflight - 1 + if stage.Out() then 1 else 0)
  {
    StageInRange(chains[family], stage, remaining);
    hide ProperChains, FamiliesAgree, SkippedAgrees, ReadyAgrees, Sorted, IsReady, FamilyAgrees, Outgoing, Insert;
    OutgoingAfter(stages, family, stage);
    FamiliesAfter(chains, stages, families, family, stage, remaining);
    SkippedAfter(chains, stages, skipped, family, stage);
    if stage.place.Ready? {
      InsertReady(chains, stages, ready, family, stage);
    } else {
      ReadyStays(chains, stages, ready, family, stage);
    }
  }

  lemma StageInRange(chain: seq<Request>, stage: Stage, remaining: seq<Request>)
    requires FamilyAgrees(chain, stage, remaining)
    ensures stage.at < |chain|
    ensures remaining == if stage.Settled() then [] else chain[stage.at + 1..]
  {
  }

  lemma FirstReady(chains: Chains, stages: Stages, ready: seq<Request>)
    requires ReadyAgrees(chains, stages, ready) && ready != []
    ensures IsReady(chains, stages, ready[0]) && At(chains, stages, ready[0].family)
            && stages[ready[0].family].place.Ready?
  {
    assert ready[0] in ready && IsReady(chains, stages, ready[0]);
  }

  lemma FirstIsEarliest(ready: seq<Request>)
    requires Sorted(ready, Dispatch()) && ready != []
    ensures forall other | other in ready :: ready[0].dispatchIndex <= other.dispatchIndex
  {
    forall other | other in ready ensures ready[0].dispatchIndex <= other.dispatchIndex {
      var k :| 0 <= k < |ready| && ready[k] == other;
      assert Dispatch()(ready[0]) <= Dispatch()(ready[k]);
    }
  }

  lemma FamilyAt(chains: Chains, stages: Stages, families: map<string, seq<Request>>, family: string)
    requires FamiliesAgree(chains, stages, families) && family in stages
    ensures family in chains && family in families && FamilyAgrees(chains[family], stages[family], families[family])
    ensures stages[family].at < |chains[family]|
  {
  }

  lemma RestReady(chains: Chains, stages: Stages, ready: seq<Request>)
    requires ProperChains(chains) && ReadyAgrees(chains, stages, ready) && ready != []
             && At(chains, stages, ready[0].family)
    ensures var family := ready[0].family;
      ReadyAgrees(chains, stages[family := Stage(stages[family].at, Claimed)], ready[1..])
  {
    RestWithout(chains, stages, ready);
    ReadyMembersAfter(chains, stages, ready, ready[1..], ready[0].family, Stage(stages[ready[0].family].at, Claimed));
  }

  lemma FamilyMoves(chain: seq<Request>, before: Stage, after: Stage, remaining: seq<Request>)
    requires FamilyAgrees(chain, before, remaining) && after.at == before.at && !before.Settled() && !after.Settled()
    ensures FamilyAgrees(chain, after, remaining)
  {
  }

  /** The rest of the ready list holds the other families' requests. */
  lemma RestWithout(chains: Chains, stages: Stages, ready: seq<Request>)
    requires ReadyAgrees(chains, stages, ready) && ready != []
    ensures forall request :: request in ready[1..] <==> request in ready && request.family != ready[0].family
    ensures Sorted(ready[1..], Dispatch())
  {
    assert ready == [ready[0]] + ready[1..];
    assert IsReady(chains, stages, ready[0]);
    forall request | request in ready && request.family == ready[0].family ensures request == ready[0] {
      assert IsReady(chains, stages, request);
    }
    forall request | request in ready[1..] ensures request != ready[0] {
      var k :| 0 <= k < |ready[1..]| && ready[1..][k] == request;
      assert ready[k + 1] == request;
    }
  }

  /** A request enters the ready list at its place; its family had none there. */
  lemma InsertReady(chains: Chains, stages: Stages, ready: seq<Request>, family: string, stage: Stage)
    requires ProperChains(chains) && ReadyAgrees(chains, stages, ready)
    requires family in chains && family in stages && stage.at < |chains[family]|
    requires !stages[family].place.Ready? && stage.place.Ready?
    ensures ReadyAgrees(chains, stages[family := stage], Insert(ready, chains[family][stage.at], Dispatch()))
  {
    hide Insert;
    var request := chains[family][stage.at];
    var after := Insert(ready, request, Dispatch());
    InsertKeeps(ready, request, Dispatch());
    MembersKept(after, ready + [request]);
    assert request.family == family && !IsReady(chains, stages, request);
    assert forall other | other in ready :: other.family != family by { NoneReady(chains, stages, ready, family); }
    ReadyMembersAfter(chains, stages, ready, after, family, stage);
    OnceEach(ready, request, after);
  }

  lemma NoneReady(chains: Chains, stages: Stages, ready: seq<Request>, family: string)
    requires (forall request :: request in ready <==> IsReady(chains, stages, request))
    requires family in stages && !stages[family].place.Ready?
    ensures forall other | other in ready :: other.family != family
  {
    forall other | other in ready ensures other.family != family {
      assert IsReady(chains, stages, other);
    }
  }

  lemma {:induction false} DistinctCounts(items: seq<Request>)
    ensures Distinct(items) <==> forall item | item in multiset(items) :: multiset(items)[item] == 1
    decreases |items|
  {
    if items != [] {
      var front, last := items[..|items| - 1], items[|items| - 1];
      assert items == front + [last];
      DistinctCounts(front);
      if Distinct(items) {
        assert last !in front;
      } else if Distinct(front) {
        var i, j :| 0 <= i < j < |items| && items[i] == items[j];
        assert j == |items| - 1 && front[i] == last;
        assert last in multiset(front) && multiset(items)[last] >= 2;
      } else {
        var item :| item in multiset(front) && multiset(front)[item] != 1;
        assert multiset(items)[item] != 1;
      }
    }
  }

  lemma OnceEach(ready: seq<Request>, request: Request, after: seq<Request>)
    requires Distinct(ready) && request !in ready && multiset(after) == multiset(ready) + multiset{request}
    ensures Distinct(after)
  {
    DistinctCounts(ready);
    DistinctCounts(after);
    assert request !in multiset(ready);
  }

  // ------------------------------------------------ the queue

  function ChainsOf(plan: seq<Request>): Chains {
    map family | family in Families(plan) :: Chain(plan, family)
  }

  /** The requests so far, grouped in plan order; `order` lists the families by first appearance. */
  ghost predicate Grouped(plan: seq<Request>, families: map<string, seq<Request>>, order: seq<string>) {
    && families.Keys == Families(plan)
    && (forall family | family in families :: families[family] == OfFamily(plan, family))
    && (forall family :: family in order <==> family in families)
    && (forall i, j | 0 <= i < j < |order| :: order[i] != order[j])
  }

  lemma NothingGrouped(plan: seq<Request>)
    ensures Grouped(plan[..0], map[], [])
  {
  }

  lemma GroupOneMore(plan: seq<Request>, i: nat, families: map<string, seq<Request>>, order: seq<string>)
    requires i < |plan| && Grouped(plan[..i], families, order)
    ensures var family := plan[i].family;
      Grouped(plan[..i + 1], families[family := (if family in families then families[family] else []) + [plan[i]]],
              if family in families then order else order + [family])
  {
    var family := plan[i].family;
    hide Families, OfFamily;
    FamiliesNext(plan, i);
    NewFamily(plan[..i], family);
  }

  lemma FamiliesNext(plan: seq<Request>, i: nat)
    requires i < |plan|
    ensures Families(plan[..i + 1]) == Families(plan[..i]) + {plan[i].family}
    ensures forall family :: OfFamily(plan[..i + 1], family)
                          == OfFamily(plan[..i], family) + if family == plan[i].family then [plan[i]] else []
  {
    assert plan[..i + 1] == plan[..i] + [plan[i]] && plan[..i + 1][..i] == plan[..i];
  }

  lemma {:induction false} NewFamily(plan: seq<Request>, family: string)
    ensures family !in Families(plan) ==> OfFamily(plan, family) == []
    decreases |plan|
  {
    if plan != [] {
      var last := |plan| - 1;
      assert plan == plan[..last] + [plan[last]];
      assert plan[last] in plan;
      if family !in Families(plan) {
        assert forall request | request in plan[..last] :: request in plan;
        NewFamily(plan[..last], family);
      }
    }
  }

  /** The first `count` families have been sorted and their first requests readied. */
  ghost predicate Started(plan: seq<Request>, families: map<string, seq<Request>>, order: seq<string>,
                          ready: seq<Request>, count: nat)
  {
    && families.Keys == Families(plan) && count <= |order| == |order| && |ready| == count
    && (forall family :: family in order <==> family in families)
    && (forall i, j | 0 <= i < j < |order| :: order[i] != order[j])
    && (forall k | 0 <= k < |order| :: Chain(plan, order[k]) != [])
    && (forall k | 0 <= k < |order| ::
        families[order[k]] == if k < count then Chain(plan, order[k])[1..] else OfFamily(plan, order[k]))
    && (forall k | 0 <= k < count :: ready[k] == Chain(plan, order[k])[0])
  }

  lemma ChainExists(plan: seq<Request>, family: string)
    requires family in Families(plan)
    ensures Chain(plan, family) != []
  {
    ChainMembers(plan, family);
    var request :| request in plan && request.family == family;
    assert request in Chain(plan, family);
  }

  lemma GroupingStarts(plan: seq<Request>, families: map<string, seq<Request>>, order: seq<string>)
    requires Grouped(plan, families, order)
    ensures Started(plan, families, order, [], 0)
  {
    hide Chain, OfFamily;
    forall k | 0 <= k < |order| ensures Chain(plan, order[k]) != [] {
      assert order[k] in order;
      ChainExists(plan, order[k]);
    }
  }

  lemma StartOneMore(plan: seq<Request>, families: map<string, seq<Request>>, order: seq<string>, ready: seq<Request>,
                     i: nat)
    requires Started(plan, families, order, ready, i) && i < |order|
    ensures order[i] in families && SortBy(families[order[i]], Occurrence()) == Chain(plan, order[i]) != []
    ensures Started(plan, families[order[i] := Chain(plan, order[i])[1..]], order, ready + [Chain(plan, order[i])[0]],
                    i + 1)
  {
    hide SortBy, OfFamily, Chain, Families, Occurrence;
    ChainIsSorted(plan, order[i]);
    assert order[i] in order && order[i] in families;
  }

  lemma ChainIsSorted(plan: seq<Request>, family: string)
    ensures Chain(plan, family) == SortBy(OfFamily(plan, family), Occurrence())
  {
  }

  function AllReady(chains: Chains): Stages {
    map family | family in chains :: Stage(0, Ready)
  }

  lemma ChainsAreProper(plan: seq<Request>)
    ensures ProperChains(ChainsOf(plan))
  {
    hide Chain;
    forall family | family in ChainsOf(plan)
      ensures Chain(plan, family) != [] && forall k | 0 <= k < |Chain(plan, family)| ::
                Chain(plan, family)[k].family == family
    {
      ChainExists(plan, family);
      ChainMembers(plan, family);
      forall k | 0 <= k < |Chain(plan, family)| ensures Chain(plan, family)[k].family == family {
        assert Chain(plan, family)[k] in Chain(plan, family);
      }
    }
  }

  lemma StartedReady(plan: seq<Request>, families: map<string, seq<Request>>, order: seq<string>, ready: seq<Request>)
    requires Started(plan, families, order, ready, |order|)
    ensures ReadyAgrees(ChainsOf(plan), AllReady(ChainsOf(plan)), SortBy(ready, Dispatch()))
  {
    hide Chain, SortBy;
    StartedFirsts(plan, families, order, ready);
    SortKeeps(ready, Dispatch());
    MembersKept(SortBy(ready, Dispatch()), ready);
    DistinctCounts(ready);
    DistinctCounts(SortBy(ready, Dispatch()));
  }

  /** Before sorting, the ready list holds the first request of each family once. */
  lemma StartedFirsts(plan: seq<Request>, families: map<string, seq<Request>>, order: seq<string>, ready: seq<Request>)
    requires Started(plan, families, order, ready, |order|)
    ensures Distinct(ready)
    ensures forall request :: request in ready <==> IsReady(ChainsOf(plan), AllReady(ChainsOf(plan)), request)
  {
    hide Chain;
    var chains := ChainsOf(plan);
    ChainsAreProper(plan);
    forall k | 0 <= k < |order|
      ensures order[k] in chains && ready[k] == chains[order[k]][0] && ready[k].family == order[k]
    {
      assert order[k] in order;
    }
    forall request ensures request in ready <==> IsReady(chains, AllReady(chains), request) {
      if request.family in chains && request == chains[request.family][0] {
        var k :| 0 <= k < |order| && order[k] == request.family;
        assert ready[k] == request;
      }
    }
  }

  lemma StartedAgrees(plan: seq<Request>, families: map<string, seq<Request>>, order: seq<string>, ready: seq<Request>)
    requires Started(plan, families, order, ready, |order|)
    ensures Agrees(ChainsOf(plan), AllReady(ChainsOf(plan)), families, SortBy(ready, Dispatch()), [], 0)
  {
    hide Chain, SortBy, ReadyAgrees, ProperChains, Started, FamiliesAgree, SkippedAgrees, AllReady, ChainsOf;
    StartedReady(plan, families, order, ready);
    ChainsAreProper(plan);
    StartedFamilies(plan, families, order, ready);
    NothingSkipped(ChainsOf(plan));
  }

  lemma StartedFamilies(plan: seq<Request>, families: map<string, seq<Request>>, order: seq<string>,
                        ready: seq<Request>)
    requires Started(plan, families, order, ready, |order|)
    ensures FamiliesAgree(ChainsOf(plan), AllReady(ChainsOf(plan)), families)
  {
    hide Chain, OfFamily;
    forall family | family in ChainsOf(plan)
      ensures FamilyAgrees(Chain(plan, family), Stage(0, Ready), families[family])
    {
      assert family in order;
      var k :| 0 <= k < |order| && order[k] == family;
    }
  }

  lemma NothingSkipped(chains: Chains)
    ensures SkippedAgrees(chains, AllReady(chains), []) && Outgoing(AllReady(chains)) == {}
  {
  }

  datatype Claim = Taken(request: Request) | Wait | Nothing

  class DependentPlanQueue {
    ghost const chains: Chains
    ghost var stages: Stages
    var families: map<string, seq<Request>>
    var ready: seq<Request>
    var skipped: seq<Request>
    var inflight: int
    var closed: bool

    ghost predicate Valid()
      reads this
    {
      Agrees(chains, stages, families, ready, skipped, inflight)
    }

    /** Groups the plan by family and readies the first occurrence of each. */
    constructor (plan: seq<Request>)
      ensures Valid() && chains == ChainsOf(plan) && !closed
      ensures stages == AllReady(chains)
    {
      families, ready, skipped, inflight, closed := map[], [], [], 0, false;
      chains := ChainsOf(plan);
      stages := AllReady(ChainsOf(plan));
      new;
      hide SortBy, OfFamily, Chain, Grouped, Started, Agrees, AllReady;
      var order: seq<string> := [];
      assert Grouped(plan[..0], families, order) by { NothingGrouped(plan); }
      for i := 0 to |plan|
        invariant Grouped(plan[..i], families, order)
        invariant ready == [] && skipped == [] && inflight == 0 && !closed
        invariant stages == AllReady(ChainsOf(plan))
      {
        GroupOneMore(plan, i, families, order);
        ghost var before := families;
        var family := plan[i].family;
        if family !in families {
          families, order := families[family := []], order + [family];
        }
        families := families[family := families[family] + [plan[i]]];
        assert families == before[family := families[family]];
      }
      assert plan[..|plan|] == plan;
      GroupingStarts(plan, families, order);
      for i := 0 to |order|
        invariant Started(plan, families, order, ready, i)
        invariant skipped == [] && inflight == 0 && !closed
        invariant stages == AllReady(ChainsOf(plan))
      {
        StartOneMore(plan, families, order, ready, i);
        var requests := SortBy(families[order[i]], Occurrence());
        ready := ready + [requests[0]];
        families := families[order[i] := requests[1..]];
      }
      StartedAgrees(plan, families, order, ready);
      ready := SortBy(ready, Dispatch());
    }

    /**
      One look under the lock. Without a close or an expired deadline, nothing is returned only when
      every planned request has completed or is skipped.
     */
    method ClaimNext(expired: bool) returns (claim: Claim)
      requires Valid()
      modifies this
      ensures Valid()
      ensures claim.Taken? ==>
                && !closed && old(IsReady(chains, stages, claim.request))
                && (forall other | other in old(ready) :: claim.request.dispatchIndex <= other.dispatchIndex)
                && stages == old(stages)[claim.request.family := Stage(old(stages)[claim.request.family].at, Claimed)]
      ensures !claim.Taken? ==> stages == old(stages)
      ensures claim.Nothing? && !closed ==> forall family | family in stages :: stages[family].Settled()
      ensures claim.Wait? ==> Outgoing(stages) != {} && !closed && !expired
      ensures closed == (old(closed) || (expired && old(ready) == [] && old(inflight) != 0))
    {
      hide Agrees, ReadyAgrees, FamiliesAgree, Sorted, IsReady, Outgoing;
      AgreesParts(chains, stages, families, ready, skipped, inflight);
      if ready == [] && inflight != 0 && !closed {
        if expired {
          closed := true;
          return Nothing;
        }
        return Wait;
      }
      if closed || ready == [] {
        if !closed {
          NothingLeft(chains, stages, families, skipped);
        }
        return Nothing;
      }
      var request := ready[0];
      assert ready[0] in ready && IsReady(chains, stages, ready[0]) by { FirstReady(chains, stages, ready); }
      ClaimKeeps(chains, stages, families, ready, skipped, inflight);
      FirstIsEarliest(ready);
      stages := stages[request.family := Stage(stages[request.family].at, Claimed)];
      ready, inflight := ready[1..], inflight + 1;
      return Taken(request);
    }

    /** A success readies or delays the family's next request; a failure skips all it had left. */
    method Complete(request: Request, success: bool)
      requires Valid() && At(chains, stages, request.family)
      requires stages[request.family].place.Claimed? && request == chains[request.family][stages[request.family].at]
      modifies this
      ensures Valid() && closed == old(closed)
      ensures stages == old(stages)[request.family := AfterComplete(old(stages)[request.family], chains[request.family],
                                                                    success)]
      ensures var (chain, at) := (chains[request.family], old(stages)[request.family].at);
        && (!success ==> stages[request.family] == Stage(at, Failed))
        && (success && at + 1 == |chain| ==> stages[request.family] == Stage(at, Succeeded))
        && (success && at + 1 < |chain| ==>
              stages[request.family] == Stage(at + 1, if chain[at + 1].delay == 0 then Ready else Delayed))
    {
      hide Agrees, FamiliesAgree, ReadyAgrees, SkippedAgrees, Insert, Outgoing, Sorted;
      AgreesParts(chains, stages, families, ready, skipped, inflight);
      var family := request.family;
      ghost var stage := AfterComplete(stages[family], chains[family], success);
      FamilyAt(chains, stages, families, family);
      MoveKeeps(chains, stages, families, ready, skipped, inflight, family, stage,
                if stage.Settled() then [] else chains[family][stage.at + 1..]);
      assert skipped + [] == skipped;
      inflight := inflight - 1;
      var remaining := families[family];
      if success && remaining != [] {
        var next := remaining[0];
        families := families[family := remaining[1..]];
        if next.delay != 0 {
          inflight := inflight + 1;
        } else {
          ready := Insert(ready, next, Dispatch());
        }
      } else if !success && remaining != [] {
        skipped := skipped + remaining;
        families := families[family := []];
      } else {
        assert families == families[family := []];
        assert !success ==> skipped == skipped + Leftover(chains[family], stage);
      }
      stages := stages[family := stage];
    }

    /** A delay has passed: the request becomes ready. */
    method Release(request: Request)
      requires Valid() && At(chains, stages, request.family)
      requires stages[request.family].place.Delayed? && request == chains[request.family][stages[request.family].at]
      modifies this
      ensures Valid() && closed == old(closed)
      ensures stages == old(stages)[request.family := Stage(old(stages)[request.family].at, Ready)]
    {
      hide Agrees, FamiliesAgree, ReadyAgrees, SkippedAgrees, Insert, Outgoing, Sorted;
      AgreesParts(chains, stages, families, ready, skipped, inflight);
      var family := request.family;
      ghost var stage := Stage(stages[family].at, Ready);
      FamilyAt(chains, stages, families, family);
      MoveKeeps(chains, stages, families, ready, skipped, inflight, family, stage, families[family]);
      assert skipped + [] == skipped && families[family := families[family]] == families;
      inflight := inflight - 1;
      ready := Insert(ready, request, Dispatch());
      stages := stages[family := stage];
    }

    method Close()
      requires Valid()
      modifies this`closed
      ensures Valid() && closed
    {
      closed := true;
    }
  }

  lemma AgreesParts(chains: Chains, stages: Stages, families: map<string, seq<Request>>,
                    ready: seq<Request>, skipped: seq<Request>, inflight: int)
    requires Agrees(chains, stages, families, ready, skipped, inflight)
    ensures ReadyAgrees(chains, stages, ready) && Sorted(ready, Dispatch()) && inflight == |Outgoing(stages)|
    ensures FamiliesAgree(chains, stages, families)
  {
  }

  /** Nothing ready and nothing out means that every family is settled. */
  lemma NothingLeft(chains: Chains, stages: Stages, families: map<string, seq<Request>>, skipped: seq<Request>)
    requires Agrees(chains, stages, families, [], skipped, 0)
    ensures forall family | family in stages :: stages[family].Settled()
  {
    forall family | family in stages ensures stages[family].Settled() {
      FamilyAt(chains, stages, families, family);
      var request := chains[family][stages[family].at];
      assert request.family == family;
      assert !IsReady(chains, stages, request) by { assert request !in []; }
      assert family !in Outgoing(stages);
    }
  }

  /** The requests a family has completed, up to the one it is at. */
  predicate IsCompleted(chains: Chains, stages: Stages, request: Request) {
    && At(chains, stages, request.family) && stages[request.family].Settled()
    && request in chains[request.family][..stages[request.family].at + 1]
  }

  /** Once every family is settled, each planned request has completed or is skipped behind a failure. */
  lemma EveryRequestAccounted(plan: seq<Request>, stages: Stages, families: map<string, seq<Request>>,
                              ready: seq<Request>, skipped: seq<Request>, inflight: int)
    requires Agrees(ChainsOf(plan), stages, families, ready, skipped, inflight)
    requires forall family | family in stages :: stages[family].Settled()
    ensures forall request | request in plan :: IsCompleted(ChainsOf(plan), stages, request) || request in skipped
    ensures forall request | request in skipped :: request in plan && stages[request.family].place.Failed?
  {
    hide Chain;
    var chains := ChainsOf(plan);
    forall request | request in plan ensures IsCompleted(chains, stages, request) || request in skipped {
      ChainMembers(plan, request.family);
      var chain, stage := chains[request.family], stages[request.family];
      assert FamilyAgrees(chain, stage, families[request.family]);
      assert chain == chain[..stage.at + 1] + chain[stage.at + 1..];
      assert request in skipped <==> IsSkipped(chains, stages, request);
    }
    forall request | request in skipped ensures request in plan && stages[request.family].place.Failed? {
      assert IsSkipped(chains, stages, request);
      ChainMembers(plan, request.family);
      assert request in chains[request.family];
    }
  }
}
