/** Rounds: every cycle repeats the phases, and only a campaign's earliest unfinished stage may execute. */
module Rounds {
  import opened Outcomes

  // ------------------------------------------------ expansion

  /** A template belongs to the phase of its group, or to the first phase. */
  datatype Template = Template(phase: Option<string>)

  /** One Runner of a round: its template (from one), cycle (from one), phase and stage. */
  datatype RoundRunner = RoundRunner(family: nat, cycle: nat, phase: string, stage: nat)

  /** An absent or empty phase counts as the first one. */
  function Assigned(template: Template, phases: seq<string>): string
    requires phases != []
  {
    if template.phase.Some? && template.phase.value != "" then template.phase.value else phases[0]
  }

  function StageIndex(phaseCount: nat, cycle: nat, phaseIndex: nat): int {
    (cycle - 1) * phaseCount + phaseIndex + 1
  }

  /** The Runners of the first `count` templates in one stage. */
  function StageRunners(templates: seq<Template>, count: nat, phases: seq<string>, cycle: nat,
                        phaseIndex: nat): seq<RoundRunner>
    requires phases != [] && count <= |templates| && phaseIndex < |phases| && cycle >= 1
  {
    if count == 0 then []
    else
      StageIsPositive(|phases|, cycle, phaseIndex);
      StageRunners(templates, count - 1, phases, cycle, phaseIndex)
      + if Assigned(templates[count - 1], phases) == phases[phaseIndex]
        then [RoundRunner(count, cycle, phases[phaseIndex], StageIndex(|phases|, cycle, phaseIndex))] else []
  }

  /** The Runners of the whole cycles before `cycle` and the first `phaseCount` phases of it. */
  function RunnersUpTo(templates: seq<Template>, phases: seq<string>, cycle: nat, phaseCount: nat): seq<RoundRunner>
    requires phases != [] && phaseCount <= |phases| && cycle >= 1
    decreases cycle, phaseCount
  {
    if phaseCount == 0 then (if cycle == 1 then [] else RunnersUpTo(templates, phases, cycle - 1, |phases|))
    else RunnersUpTo(templates, phases, cycle, phaseCount - 1)
         + StageRunners(templates, |templates|, phases, cycle, phaseCount - 1)
  }

  lemma StageIsPositive(phaseCount: nat, cycle: nat, phaseIndex: nat)
    requires cycle >= 1
    ensures StageIndex(phaseCount, cycle, phaseIndex) >= 1
  {
    assert (cycle - 1) * phaseCount >= 0;
  }

  /** Every stage of every cycle; without phases there is none. */
  function AllRunners(templates: seq<Template>, phases: seq<string>, cycle: nat): seq<RoundRunner>
    requires cycle >= 1
  {
    if phases == [] then [] else RunnersUpTo(templates, phases, cycle, 0)
  }

  lemma OneMoreRunner(templates: seq<Template>, family: nat, phases: seq<string>, cycle: nat, phaseIndex: nat)
    requires phases != [] && family < |templates| && phaseIndex < |phases| && cycle >= 1
    ensures StageIndex(|phases|, cycle, phaseIndex) >= 1
    ensures StageRunners(templates, family + 1, phases, cycle, phaseIndex)
         == StageRunners(templates, family, phases, cycle, phaseIndex)
            + if Assigned(templates[family], phases) == phases[phaseIndex]
              then [RoundRunner(family + 1, cycle, phases[phaseIndex], StageIndex(|phases|, cycle, phaseIndex))] else []
  {
    StageIsPositive(|phases|, cycle, phaseIndex);
  }

  lemma OneMoreStage(templates: seq<Template>, phases: seq<string>, cycle: nat, phaseIndex: nat)
    requires phaseIndex < |phases| && cycle >= 1
    ensures StageRunners(templates, 0, phases, cycle, phaseIndex) == []
    ensures RunnersUpTo(templates, phases, cycle, phaseIndex + 1)
         == RunnersUpTo(templates, phases, cycle, phaseIndex)
            + StageRunners(templates, |templates|, phases, cycle, phaseIndex)
  {
  }

  lemma OneMoreCycle(templates: seq<Template>, phases: seq<string>, cycle: nat)
    requires cycle >= 1
    ensures AllRunners(templates, phases, 1) == []
    ensures AllRunners(templates, phases, cycle)
            == if phases == [] then [] else RunnersUpTo(templates, phases, cycle, 0)
    ensures AllRunners(templates, phases, cycle + 1)
         == if phases == [] then [] else RunnersUpTo(templates, phases, cycle, |phases|)
  {
  }

  method ExpandRounds(templates: seq<Template>, cycles: nat, phases: seq<string>) returns (expanded: seq<RoundRunner>)
    ensures expanded == AllRunners(templates, phases, cycles + 1)
  {
    hide StageIndex, Assigned, AllRunners, RunnersUpTo, StageRunners;
    OneMoreCycle(templates, phases, 1);
    expanded := [];
    for cycle := 1 to cycles + 1
      invariant expanded == AllRunners(templates, phases, cycle)
    {
      OneMoreCycle(templates, phases, cycle);
      for phaseIndex := 0 to |phases|
        invariant expanded == if phases == [] then [] else RunnersUpTo(templates, phases, cycle, phaseIndex)
      {
        var stage := StageIndex(|phases|, cycle, phaseIndex);
        OneMoreStage(templates, phases, cycle, phaseIndex);
        for family := 0 to |templates|
          invariant expanded == RunnersUpTo(templates, phases, cycle, phaseIndex)
                              + StageRunners(templates, family, phases, cycle, phaseIndex)
        {
          OneMoreRunner(templates, family, phases, cycle, phaseIndex);
          if Assigned(templates[family], phases) == phases[phaseIndex] {
            expanded := expanded + [RoundRunner(family + 1, cycle, phases[phaseIndex], stage)];
          }
        }
      }
    }
  }

  /** Stages are numbered from one without gaps, phase after phase and cycle after cycle. */
  lemma StagesAreConsecutive(phaseCount: nat, cycle: nat, phaseIndex: nat)
    requires phaseIndex < phaseCount
    ensures StageIndex(phaseCount, 1, 0) == 1
    ensures StageIndex(phaseCount, cycle, phaseIndex + 1) == StageIndex(phaseCount, cycle, phaseIndex) + 1
    ensures phaseIndex == phaseCount - 1 ==>
              StageIndex(phaseCount, cycle + 1, 0) == StageIndex(phaseCount, cycle, phaseIndex) + 1
  {
    assert ((cycle + 1) - 1) * phaseCount == (cycle - 1) * phaseCount + phaseCount;
  }

  /** Stages are numbered in the order of cycles and, within a cycle, of phases. */
  lemma StagesAreLexicographic(phaseCount: nat, cycle: nat, phaseIndex: nat, otherCycle: nat, otherPhase: nat)
    requires phaseIndex < phaseCount && otherPhase < phaseCount
    ensures StageIndex(phaseCount, cycle, phaseIndex) < StageIndex(phaseCount, otherCycle, otherPhase)
        <==> cycle < otherCycle || (cycle == otherCycle && phaseIndex < otherPhase)
    ensures StageIndex(phaseCount, cycle, phaseIndex) == StageIndex(phaseCount, otherCycle, otherPhase)
        <==> cycle == otherCycle && phaseIndex == otherPhase
  {
    if cycle < otherCycle {
      CycleGap(phaseCount, cycle, otherCycle);
    } else if otherCycle < cycle {
      CycleGap(phaseCount, otherCycle, cycle);
    }
  }

  lemma {:induction false} CycleGap(phaseCount: nat, cycle: nat, later: nat)
    requires cycle < later
    ensures (cycle - 1) * phaseCount + phaseCount <= (later - 1) * phaseCount
    decreases later
  {
    if later > cycle + 1 {
      CycleGap(phaseCount, cycle, later - 1);
    }
  }

  /** The Runner a template has in a stage. */
  ghost predicate Planned(templates: seq<Template>, phases: seq<string>, cycle: nat, phaseIndex: nat,
                          runner: RoundRunner)
    requires phases != [] && phaseIndex < |phases|
  {
    && 1 <= runner.family <= |templates| && runner.cycle == cycle && runner.phase == phases[phaseIndex]
    && runner.stage == StageIndex(|phases|, cycle, phaseIndex)
    && BelongsTo(templates[runner.family - 1], phases, phases[phaseIndex])
  }

  /** A template that names a phase belongs to it, any other to the first one. */
  ghost predicate BelongsTo(template: Template, phases: seq<string>, phase: string)
    requires phases != []
  {
    || (template.phase == Some(phase) && phase != "")
    || (template.phase in {None, Some("")} && phase == phases[0])
  }

  ghost predicate FamiliesIncrease(runners: seq<RoundRunner>) {
    forall i, j | 0 <= i < j < |runners| :: runners[i].family < runners[j].family
  }

  lemma {:induction false} StageMembers(templates: seq<Template>, count: nat, phases: seq<string>, cycle: nat,
                                        phaseIndex: nat)
    requires phases != [] && count <= |templates| && phaseIndex < |phases| && cycle >= 1
    ensures forall runner :: runner in StageRunners(templates, count, phases, cycle, phaseIndex)
              <==> Planned(templates, phases, cycle, phaseIndex, runner) && runner.family <= count
    ensures FamiliesIncrease(StageRunners(templates, count, phases, cycle, phaseIndex))
  {
    if count > 0 {
      StageIsPositive(|phases|, cycle, phaseIndex);
      StageMembers(templates, count - 1, phases, cycle, phaseIndex);
      var earlier := StageRunners(templates, count - 1, phases, cycle, phaseIndex);
      forall k | 0 <= k < |earlier| ensures earlier[k].family < count {
        assert earlier[k] in earlier;
      }
    }
  }

  /** The stages of the first cycles, and of the first phases of the next. */
  predicate Before(cycle: nat, phaseCount: nat, otherCycle: nat, phaseIndex: nat) {
    1 <= otherCycle < cycle || (otherCycle == cycle && phaseIndex < phaseCount)
  }

  lemma {:induction false} ExpansionMembers(templates: seq<Template>, phases: seq<string>, cycle: nat, phaseCount: nat)
    requires phases != [] && phaseCount <= |phases| && cycle >= 1
    ensures forall runner :: runner in RunnersUpTo(templates, phases, cycle, phaseCount)
              <==> exists phaseIndex: nat ::
                phaseIndex < |phases| && Before(cycle, phaseCount, runner.cycle, phaseIndex)
                                             && Planned(templates, phases, runner.cycle, phaseIndex, runner)
    decreases cycle, phaseCount
  {
    hide Planned, Assigned;
    if phaseCount == 0 {
      if cycle > 1 {
        ExpansionMembers(templates, phases, cycle - 1, |phases|);
      }
    } else {
      ExpansionMembers(templates, phases, cycle, phaseCount - 1);
      StageMembers(templates, |templates|, phases, cycle, phaseCount - 1);
      PlannedFacts(templates, phases);
    }
  }

  lemma PlannedFacts(templates: seq<Template>, phases: seq<string>)
    requires phases != []
    ensures forall cycle: nat, phaseIndex: nat, runner | phaseIndex < |phases|
            && Planned(templates, phases, cycle, phaseIndex, runner) ::
              runner.cycle == cycle && runner.family <= |templates|
  {
  }

  /** Earlier in the list means an earlier stage, or the same stage and an earlier template. */
  predicate Precedes(a: RoundRunner, b: RoundRunner) {
    a.stage < b.stage || (a.stage == b.stage && a.family < b.family)
  }

  predicate InOrder(runners: seq<RoundRunner>) {
    forall i, j | 0 <= i < j < |runners| :: Precedes(runners[i], runners[j])
  }

  /** The expansion comes out stage by stage, so it lists no Runner twice. */
  lemma {:induction false} ExpansionInOrder(templates: seq<Template>, phases: seq<string>, cycle: nat, phaseCount: nat)
    requires phases != [] && phaseCount <= |phases| && cycle >= 1
    ensures InOrder(RunnersUpTo(templates, phases, cycle, phaseCount))
    decreases cycle, phaseCount
  {
    hide Planned, StageRunners, StageIndex, Precedes;
    if phaseCount == 0 {
      if cycle > 1 {
        ExpansionInOrder(templates, phases, cycle - 1, |phases|);
      }
    } else {
      var earlier := RunnersUpTo(templates, phases, cycle, phaseCount - 1);
      var stage := StageRunners(templates, |templates|, phases, cycle, phaseCount - 1);
      ExpansionInOrder(templates, phases, cycle, phaseCount - 1);
      StageInOrder(templates, phases, cycle, phaseCount - 1);
      forall a, b | a in earlier && b in stage ensures Precedes(a, b) {
        StageIsLater(templates, phases, cycle, phaseCount - 1, a, b);
      }
      AppendInOrder(earlier, stage);
    }
  }

  lemma AppendInOrder(a: seq<RoundRunner>, b: seq<RoundRunner>)
    requires InOrder(a) && InOrder(b) && forall x, y | x in a && y in b :: Precedes(x, y)
    ensures InOrder(a + b)
  {
  }

  lemma StageInOrder(templates: seq<Template>, phases: seq<string>, cycle: nat, phaseIndex: nat)
    requires phases != [] && phaseIndex < |phases| && cycle >= 1
    ensures InOrder(StageRunners(templates, |templates|, phases, cycle, phaseIndex))
  {
    hide StageRunners;
    StageMembers(templates, |templates|, phases, cycle, phaseIndex);
    var stage := StageRunners(templates, |templates|, phases, cycle, phaseIndex);
    forall i, j | 0 <= i < j < |stage| ensures Precedes(stage[i], stage[j]) {
      assert stage[i] in stage && stage[j] in stage;
    }
  }

  lemma StageIsLater(templates: seq<Template>, phases: seq<string>, cycle: nat, phaseIndex: nat, a: RoundRunner,
                     b: RoundRunner)
    requires phases != [] && phaseIndex < |phases| && cycle >= 1
    requires a in RunnersUpTo(templates, phases, cycle, phaseIndex)
    requires b in StageRunners(templates, |templates|, phases, cycle, phaseIndex)
    ensures Precedes(a, b)
  {
    hide StageRunners, RunnersUpTo, StageIndex;
    ExpansionMembers(templates, phases, cycle, phaseIndex);
    StageMembers(templates, |templates|, phases, cycle, phaseIndex);
    var earlier: nat :| earlier < |phases| && Before(cycle, phaseIndex, a.cycle, earlier)
      && Planned(templates, phases, a.cycle, earlier, a);
    StagesAreLexicographic(|phases|, a.cycle, earlier, cycle, phaseIndex);
  }

  // ------------------------------------------------ admission

  datatype Status = Queued | Running | Terminal

  /** A Runner as a snapshot sees it; a Runner without a round is always ready. */
  datatype Runner = Runner(id: string, campaign: string, round: Option<int>)

  datatype RoundState = RoundState(campaign: string, round: int, status: Status)

  /** Some Runner of the campaign's stage is queued or running. */
  predicate Unfinished(states: seq<RoundState>, campaign: string, round: int) {
    exists state | state in states :: state.campaign == campaign && state.round == round && state.status != Terminal
  }

  /** The Runner's stage is unfinished and no earlier stage of its campaign is. */
  ghost predicate Ready(runner: Runner, states: seq<RoundState>) {
    runner.round.None?
    || (Unfinished(states, runner.campaign, runner.round.value)
        && forall round | round < runner.round.value :: !Unfinished(states, runner.campaign, round))
  }

  /** The campaign's entry is its least unfinished stage; it has none when all stages are finished. */
  ghost predicate IsEarliest(states: seq<RoundState>, earliest: map<string, int>, campaign: string) {
    if campaign in earliest then
      Unfinished(states, campaign, earliest[campaign]) && forall round | Unfinished(states, campaign, round) ::
        earliest[campaign] <= round
    else forall round :: !Unfinished(states, campaign, round)
  }

  ghost predicate Earliest(states: seq<RoundState>, earliest: map<string, int>) {
    forall campaign :: IsEarliest(states, earliest, campaign)
  }

  function Folded(earliest: map<string, int>, state: RoundState): map<string, int> {
    if state.status == Terminal || (state.campaign in earliest && earliest[state.campaign] <= state.round) then earliest
    else earliest[state.campaign := state.round]
  }

  lemma EarliestStep(states: seq<RoundState>, i: nat, earliest: map<string, int>)
    requires i < |states| && Earliest(states[..i], earliest)
    ensures Earliest(states[..i + 1], Folded(earliest, states[i]))
  {
    var before, upTo, state, after := states[..i], states[..i + 1], states[i], Folded(earliest, states[i]);
    assert upTo == before + [state];
    forall campaign, round
      ensures Unfinished(upTo, campaign, round)
         <==> (Unfinished(before, campaign, round)
               || (state.campaign == campaign && state.round == round && state.status != Terminal))
    {
      assert state in upTo;
    }
    hide Unfinished;
    forall campaign ensures IsEarliest(upTo, after, campaign) {
      assert IsEarliest(before, earliest, campaign);
      assert state.status != Terminal ==> Unfinished(upTo, state.campaign, state.round);
    }
  }

  /** The Runners that pass, in the order given. */
  ghost function Passing(runners: seq<Runner>, states: seq<RoundState>): seq<Runner> {
    if runners == [] then []
    else
      var last := |runners| - 1;
      Passing(runners[..last], states) + if Ready(runners[last], states) then [runners[last]] else []
  }

  /** Folds the states into one minimum per campaign, then filters. */
  method ReadyRoundRunners(runners: seq<Runner>, states: seq<RoundState>) returns (ready: seq<Runner>)
    ensures ready == Passing(runners, states)
  {
    var earliest: map<string, int> := map[];
    for i := 0 to |states|
      invariant Earliest(states[..i], earliest)
    {
      EarliestStep(states, i, earliest);
      var state := states[i];
      if state.status == Terminal {
        continue;
      }
      if state.campaign !in earliest || state.round < earliest[state.campaign] {
        earliest := earliest[state.campaign := state.round];
      }
    }
    assert states[..|states|] == states;
    ready := [];
    for i := 0 to |runners|
      invariant ready == Passing(runners[..i], states)
    {
      assert runners[..i + 1][..i] == runners[..i];
      var runner := runners[i];
      EarliestDecides(states, earliest, runner);
      if runner.round.None? || (runner.campaign in earliest && runner.round.value == earliest[runner.campaign]) {
        ready := ready + [runner];
      }
    }
    assert runners[..|runners|] == runners;
  }

  lemma EarliestDecides(states: seq<RoundState>, earliest: map<string, int>, runner: Runner)
    requires Earliest(states, earliest)
    ensures Ready(runner, states) <==>
            runner.round.None? || (runner.campaign in earliest && runner.round.value == earliest[runner.campaign])
  {
    assert IsEarliest(states, earliest, runner.campaign);
    if runner.round.Some? {
      var round := runner.round.value;
      if Ready(runner, states) {
        assert Unfinished(states, runner.campaign, round);
        assert runner.campaign in earliest && earliest[runner.campaign] <= round;
        assert Unfinished(states, runner.campaign, earliest[runner.campaign]);
      }
    }
  }
}
