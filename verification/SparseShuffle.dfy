/**
  Sampling a corpus without replacement in each cycle, without shuffling it: only the swapped entries
  of a Fisher-Yates shuffle are kept, in a dictionary.
 */
module SparseShuffle {
  import opened Collections
  import opened Outcomes

  datatype Record = Record(index: nat, text: string)

  datatype Dataset = Dataset(records: seq<Record>, separator: string) {
    function Whole(position: nat): string
      requires position < |records|
    {
      records[position].text + separator
    }

    /** Some record contributes at least one character. */
    ghost predicate HasText() {
      exists position: nat | position < |records| :: Whole(position) != ""
    }
  }

  function Identity(n: nat): seq<nat> {
    seq(n, i => i)
  }

  // ------------------------------------------------ the full shuffle

  /** The array after each choice moved the last remaining entry into the chosen place. */
  function Shuffled(n: nat, choices: seq<nat>): (pool: seq<nat>)
    requires |choices| <= n
    ensures |pool| == n
    decreases |choices|
  {
    if choices == [] then Identity(n)
    else
      var before := Shuffled(n, choices[..|choices| - 1]);
      var remaining := n - (|choices| - 1);
      before[choices[|choices| - 1] % remaining := before[remaining - 1]]
  }

  /** The entries taken, in order. */
  function Draws(n: nat, choices: seq<nat>): (drawn: seq<nat>)
    requires |choices| <= n
    ensures |drawn| == |choices|
    decreases |choices|
  {
    if choices == [] then []
    else
      var earlier := choices[..|choices| - 1];
      Draws(n, earlier) + [Shuffled(n, earlier)[choices[|choices| - 1] % (n - |earlier|)]]
  }

  lemma TakeOne(pool: seq<nat>, remaining: nat, chosen: nat)
    requires chosen < remaining <= |pool|
    ensures multiset(pool[chosen := pool[remaining - 1]][..remaining - 1]) + multiset{pool[chosen]}
            == multiset(pool[..remaining])
  {
    var front := pool[..remaining - 1];
    assert pool[..remaining] == front + [pool[remaining - 1]];
    if chosen < remaining - 1 {
      assert pool[chosen := pool[remaining - 1]][..remaining - 1] == front[chosen := pool[remaining - 1]];
    } else {
      assert pool[chosen := pool[remaining - 1]] == pool;
    }
  }

  lemma ShuffledStep(n: nat, choices: seq<nat>)
    requires 0 < |choices| <= n
    ensures var earlier, remaining := choices[..|choices| - 1], n - (|choices| - 1);
      var before, chosen := Shuffled(n, earlier), choices[|choices| - 1] % remaining;
      && Shuffled(n, choices) == before[chosen := before[remaining - 1]]
      && Draws(n, choices) == Draws(n, earlier) + [before[chosen]]
  {
  }

  /** What was drawn and what remains are together always the whole corpus. */
  lemma {:induction false} NothingLost(n: nat, choices: seq<nat>)
    requires |choices| <= n
    ensures multiset(Shuffled(n, choices)[..n - |choices|]) + multiset(Draws(n, choices)) == multiset(Identity(n))
    decreases |choices|
  {
    hide Shuffled, Draws, Identity;
    if choices == [] {
      NothingDrawn(n);
    } else {
      NothingLost(n, choices[..|choices| - 1]);
      OneMoreDrawn(n, choices);
    }
  }

  lemma NothingDrawn(n: nat)
    ensures Shuffled(n, [])[..n] == Identity(n) && Draws(n, []) == []
  {
  }

  lemma OneMoreDrawn(n: nat, choices: seq<nat>)
    requires 0 < |choices| <= n
    ensures var earlier := choices[..|choices| - 1];
      multiset(Shuffled(n, choices)[..n - |choices|]) + multiset(Draws(n, choices))
      == multiset(Shuffled(n, earlier)[..n - |earlier|]) + multiset(Draws(n, earlier))
  {
    hide Shuffled, Draws;
    var earlier, remaining := choices[..|choices| - 1], n - (|choices| - 1);
    var before, chosen := Shuffled(n, earlier), choices[|choices| - 1] % remaining;
    ShuffledStep(n, choices);
    TakeOne(before, remaining, chosen);
  }

  lemma IdentityOnce(n: nat)
    ensures forall position: nat :: multiset(Identity(n))[position] == if position < n then 1 else 0
    decreases n
  {
    if n > 0 {
      IdentityOnce(n - 1);
      assert Identity(n) == Identity(n - 1) + [n - 1];
    }
  }

  lemma TwiceCounts(items: seq<nat>, i: nat, j: nat)
    requires i < j < |items| && items[i] == items[j]
    ensures multiset(items)[items[j]] >= 2
  {
    assert items == items[..j] + [items[j]] + items[j + 1..];
    assert items[..j][i] == items[j];
  }

  lemma OnceMeansDistinct(items: seq<nat>)
    requires forall item :: multiset(items)[item] <= 1
    ensures Distinct(items)
  {
    forall i, j | 0 <= i < j < |items| ensures items[i] != items[j] {
      if items[i] == items[j] {
        TwiceCounts(items, i, j);
      }
    }
  }

  /** Whatever the random choices, no record repeats within a cycle, and a whole cycle is a permutation. */
  lemma CycleIsWithoutReplacement(n: nat, choices: seq<nat>)
    requires |choices| <= n
    ensures Distinct(Draws(n, choices)) && forall position | position in Draws(n, choices) :: position < n
    ensures |choices| == n ==> multiset(Draws(n, choices)) == multiset(Identity(n))
  {
    NothingLost(n, choices);
    IdentityOnce(n);
    var drawn := Draws(n, choices);
    forall item ensures multiset(drawn)[item] <= multiset(Identity(n))[item] {
    }
    OnceMeansDistinct(drawn);
    forall position | position in drawn ensures position < n {
      assert position in multiset(drawn);
    }
  }

  // ------------------------------------------------ the sparse form

  function Lookup(swaps: map<nat, nat>, place: nat): nat {
    if place in swaps then swaps[place] else place
  }

  /** The dictionary agrees with the array on every place that can still be chosen. */
  ghost predicate Agrees(swaps: map<nat, nat>, pool: seq<nat>, remaining: nat)
    requires remaining <= |pool|
  {
    forall place: nat | place < remaining :: Lookup(swaps, place) == pool[place]
  }

  lemma SwapAgrees(swaps: map<nat, nat>, n: nat, choices: seq<nat>, choice: nat)
    requires |choices| < n && Agrees(swaps, Shuffled(n, choices), n - |choices|)
    ensures var remaining := n - |choices|;
      && Agrees(swaps[choice % remaining := Lookup(swaps, remaining - 1)], Shuffled(n, choices + [choice]),
                remaining - 1)
      && Draws(n, choices + [choice]) == Draws(n, choices) + [Lookup(swaps, choice % remaining)]
  {
    assert (choices + [choice])[..|choices|] == choices;
  }

  // ------------------------------------------------ the assembled text

  predicate Within(positions: seq<nat>, n: nat) {
    forall k | 0 <= k < |positions| :: positions[k] < n
  }

  function Text(dataset: Dataset, positions: seq<nat>): string
    requires Within(positions, |dataset.records|)
    decreases |positions|
  {
    if positions == [] then ""
    else Text(dataset, positions[..|positions| - 1]) + dataset.Whole(positions[|positions| - 1])
  }

  function Indices(dataset: Dataset, positions: seq<nat>): seq<nat>
    requires Within(positions, |dataset.records|)
    decreases |positions|
  {
    if positions == [] then []
    else Indices(dataset, positions[..|positions| - 1]) + [dataset.records[positions[|positions| - 1]].index]
  }

  lemma TextAppend(dataset: Dataset, positions: seq<nat>, position: nat)
    requires Within(positions, |dataset.records|) && position < |dataset.records|
    ensures Text(dataset, positions + [position]) == Text(dataset, positions) + dataset.Whole(position)
    ensures Indices(dataset, positions + [position]) == Indices(dataset, positions) + [dataset.records[position].index]
  {
    assert (positions + [position])[..|positions|] == positions;
  }

  lemma {:induction false} TextGrows(dataset: Dataset, positions: seq<nat>, more: seq<nat>, position: nat)
    requires Within(positions, |dataset.records|) && Within(more, |dataset.records|)
    requires position < |dataset.records| && position in more && dataset.Whole(position) != ""
    ensures |Text(dataset, positions)| < |Text(dataset, positions + more)|
    decreases |more|
  {
    var k := |more| - 1;
    assert positions + more == (positions + more[..k]) + [more[k]];
    TextAppend(dataset, positions + more[..k], more[k]);
    if more[k] != position {
      TextGrows(dataset, positions, more[..k], position);
    } else {
      TextNeverShrinks(dataset, positions, more[..k]);
    }
  }

  lemma {:induction false} TextNeverShrinks(dataset: Dataset, positions: seq<nat>, more: seq<nat>)
    requires Within(positions, |dataset.records|) && Within(more, |dataset.records|)
    ensures |Text(dataset, positions)| <= |Text(dataset, positions + more)|
    decreases |more|
  {
    if more == [] {
      assert positions + more == positions;
    } else {
      var k := |more| - 1;
      assert positions + more == (positions + more[..k]) + [more[k]];
      TextAppend(dataset, positions + more[..k], more[k]);
      TextNeverShrinks(dataset, positions, more[..k]);
    }
  }

  // ------------------------------------------------ cycles

  /** The random choices of one cycle; the generator gives an arbitrary number per cycle and draw. */
  function Choices(rng: (nat, nat) -> nat, cycle: nat, count: nat): (choices: seq<nat>)
    ensures |choices| == count && forall k | 0 <= k < count :: choices[k] == rng(cycle, k)
  {
    seq(count, i requires 0 <= i => rng(cycle, i))
  }

  /** `cycles` whole cycles, then `extra` records of the next one. */
  function Sampled(n: nat, rng: (nat, nat) -> nat, cycles: nat, extra: nat): seq<nat>
    requires extra <= n
    decreases cycles, extra
  {
    (if cycles == 0 then [] else Sampled(n, rng, cycles - 1, n)) + Draws(n, Choices(rng, cycles, extra))
  }

  lemma DrawsWithin(n: nat, choices: seq<nat>)
    requires |choices| <= n
    ensures Within(Draws(n, choices), n)
  {
    CycleIsWithoutReplacement(n, choices);
    hide Draws;
    var drawn := Draws(n, choices);
    forall k | 0 <= k < |drawn| ensures drawn[k] < n {
      assert drawn[k] in drawn;
    }
  }

  lemma WithinBoth(first: seq<nat>, second: seq<nat>, n: nat)
    requires (first == [] || Within(first, n)) && Within(second, n)
    ensures Within(first + second, n)
  {
  }

  lemma {:induction false} SampledWithin(n: nat, rng: (nat, nat) -> nat, cycles: nat, extra: nat)
    requires extra <= n
    ensures Within(Sampled(n, rng, cycles, extra), n)
    decreases cycles, extra
  {
    hide Draws, Within;
    DrawsWithin(n, Choices(rng, cycles, extra));
    if cycles > 0 {
      SampledWithin(n, rng, cycles - 1, n);
      WithinBoth(Sampled(n, rng, cycles - 1, n), Draws(n, Choices(rng, cycles, extra)), n);
    } else {
      WithinBoth([], Draws(n, Choices(rng, cycles, extra)), n);
    }
  }

  lemma ChoicesMore(rng: (nat, nat) -> nat, cycle: nat, count: nat)
    ensures Choices(rng, cycle, count + 1) == Choices(rng, cycle, count) + [rng(cycle, count)]
  {
  }

  /** One more draw of the sparse form is one more entry of the sample. */
  lemma SampledMore(n: nat, rng: (nat, nat) -> nat, cycles: nat, extra: nat, swaps: map<nat, nat>)
    requires extra < n && Agrees(swaps, Shuffled(n, Choices(rng, cycles, extra)), n - extra)
    ensures var chosen := rng(cycles, extra) % (n - extra);
      && Agrees(swaps[chosen := Lookup(swaps, n - extra - 1)], Shuffled(n, Choices(rng, cycles, extra + 1)),
                n - extra - 1)
      && Sampled(n, rng, cycles, extra + 1) == Sampled(n, rng, cycles, extra) + [Lookup(swaps, chosen)]
  {
    var earlier, choice := Choices(rng, cycles, extra), rng(cycles, extra);
    hide Draws, Shuffled, Agrees, Choices;
    SwapAgrees(swaps, n, earlier, choice);
    ChoicesMore(rng, cycles, extra);
  }

  lemma CycleStarts(n: nat, rng: (nat, nat) -> nat, cycles: nat)
    ensures Agrees(map[], Shuffled(n, Choices(rng, cycles, 0)), n)
    ensures cycles > 0 ==> Sampled(n, rng, cycles, 0) == Sampled(n, rng, cycles - 1, n)
    ensures Sampled(n, rng, 0, 0) == []
  {
  }

  /** A finished cycle took every record, so a record with text made the result longer. */
  lemma CycleAddsText(dataset: Dataset, rng: (nat, nat) -> nat, cycles: nat)
    requires dataset.HasText()
    ensures var n := |dataset.records|;
      && Within(Sampled(n, rng, cycles, 0), n) && Within(Sampled(n, rng, cycles, n), n)
      && |Text(dataset, Sampled(n, rng, cycles, 0))| < |Text(dataset, Sampled(n, rng, cycles, n))|
  {
    hide Draws, Text;
    var n := |dataset.records|;
    var position: nat :| position < n && dataset.Whole(position) != "";
    SampledWithin(n, rng, cycles, 0);
    SampledWithin(n, rng, cycles, n);
    var drawn := Draws(n, Choices(rng, cycles, n));
    CycleIsWithoutReplacement(n, Choices(rng, cycles, n));
    DrawsWithin(n, Choices(rng, cycles, n));
    assert position in drawn by {
      assert Identity(n)[position] == position && position in multiset(Identity(n));
      assert position in multiset(drawn);
    }
    assert Draws(n, Choices(rng, cycles, 0)) == [];
    assert Sampled(n, rng, cycles, n) == Sampled(n, rng, cycles, 0) + drawn;
    TextGrows(dataset, Sampled(n, rng, cycles, 0), drawn, position);
  }

  // ------------------------------------------------ the method

  datatype Assembly = Assembly(text: string, selected: seq<nat>)

  /** What has been assembled while characters are still missing: the sampled records in full. */
  ghost predicate Unfinished(dataset: Dataset, rng: (nat, nat) -> nat, cycles: nat, extra: nat, assembly: Assembly) {
    var n := |dataset.records|;
    && extra <= n && Within(Sampled(n, rng, cycles, extra), n)
    && assembly == Assembly(Text(dataset, Sampled(n, rng, cycles, extra)),
                            Indices(dataset, Sampled(n, rng, cycles, extra)))
  }

  /**
    The finished text has exactly the requested length; all records but the last are whole, the last is
    cut, and none is taken once the length is reached.
   */
  ghost predicate Fits(dataset: Dataset, rng: (nat, nat) -> nat, characters: nat, cycles: nat, extra: nat,
                       assembly: Assembly)
  {
    var n := |dataset.records|;
    && |assembly.text| == characters
    && if characters == 0 then assembly == Assembly("", [])
       else
         && 1 <= extra <= n && Within(Sampled(n, rng, cycles, extra - 1), n)
            && Within(Sampled(n, rng, cycles, extra), n)
         && assembly.selected == Indices(dataset, Sampled(n, rng, cycles, extra))
         && |Text(dataset, Sampled(n, rng, cycles, extra - 1))| < characters
         && assembly.text <= Text(dataset, Sampled(n, rng, cycles, extra))
  }

  /** One more record is taken whole, or cut to what is still missing. */
  lemma OneMore(dataset: Dataset, rng: (nat, nat) -> nat, cycles: nat, extra: nat, assembly: Assembly, position: nat,
                remaining: nat)
    requires Unfinished(dataset, rng, cycles, extra, assembly) && remaining > 0
    requires extra < |dataset.records|
    requires Sampled(|dataset.records|, rng, cycles, extra + 1)
             == Sampled(|dataset.records|, rng, cycles, extra) + [position]
    ensures position < |dataset.records|
    ensures var whole := dataset.Whole(position);
      var selected := assembly.selected + [dataset.records[position].index];
      if |whole| < remaining then Unfinished(dataset, rng, cycles, extra + 1, Assembly(assembly.text + whole, selected))
      else Fits(dataset, rng, |assembly.text| + remaining, cycles, extra + 1,
                Assembly(assembly.text + whole[..remaining], selected))
  {
    hide Text, Indices;
    var n := |dataset.records|;
    SampledWithin(n, rng, cycles, extra + 1);
    assert Sampled(n, rng, cycles, extra + 1)[|Sampled(n, rng, cycles, extra)|] == position;
    TextAppend(dataset, Sampled(n, rng, cycles, extra), position);
  }

  /** The next cycle starts where the last one ended, with more text than before it. */
  lemma NextCycle(dataset: Dataset, rng: (nat, nat) -> nat, cycles: nat, before: Assembly, after: Assembly)
    requires dataset.HasText()
    requires Unfinished(dataset, rng, cycles, 0, before) && Unfinished(dataset, rng, cycles, |dataset.records|, after)
    ensures Unfinished(dataset, rng, cycles + 1, 0, after) && |before.text| < |after.text|
  {
    hide Text, Indices, Sampled;
    CycleStarts(|dataset.records|, rng, cycles + 1);
    CycleAddsText(dataset, rng, cycles);
  }

  lemma NothingYet(dataset: Dataset, rng: (nat, nat) -> nat)
    ensures Unfinished(dataset, rng, 0, 0, Assembly("", []))
    ensures Fits(dataset, rng, 0, 0, 0, Assembly("", []))
  {
  }

  method AssembleDataset(dataset: Dataset, characters: int, rng: (nat, nat) -> nat)
    returns (result: Outcome<Assembly>, ghost cycles: nat, ghost extra: nat)
    requires dataset.records != [] && characters > 0 ==> dataset.HasText()
    ensures result.Rejected? <==> dataset.records == []
    ensures result.Accepted? ==> Fits(dataset, rng,
                                      if characters > 0 then characters else 0, cycles, extra, result.value)
  {
    hide Unfinished, Fits, Text, Indices, Sampled, Agrees, Within, Shuffled, Choices;
    var n := |dataset.records|;
    cycles, extra := 0, 0;
    if n == 0 {
      return Rejected, 0, 0;
    }
    var wanted: nat := if characters > 0 then characters else 0;
    var remaining: nat := wanted;
    var text: string, selected: seq<nat> := "", [];
    var cycle: nat := 0;
    NothingYet(dataset, rng);
    while remaining > 0
      invariant cycles == cycle && (remaining > 0 ==>
                                    extra == 0 && Unfinished(dataset, rng, cycle, 0, Assembly(text, selected)))
      invariant remaining + |text| == wanted
      invariant remaining == 0 ==> Fits(dataset, rng, wanted, cycles, extra, Assembly(text, selected))
      decreases remaining
    {
      CycleStarts(n, rng, cycle);
      ghost var before := Assembly(text, selected);
      var swaps: map<nat, nat> := map[];
      var left: nat := n;
      while left > 0
        invariant remaining + |text| == wanted && remaining > 0
        invariant cycles == cycle && left <= n && extra == n - left
        invariant Unfinished(dataset, rng, cycle, n - left, Assembly(text, selected))
        invariant Agrees(swaps, Shuffled(n, Choices(rng, cycle, n - left)), left)
        decreases left
      {
        var chosen := rng(cycle, n - left) % left;
        var position := if chosen in swaps then swaps[chosen] else chosen;
        SampledMore(n, rng, cycle, n - left, swaps);
        swaps := swaps[chosen := if left - 1 in swaps then swaps[left - 1] else left - 1];
        OneMore(dataset, rng, cycle, n - left, Assembly(text, selected), position, remaining);
        var whole := dataset.records[position].text + dataset.separator;
        var segment := if |whole| <= remaining then whole else whole[..remaining];
        assert segment == whole[..|segment|];
        text, selected := text + segment, selected + [dataset.records[position].index];
        remaining := remaining - |segment|;
        extra := extra + 1;
        left := left - 1;
        if remaining == 0 {
          break;
        }
      }
      if remaining > 0 {
        NextCycle(dataset, rng, cycle, before, Assembly(text, selected));
        cycle, cycles, extra := cycle + 1, cycle + 1, 0;
      }
    }
    return Accepted(Assembly(text, selected)), cycles, extra;
  }

  /**
    Without a record that has text the sample never grows, whatever is drawn: the loop ends if and only
    if nothing is wanted or some record has text.
   */
  lemma {:induction false} NoTextNoEnd(dataset: Dataset, positions: seq<nat>)
    requires !dataset.HasText() && Within(positions, |dataset.records|)
    ensures Text(dataset, positions) == ""
    decreases |positions|
  {
    if positions != [] {
      NoTextNoEnd(dataset, positions[..|positions| - 1]);
    }
  }
}
