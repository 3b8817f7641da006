/** Estimated tokens of a Worker graph whose steps reuse earlier conversations, and the conversations actually built. */
module TokenBudget {
  import opened Outcomes
  import opened TaskNodes

  datatype Wait = Wait(step: string, reuse: bool)

  /** A step with the tokens its prompt is estimated at. */
  datatype Request = Request(name: string, waits: seq<Wait>, prompt: nat)

  /** The steps whose conversations continue in this one, in order. */
  function Sources(waits: seq<Wait>): seq<string> {
    if waits == [] then []
    else (if waits[0].reuse then [waits[0].step] else []) + Sources(waits[1..])
  }

  // ------------------------------------------------ the document

  /** A named input: its text's length in bytes and its mean size, where given. */
  datatype Input = Input(textBytes: Option<nat>, mean: Option<nat>)

  datatype Declared = Declared(name: string, waits: seq<Wait>, input: Option<string>)

  datatype Probe = Probe(trials: nat, repeatsAfterPrime: nat)

  /** The parts of a validated document that plan its Workers. */
  datatype Benchmark = Benchmark(
    inputTokens: nat, outputTokens: nat, promptBytes: Option<nat>, inputs: map<string, Input>, input: string,
    repeats: nat, steps: Option<seq<Declared>>, probe: Option<Probe>)

  /** The larger of the mean and the literal text's length in bytes. */
  function PromptTokens(mean: nat, textBytes: Option<nat>): (tokens: nat)
    ensures tokens >= mean && (textBytes.Some? ==> tokens >= textBytes.value)
    ensures tokens == mean || textBytes == Some(tokens)
  {
    if textBytes.Some? && textBytes.value > mean then textBytes.value else mean
  }

  /** A step's own input comes before the plan's, an input's text before the document's prompt. */
  function PromptOf(benchmark: Benchmark, step: Declared): nat {
    var name := if step.input.Some? then step.input.value else benchmark.input;
    var definition := if name in benchmark.inputs then benchmark.inputs[name] else Input(None, None);
    PromptTokens(if definition.mean.Some? then definition.mean.value else benchmark.inputTokens,
                 if definition.textBytes.Some? then definition.textBytes else benchmark.promptBytes)
  }

  // What a step's prompt is estimated at, one question at a time: its input, that input's mean, its text.

  ghost predicate Uses(benchmark: Benchmark, step: Declared, name: string) {
    step.input == Some(name) || (step.input.None? && name == benchmark.input)
  }

  ghost predicate HasMean(benchmark: Benchmark, name: string, mean: nat) {
    || (name in benchmark.inputs && benchmark.inputs[name].mean == Some(mean))
    || ((name in benchmark.inputs ==> benchmark.inputs[name].mean.None?) && mean == benchmark.inputTokens)
  }

  ghost predicate HasText(benchmark: Benchmark, name: string, bytes: Option<nat>) {
    || (name in benchmark.inputs && bytes.Some? && benchmark.inputs[name].textBytes == bytes)
    || ((name in benchmark.inputs ==> benchmark.inputs[name].textBytes.None?) && bytes == benchmark.promptBytes)
  }

  ghost predicate Greatest(tokens: nat, mean: nat, bytes: Option<nat>) {
    mean <= tokens && (bytes.Some? ==> bytes.value <= tokens) && (tokens == mean || bytes == Some(tokens))
  }

  ghost predicate Sized(benchmark: Benchmark, step: Declared, tokens: nat) {
    exists name, mean, bytes ::
      && Uses(benchmark, step, name) && HasMean(benchmark, name, mean) && HasText(benchmark, name, bytes)
      && Greatest(tokens, mean, bytes)
  }

  /** The computed size is the one that these answers give, and no other. */
  lemma SizedExactly(benchmark: Benchmark, step: Declared, tokens: nat)
    ensures Sized(benchmark, step, tokens) <==> tokens == PromptOf(benchmark, step)
  {
    var name := if step.input.Some? then step.input.value else benchmark.input;
    var definition := if name in benchmark.inputs then benchmark.inputs[name] else Input(None, None);
    var mean := if definition.mean.Some? then definition.mean.value else benchmark.inputTokens;
    var bytes := if definition.textBytes.Some? then definition.textBytes else benchmark.promptBytes;
    assert Uses(benchmark, step, name) && HasMean(benchmark, name, mean) && HasText(benchmark, name, bytes);
    assert Greatest(PromptOf(benchmark, step), mean, bytes);
  }

  /** The given steps are the document's, each with its size. */
  ghost predicate Estimated(benchmark: Benchmark, steps: seq<Request>) {
    var declared := if benchmark.steps.Some? then benchmark.steps.value else [Declared("request", [], None)];
    && |steps| == |declared|
    && forall i | 0 <= i < |steps| ::
         && steps[i].name == declared[i].name && steps[i].waits == declared[i].waits
         && Sized(benchmark, declared[i], steps[i].prompt)
  }

  lemma RequestsEstimated(benchmark: Benchmark)
    ensures Estimated(benchmark, Requests(benchmark))
  {
    hide Sized, PromptOf;
    var declared := DeclaredSteps(benchmark);
    forall i | 0 <= i < |declared| ensures Sized(benchmark, declared[i], Requests(benchmark)[i].prompt) {
      SizedExactly(benchmark, declared[i], PromptOf(benchmark, declared[i]));
    }
  }

  const SINGLE := Declared("request", [], None)

  function DeclaredSteps(benchmark: Benchmark): seq<Declared> {
    if benchmark.steps.Some? then benchmark.steps.value else [SINGLE]
  }

  /** One iteration of the plan. */
  function Requests(benchmark: Benchmark): (steps: seq<Request>)
    ensures |steps| == |DeclaredSteps(benchmark)|
  {
    var declared := DeclaredSteps(benchmark);
    seq(|declared|, i requires 0 <= i < |declared| =>
      Request(declared[i].name, declared[i].waits, PromptOf(benchmark, declared[i])))
  }

  /** The Workers a document plans, counted without expanding anything. */
  function PlannedWorkers(benchmark: Benchmark): nat {
    if benchmark.probe.Some? then benchmark.probe.value.trials * (1 + benchmark.probe.value.repeatsAfterPrime)
    else benchmark.repeats * if benchmark.steps.Some? then |benchmark.steps.value| else 1
  }

  function Names(steps: seq<Request>): set<string> {
    set step | step in steps :: step.name
  }

  /** Unique names, and waits only for earlier steps. */
  ghost predicate Ordered(steps: seq<Request>) {
    forall i | 0 <= i < |steps| :: Placed(steps, i)
  }

  ghost predicate Placed(steps: seq<Request>, i: nat)
    requires i < |steps|
  {
    steps[i].name !in Names(steps[..i]) && forall wait | wait in steps[i].waits :: wait.step in Names(steps[..i])
  }

  // ------------------------------------------------ the estimate

  datatype Ledger = Ledger(total: nat, history: map<string, nat>)

  function SumOf(history: map<string, nat>, sources: seq<string>): nat {
    if sources == [] then 0
    else (if sources[0] in history then history[sources[0]] else 0) + SumOf(history, sources[1..])
  }

  /** The running total and each step's conversation size, step by step. */
  function Account(steps: seq<Request>, output: nat): Ledger
    decreases |steps|
  {
    if steps == [] then Ledger(0, map[])
    else
      var step, before := steps[|steps| - 1], Account(steps[..|steps| - 1], output);
      var tokens := SumOf(before.history, Sources(step.waits)) + step.prompt + output;
      Ledger(before.total + tokens, before.history[step.name := tokens])
  }

  /** One iteration is estimated and multiplied by the repeats; a cache probe's requests all have the same size. */
  method PlannedTokenBudget(benchmark: Benchmark) returns (budget: nat)
    ensures budget == if benchmark.probe.Some?
                      then PlannedWorkers(benchmark) * (benchmark.inputTokens + benchmark.outputTokens)
                      else benchmark.repeats * Account(Requests(benchmark), benchmark.outputTokens).total
    ensures benchmark.probe.None? ==>
              exists steps :: && Estimated(benchmark, steps)
                              && budget == benchmark.repeats * Account(steps, benchmark.outputTokens).total
  {
    if benchmark.probe.Some? {
      return PlannedWorkers(benchmark) * (benchmark.inputTokens + benchmark.outputTokens);
    }
    RequestsEstimated(benchmark);
    var iteration := IterationTokens(benchmark);
    budget := benchmark.repeats * iteration;
  }

  method IterationTokens(benchmark: Benchmark) returns (total: nat)
    ensures total == Account(Requests(benchmark), benchmark.outputTokens).total
  {
    hide PromptOf, Account, SumOf, Sources, Requests;
    ghost var steps := Requests(benchmark);
    var declared, output := DeclaredSteps(benchmark), benchmark.outputTokens;
    var history: map<string, nat> := map[];
    total := 0;
    AccountNothing(output);
    for i := 0 to |declared|
      invariant Ledger(total, history) == Account(steps[..i], output)
    {
      AccountUpTo(steps, i, output);
      RequestAt(benchmark, i);
      var previous := HistoryTokens(history, Sources(declared[i].waits));
      var tokens := previous + PromptOf(benchmark, declared[i]) + output;
      history, total := history[declared[i].name := tokens], total + tokens;
    }
    assert steps[..|declared|] == steps;
  }

  method HistoryTokens(history: map<string, nat>, sources: seq<string>) returns (tokens: nat)
    ensures tokens == SumOf(history, sources)
  {
    tokens := 0;
    for k := |sources| downto 0
      invariant tokens == SumOf(history, sources[k..])
    {
      assert sources[k..] == [sources[k]] + sources[k + 1..];
      tokens := tokens + if sources[k] in history then history[sources[k]] else 0;
    }
    assert sources[0..] == sources;
  }

  lemma RequestAt(benchmark: Benchmark, i: nat)
    requires i < |DeclaredSteps(benchmark)|
    ensures var step := DeclaredSteps(benchmark)[i];
      Requests(benchmark)[i] == Request(step.name, step.waits, PromptOf(benchmark, step))
  {
  }

  lemma AccountUpTo(steps: seq<Request>, i: nat, output: nat)
    requires i < |steps|
    ensures var before := Account(steps[..i], output);
      Account(steps[..i + 1], output)
      == Ledger(before.total + CostOf(before, steps[i], output),
                before.history[steps[i].name := CostOf(before, steps[i], output)])
  {
    assert steps[..i + 1] == steps[..i] + [steps[i]];
    AccountStep(steps[..i], steps[i], output);
  }

  // ------------------------------------------------ the expansion

  function PrefixedWaits(waits: seq<Wait>, prefix: string): seq<Wait> {
    if waits == [] then [] else [waits[0].(step := prefix + waits[0].step)] + PrefixedWaits(waits[1..], prefix)
  }

  function Prefixed(steps: seq<Request>, prefix: string): (scoped: seq<Request>)
    ensures |scoped| == |steps|
  {
    if steps == [] then []
    else
      var last := steps[|steps| - 1];
      Prefixed(steps[..|steps| - 1], prefix)
      + [Request(prefix + last.name, PrefixedWaits(last.waits, prefix), last.prompt)]
  }

  function Prefix(repetition: nat, repeats: nat): string {
    if repeats > 1 then Digits(repetition) + "." else ""
  }

  function Expanded(steps: seq<Request>, repeats: nat, done: nat): seq<Request> {
    if done == 0 then [] else Expanded(steps, repeats, done - 1) + Prefixed(steps, Prefix(done - 1, repeats))
  }

  /** The whole graph: the steps of every repetition, or one request named by its index each. */
  function Graph(benchmark: Benchmark): seq<Request> {
    if benchmark.steps.None? then Plain(PromptOf(benchmark, SINGLE), benchmark.repeats)
    else Expanded(Requests(benchmark), benchmark.repeats, benchmark.repeats)
  }

  /** Every repetition scopes names and references under its own prefix. */
  method Expand(benchmark: Benchmark) returns (expanded: seq<Request>)
    ensures expanded == Graph(benchmark)
  {
    hide PromptOf, Requests, Prefixed, PrefixedWaits, Prefix, Digits;
    var steps, repeats := Requests(benchmark), benchmark.repeats;
    expanded := [];
    if benchmark.steps.None? {
      for index := 0 to repeats
        invariant expanded == Plain(PromptOf(benchmark, SINGLE), index)
      {
        expanded := expanded + [Request(Digits(index), [], PromptOf(benchmark, SINGLE))];
      }
      return;
    }
    for repetition := 0 to repeats
      invariant expanded == Expanded(steps, repeats, repetition)
    {
      var prefix := Prefix(repetition, repeats);
      assert Prefixed(steps[..0], prefix) == [];
      for i := 0 to |steps|
        invariant expanded == Expanded(steps, repeats, repetition) + Prefixed(steps[..i], prefix)
      {
        PrefixedUpTo(steps, prefix, i);
        expanded := expanded + [Request(prefix + steps[i].name, PrefixedWaits(steps[i].waits, prefix),
                                        steps[i].prompt)];
      }
      assert steps[..|steps|] == steps;
    }
  }

  lemma PrefixedUpTo(steps: seq<Request>, prefix: string, i: nat)
    requires i < |steps|
    ensures Prefixed(steps[..i + 1], prefix)
         == Prefixed(steps[..i], prefix)
            + [Request(prefix + steps[i].name, PrefixedWaits(steps[i].waits, prefix), steps[i].prompt)]
  {
    assert steps[..i + 1][..i] == steps[..i];
  }

  lemma OneMore(done: nat, each: nat)
    requires done > 0
    ensures done * each == (done - 1) * each + each
  {
  }

  lemma {:induction false} ExpandedSize(steps: seq<Request>, repeats: nat, done: nat)
    ensures |Expanded(steps, repeats, done)| == done * |steps|
  {
    hide Prefix;
    if done > 0 {
      ExpandedSize(steps, repeats, done - 1);
      OneMore(done, |steps|);
    }
  }

  /** The pairs of family and occurrence a cache probe sends. */
  function ProbeRequests(families: seq<nat>, repeatsAfterPrime: nat): seq<(nat, nat)> {
    if families == [] then []
    else
      var occurrences := 1 + repeatsAfterPrime;
      seq(occurrences, occurrence requires 0 <= occurrence < occurrences => (families[0], occurrence))
      + ProbeRequests(families[1..], repeatsAfterPrime)
  }

  lemma {:induction false} ProbeSize(families: seq<nat>, repeatsAfterPrime: nat)
    ensures |ProbeRequests(families, repeatsAfterPrime)| == |families| * (1 + repeatsAfterPrime)
  {
    if families != [] {
      ProbeSize(families[1..], repeatsAfterPrime);
      OneMore(|families|, 1 + repeatsAfterPrime);
    }
  }

  /** The count made beforehand is the number of Workers that there turn out to be. */
  lemma WorkersAsPlanned(benchmark: Benchmark, families: seq<nat>)
    requires benchmark.probe.Some? ==> |families| == benchmark.probe.value.trials
    ensures PlannedWorkers(benchmark)
         == if benchmark.probe.Some? then |ProbeRequests(families, benchmark.probe.value.repeatsAfterPrime)|
            else |Graph(benchmark)|
  {
    if benchmark.probe.Some? {
      ProbeSize(families, benchmark.probe.value.repeatsAfterPrime);
    } else {
      ExpandedSize(Requests(benchmark), benchmark.repeats, benchmark.repeats);
    }
  }

  // ------------------------------------------------ the expansion is itself well ordered

  lemma {:induction false} DigitsAreDigits(n: nat)
    ensures forall c | c in Digits(n) :: '0' <= c <= '9'
  {
    if n >= 10 {
      DigitsAreDigits(n / 10);
    }
  }

  lemma {:induction false} DigitsInjective(n: nat, m: nat)
    requires Digits(n) == Digits(m)
    ensures n == m
  {
    var a, b := Digits(n), Digits(m);
    assert a[|a| - 1] == '0' + (n % 10) as char && b[|b| - 1] == '0' + (m % 10) as char;
    assert n % 10 == m % 10;
    if n >= 10 && m >= 10 {
      assert Digits(n / 10) == a[..|a| - 1] == b[..|b| - 1] == Digits(m / 10);
      DigitsInjective(n / 10, m / 10);
    }
  }

  lemma FirstDot(n: nat, rest: string)
    ensures var whole, end := Digits(n) + "." + rest, |Digits(n)|;
      whole[end] == '.' && whole[..end] == Digits(n) && forall k | 0 <= k < end :: whole[k] != '.'
  {
    DigitsAreDigits(n);
    assert forall k | 0 <= k < |Digits(n)| :: Digits(n)[k] in Digits(n);
  }

  /** What follows the first dot does not matter: the number before it decides. */
  lemma ScopesApart(n: nat, m: nat, a: string, b: string)
    requires Digits(n) + "." + a == Digits(m) + "." + b
    ensures n == m
  {
    hide Digits;
    FirstDot(n, a);
    FirstDot(m, b);
    assert |Digits(n)| == |Digits(m)|;
    DigitsInjective(n, m);
  }

  lemma {:induction false} PrefixedAt(steps: seq<Request>, prefix: string, i: nat)
    requires i < |steps|
    ensures Prefixed(steps, prefix)[..i] == Prefixed(steps[..i], prefix)
    ensures Prefixed(steps, prefix)[i]
         == Request(prefix + steps[i].name, PrefixedWaits(steps[i].waits, prefix), steps[i].prompt)
    decreases |steps|
  {
    var last := |steps| - 1;
    if i == last {
      assert Prefixed(steps, prefix)[..last] == Prefixed(steps[..last], prefix);
    } else {
      PrefixedAt(steps[..last], prefix, i);
      assert steps[..last][..i] == steps[..i] && steps[..last][i] == steps[i];
    }
  }

  lemma PrefixedNames(steps: seq<Request>, prefix: string)
    ensures Names(Prefixed(steps, prefix)) == set name | name in Names(steps) :: prefix + name
  {
    forall i | 0 <= i < |steps| ensures Prefixed(steps, prefix)[i].name == prefix + steps[i].name {
      PrefixedAt(steps, prefix, i);
    }
    forall name | name in Names(steps) ensures prefix + name in Names(Prefixed(steps, prefix)) {
      var i :| 0 <= i < |steps| && steps[i].name == name;
      assert Prefixed(steps, prefix)[i] in Prefixed(steps, prefix);
    }
  }

  lemma {:induction false} PrefixedWaitsScoped(waits: seq<Wait>, prefix: string, names: set<string>)
    requires forall wait | wait in waits :: wait.step in names
    ensures forall wait | wait in PrefixedWaits(waits, prefix) :: wait.step in set name | name in names :: prefix + name
  {
    if waits != [] {
      PrefixedWaitsScoped(waits[1..], prefix, names);
    }
  }

  /** A repetition whose names are new can follow. */
  lemma RepetitionOrdered(before: seq<Request>, steps: seq<Request>, prefix: string)
    requires Ordered(before) && Ordered(steps)
    requires forall name | name in Names(steps) :: prefix + name !in Names(before)
    ensures Ordered(before + Prefixed(steps, prefix))
  {
    var whole := before + Prefixed(steps, prefix);
    forall k | 0 <= k < |whole| ensures Placed(whole, k) {
      if k < |before| {
        assert whole[..k] == before[..k];
        assert Placed(before, k);
      } else {
        ScopedPlaced(before, steps, prefix, k - |before|);
      }
    }
    assert forall k | 0 <= k < |whole| :: Placed(whole, k);
  }

  lemma ScopedPlaced(before: seq<Request>, steps: seq<Request>, prefix: string, i: nat)
    requires Ordered(steps) && i < |steps|
    requires forall name | name in Names(steps) :: prefix + name !in Names(before)
    ensures Placed(before + Prefixed(steps, prefix), |before| + i)
  {
    hide Prefixed, PrefixedWaits;
    var scoped := Prefixed(steps, prefix);
    assert (before + scoped)[..|before| + i] == before + scoped[..i];
    PrefixedAt(steps, prefix, i);
    PrefixedNames(steps[..i], prefix);
    assert Placed(steps, i);
    PrefixedWaitsScoped(steps[i].waits, prefix, Names(steps[..i]));
    assert steps[i] in steps;
    assert Names(before + scoped[..i]) == Names(before) + Names(scoped[..i]);
    if prefix + steps[i].name in Names(scoped[..i]) {
      var name :| name in Names(steps[..i]) && prefix + name == prefix + steps[i].name;
      PrefixInjective(prefix, name, steps[i].name);
    }
  }

  lemma {:induction false} ExpandedNames(steps: seq<Request>, repeats: nat, done: nat, name: string)
    requires name in Names(Expanded(steps, repeats, done))
    ensures exists r: nat, own :: r < done && name == Prefix(r, repeats) + own
    decreases done
  {
    hide Prefix;
    PrefixedNames(steps, Prefix(done - 1, repeats));
    if name !in Names(Prefixed(steps, Prefix(done - 1, repeats))) {
      ExpandedNames(steps, repeats, done - 1, name);
    }
  }

  /** Scoped names are unique and every scoped reference is an earlier step of its own repetition. */
  lemma {:induction false} ExpandedOrdered(steps: seq<Request>, repeats: nat, done: nat)
    requires Ordered(steps) && done <= repeats
    ensures Ordered(Expanded(steps, repeats, done))
    decreases done
  {
    hide Ordered, Prefix, Prefixed;
    if done == 0 {
      NothingOrdered();
    } else {
      ExpandedOrdered(steps, repeats, done - 1);
      RepetitionNew(steps, repeats, done - 1);
      RepetitionOrdered(Expanded(steps, repeats, done - 1), steps, Prefix(done - 1, repeats));
    }
  }

  lemma RepetitionNew(steps: seq<Request>, repeats: nat, done: nat)
    requires done < repeats
    ensures forall name | name in Names(steps) :: Prefix(done, repeats) + name !in Names(Expanded(steps, repeats, done))
  {
    hide Names, Expanded, Digits;
    var prefix := Prefix(done, repeats);
    forall name | name in Names(steps) ensures prefix + name !in Names(Expanded(steps, repeats, done)) {
      if prefix + name in Names(Expanded(steps, repeats, done)) {
        ExpandedNames(steps, repeats, done, prefix + name);
        var r: nat, own :| r < done && prefix + name == Prefix(r, repeats) + own;
        ScopesApart(r, done, own, name);
      }
    }
  }

  lemma {:induction false} PlainNames(prompt: nat, repeats: nat)
    ensures Ordered(Plain(prompt, repeats))
    ensures forall k | 0 <= k < repeats :: Plain(prompt, repeats)[k].name == Digits(k)
  {
    hide Digits, Ordered;
    if repeats == 0 {
      NothingOrdered();
    } else {
      var before, last := Plain(prompt, repeats - 1), Request(Digits(repeats - 1), [], prompt);
      PlainNames(prompt, repeats - 1);
      if last.name in Names(before) {
        var k :| 0 <= k < repeats - 1 && before[k].name == last.name;
        DigitsInjective(k, repeats - 1);
      }
      OrderedAppend(before, last);
    }
  }

  lemma NothingOrdered()
    ensures Ordered([])
  {
  }

  lemma OrderedAppend(before: seq<Request>, last: Request)
    requires Ordered(before) && last.name !in Names(before) && last.waits == []
    ensures Ordered(before + [last])
  {
    var whole := before + [last];
    forall k | 0 <= k < |whole| ensures Placed(whole, k) {
      if k < |before| {
        assert whole[..k] == before[..k];
        assert Placed(before, k);
      } else {
        assert whole[..k] == before;
      }
    }
  }

  /** The expansion of an accepted plan would itself be accepted. */
  lemma GraphOrdered(benchmark: Benchmark)
    requires Ordered(Requests(benchmark))
    ensures Ordered(Graph(benchmark))
  {
    if benchmark.steps.None? {
      PlainNames(PromptOf(benchmark, SINGLE), benchmark.repeats);
    } else {
      ExpandedOrdered(Requests(benchmark), benchmark.repeats, benchmark.repeats);
    }
  }

  // ------------------------------------------------ the estimate of the expansion

  lemma SourcesUnfold(waits: seq<Wait>)
    ensures Sources(waits)
         == if waits == [] then [] else (if waits[0].reuse then [waits[0].step] else []) + Sources(waits[1..])
  {
  }

  lemma PrefixedWaitsUnfold(waits: seq<Wait>, prefix: string)
    ensures var scoped := PrefixedWaits(waits, prefix);
      if waits == [] then scoped == []
      else scoped != [] && scoped[0] == waits[0].(step := prefix + waits[0].step)
           && scoped[1..] == PrefixedWaits(waits[1..], prefix)
  {
  }

  lemma {:induction false} PrefixedSources(waits: seq<Wait>, prefix: string)
    ensures |Sources(PrefixedWaits(waits, prefix))| == |Sources(waits)|
    ensures forall k | 0 <= k < |Sources(waits)| ::
              Sources(PrefixedWaits(waits, prefix))[k] == prefix + Sources(waits)[k]
  {
    hide Sources, PrefixedWaits;
    SourcesUnfold(waits);
    SourcesUnfold(PrefixedWaits(waits, prefix));
    PrefixedWaitsUnfold(waits, prefix);
    if waits != [] {
      PrefixedSources(waits[1..], prefix);
    }
  }

  lemma {:induction false} SourcesAreWaits(waits: seq<Wait>, names: set<string>)
    requires forall wait | wait in waits :: wait.step in names
    ensures forall source | source in Sources(waits) :: source in names
  {
    if waits != [] {
      SourcesAreWaits(waits[1..], names);
    }
  }

  /** Under a prefix, every step of the block has the size it has in one iteration alone. */
  ghost predicate SameSizes(block: map<string, nat>, alone: map<string, nat>, prefix: string, names: set<string>) {
    forall name | name in names :: name in alone && prefix + name in block && block[prefix + name] == alone[name]
  }

  lemma {:induction false} SameSums(block: map<string, nat>, alone: map<string, nat>, prefix: string,
                                    names: set<string>, scoped: seq<string>, sources: seq<string>)
    requires SameSizes(block, alone, prefix, names) && |scoped| == |sources|
    requires forall k | 0 <= k < |sources| :: sources[k] in names && scoped[k] == prefix + sources[k]
    ensures SumOf(block, scoped) == SumOf(alone, sources)
    decreases |sources|
  {
    if sources != [] {
      assert sources[0] in names;
      SameSums(block, alone, prefix, names, scoped[1..], sources[1..]);
    }
  }

  lemma PrefixInjective(prefix: string, a: string, b: string)
    requires prefix + a == prefix + b
    ensures a == b
  {
    assert a == (prefix + a)[|prefix|..] && b == (prefix + b)[|prefix|..];
  }

  lemma OrderedFront(steps: seq<Request>)
    requires steps != [] && Ordered(steps)
    ensures Ordered(steps[..|steps| - 1])
  {
    var front := steps[..|steps| - 1];
    forall i | 0 <= i < |front| ensures Placed(front, i) {
      assert front[..i] == steps[..i] && Placed(steps, i);
    }
  }

  /** One repetition, whatever came before it, costs what one iteration costs alone. */
  lemma {:induction false} BlockCosts(before: seq<Request>, steps: seq<Request>, prefix: string, output: nat)
    requires Ordered(steps)
    ensures var whole, alone := Account(before + Prefixed(steps, prefix), output), Account(steps, output);
      && whole.total == Account(before, output).total + alone.total
      && SameSizes(whole.history, alone.history, prefix, Names(steps))
    decreases |steps|
  {
    if steps == [] {
      assert before + [] == before;
    } else {
      var front, last := steps[..|steps| - 1], steps[|steps| - 1];
      OrderedFront(steps);
      BlockCosts(before, front, prefix, output);
      LastCosts(before, steps, prefix, output);
    }
  }

  function CostOf(ledger: Ledger, step: Request, output: nat): nat {
    SumOf(ledger.history, Sources(step.waits)) + step.prompt + output
  }

  lemma AccountStep(steps: seq<Request>, step: Request, output: nat)
    ensures var before, after := Account(steps, output), Account(steps + [step], output);
      after == Ledger(before.total + CostOf(before, step, output),
                      before.history[step.name := CostOf(before, step, output)])
  {
    assert (steps + [step])[..|steps|] == steps;
  }

  lemma PrefixedStep(steps: seq<Request>, prefix: string)
    requires steps != []
    ensures var last := steps[|steps| - 1];
      Prefixed(steps, prefix)
      == Prefixed(steps[..|steps| - 1], prefix)
         + [Request(prefix + last.name, PrefixedWaits(last.waits, prefix), last.prompt)]
  {
  }

  lemma LastCosts(before: seq<Request>, steps: seq<Request>, prefix: string, output: nat)
    requires steps != [] && Ordered(steps)
    requires var front := steps[..|steps| - 1];
      var whole, alone := Account(before + Prefixed(front, prefix), output), Account(front, output);
      && whole.total == Account(before, output).total + alone.total
      && SameSizes(whole.history, alone.history, prefix, Names(front))
    ensures var whole, alone := Account(before + Prefixed(steps, prefix), output), Account(steps, output);
      && whole.total == Account(before, output).total + alone.total
      && SameSizes(whole.history, alone.history, prefix, Names(steps))
  {
    hide Account, Prefixed, SameSizes, Ordered, SumOf, Sources, PrefixedWaits, Names;
    var front, last := steps[..|steps| - 1], steps[|steps| - 1];
    var scoped := Request(prefix + last.name, PrefixedWaits(last.waits, prefix), last.prompt);
    var block, alone := Account(before + Prefixed(front, prefix), output), Account(front, output);
    assert before + Prefixed(steps, prefix) == before + Prefixed(front, prefix) + [scoped] by {
      PrefixedStep(steps, prefix);
    }
    assert steps == front + [last];
    AccountStep(before + Prefixed(front, prefix), scoped, output);
    AccountStep(front, last, output);
    assert CostOf(block, scoped, output) == CostOf(alone, last, output) by {
      SameCost(block, alone, prefix, steps, output);
    }
    SizesGrow(block.history, alone.history, prefix, front, last, CostOf(alone, last, output));
  }

  /** The last step's sources have the same sizes in the block, so it costs the same. */
  lemma SameCost(block: Ledger, alone: Ledger, prefix: string, steps: seq<Request>, output: nat)
    requires steps != [] && Ordered(steps)
    requires SameSizes(block.history, alone.history, prefix, Names(steps[..|steps| - 1]))
    ensures var last := steps[|steps| - 1];
      CostOf(block, Request(prefix + last.name, PrefixedWaits(last.waits, prefix), last.prompt), output)
      == CostOf(alone, last, output)
  {
    hide SumOf, PrefixedWaits, Sources, SameSizes, Names;
    var front, last := steps[..|steps| - 1], steps[|steps| - 1];
    assert Placed(steps, |front|);
    PrefixedSources(last.waits, prefix);
    SourcesAreWaits(last.waits, Names(front));
    SameSums(block.history, alone.history, prefix, Names(front), Sources(PrefixedWaits(last.waits, prefix)),
             Sources(last.waits));
  }

  lemma SizesGrow(block: map<string, nat>, alone: map<string, nat>, prefix: string, front: seq<Request>, last: Request,
                  cost: nat)
    requires SameSizes(block, alone, prefix, Names(front))
    ensures SameSizes(block[prefix + last.name := cost], alone[last.name := cost], prefix, Names(front + [last]))
  {
    var grown, own := block[prefix + last.name := cost], alone[last.name := cost];
    forall name | name in Names(front + [last])
      ensures name in own && prefix + name in grown && grown[prefix + name] == own[name]
    {
      if name != last.name {
        assert name in Names(front);
        if prefix + name == prefix + last.name {
          PrefixInjective(prefix, name, last.name);
        }
      }
    }
  }

  /** The estimate of one iteration times the repeats is the estimate of the fully expanded graph. */
  lemma {:induction false} BudgetCoversExpansion(steps: seq<Request>, repeats: nat, done: nat, output: nat)
    requires Ordered(steps)
    ensures Account(Expanded(steps, repeats, done), output).total == done * Account(steps, output).total
    decreases done
  {
    hide Ordered, Prefix, Account;
    if done == 0 {
      assert Account([], output).total == 0 by { AccountNothing(output); }
    } else {
      BudgetCoversExpansion(steps, repeats, done - 1, output);
      BlockCosts(Expanded(steps, repeats, done - 1), steps, Prefix(done - 1, repeats), output);
      OneMore(done, Account(steps, output).total);
    }
  }

  lemma AccountNothing(output: nat)
    ensures Account([], output) == Ledger(0, map[])
  {
  }

  /** Without declared steps every repetition is one request named by its index. */
  function Plain(prompt: nat, repeats: nat): (steps: seq<Request>)
    ensures |steps| == repeats
  {
    if repeats == 0 then [] else Plain(prompt, repeats - 1) + [Request(Digits(repeats - 1), [], prompt)]
  }

  lemma {:induction false} BudgetCoversPlain(prompt: nat, repeats: nat, output: nat)
    ensures Account(Plain(prompt, repeats), output).total
            == repeats * Account([Request("request", [], prompt)], output).total
    decreases repeats
  {
    hide Account;
    var single := Request("request", [], prompt);
    AccountNothing(output);
    AccountStep([], single, output);
    assert [] + [single] == [single];
    if repeats > 0 {
      BudgetCoversPlain(prompt, repeats - 1, output);
      AccountStep(Plain(prompt, repeats - 1), Request(Digits(repeats - 1), [], prompt), output);
      OneMore(repeats, Account([single], output).total);
    }
  }

  /** The budget made beforehand is the estimate of the graph that is expanded later. */
  lemma BudgetCoversGraph(benchmark: Benchmark)
    requires Ordered(Requests(benchmark))
    ensures Account(Graph(benchmark), benchmark.outputTokens).total
         == benchmark.repeats * Account(Requests(benchmark), benchmark.outputTokens).total
  {
    hide Account;
    if benchmark.steps.None? {
      var prompt := PromptOf(benchmark, SINGLE);
      assert Requests(benchmark) == [Request("request", [], prompt)];
      BudgetCoversPlain(prompt, benchmark.repeats, benchmark.outputTokens);
    } else {
      BudgetCoversExpansion(Requests(benchmark), benchmark.repeats, benchmark.repeats, benchmark.outputTokens);
    }
  }

  // ------------------------------------------------ the conversations built

  datatype Role = User | Assistant

  datatype Message = Message(role: Role, tokens: nat)

  /** What a step's prompt and answer turned out to be. */
  datatype Actual = Actual(prompt: nat, output: nat)

  function Tokens(messages: seq<Message>): nat {
    if messages == [] then 0 else messages[0].tokens + Tokens(messages[1..])
  }

  function Conversations(built: map<string, seq<Message>>, sources: seq<string>): seq<Message> {
    if sources == [] then []
    else (if sources[0] in built then built[sources[0]] else []) + Conversations(built, sources[1..])
  }

  /** Reused conversations replace the Runner's own opening messages; the prompt comes last. */
  function RequestMessages(built: map<string, seq<Message>>, opening: seq<Message>, step: Request,
                           actual: Actual): seq<Message>
  {
    (if Sources(step.waits) == [] then opening else Conversations(built, Sources(step.waits)))
    + [Message(User, actual.prompt)]
  }

  /** A completed step's conversation: its request and its answer. */
  function CompletedMessages(built: map<string, seq<Message>>, opening: seq<Message>, step: Request,
                             actual: Actual): seq<Message>
  {
    RequestMessages(built, opening, step, actual) + [Message(Assistant, actual.output)]
  }

  function Built(steps: seq<Request>, actuals: seq<Actual>, opening: seq<Message>): map<string, seq<Message>>
    requires |steps| == |actuals|
    decreases |steps|
  {
    if steps == [] then map[]
    else
      var last := |steps| - 1;
      var before := Built(steps[..last], actuals[..last], opening);
      before[steps[last].name := CompletedMessages(before, opening, steps[last], actuals[last])]
  }

  /** All tokens sent and received over the graph. */
  function Spent(steps: seq<Request>, actuals: seq<Actual>, opening: seq<Message>): nat
    requires |steps| == |actuals|
    decreases |steps|
  {
    if steps == [] then 0
    else
      var last := |steps| - 1;
      Spent(steps[..last], actuals[..last], opening)
      + Tokens(CompletedMessages(Built(steps[..last], actuals[..last], opening), opening, steps[last], actuals[last]))
  }

  lemma {:induction false} TokensAppend(a: seq<Message>, b: seq<Message>)
    ensures Tokens(a + b) == Tokens(a) + Tokens(b)
    decreases |a|
  {
    if a == [] {
      assert a + b == b;
    } else {
      assert (a + b)[1..] == a[1..] + b;
      TokensAppend(a[1..], b);
    }
  }

  ghost predicate Covers(history: map<string, nat>, built: map<string, seq<Message>>, exact: bool) {
    forall name | name in built ::
      name in history && if exact then Tokens(built[name]) == history[name] else Tokens(built[name]) <= history[name]
  }

  lemma {:induction false} ConversationsCovered(history: map<string, nat>, built: map<string, seq<Message>>,
                                                sources: seq<string>, exact: bool)
    requires history.Keys == built.Keys && Covers(history, built, exact)
    ensures if exact then Tokens(Conversations(built, sources)) == SumOf(history, sources)
            else Tokens(Conversations(built, sources)) <= SumOf(history, sources)
  {
    if sources != [] {
      ConversationsCovered(history, built, sources[1..], exact);
      TokensAppend(if sources[0] in built then built[sources[0]] else [], Conversations(built, sources[1..]));
    }
  }

  /** Every prompt and answer is within its estimate, or exactly at it. */
  ghost predicate Within(steps: seq<Request>, actuals: seq<Actual>, output: nat, exact: bool)
    requires |steps| == |actuals|
  {
    forall k | 0 <= k < |steps| ::
      if exact then actuals[k] == Actual(steps[k].prompt, output)
      else actuals[k].prompt <= steps[k].prompt && actuals[k].output <= output
  }

  lemma StepCovered(ledger: Ledger, built: map<string, seq<Message>>, step: Request, actual: Actual, output: nat,
                    exact: bool)
    requires ledger.history.Keys == built.Keys && Covers(ledger.history, built, exact)
    requires if exact then actual == Actual(step.prompt, output)
             else actual.prompt <= step.prompt && actual.output <= output
    ensures var spent := Tokens(CompletedMessages(built, [], step, actual));
      if exact then spent == CostOf(ledger, step, output) else spent <= CostOf(ledger, step, output)
  {
    var request, prompt, answer := RequestMessages(built, [], step, actual), [Message(User, actual.prompt)],
      [Message(Assistant, actual.output)];
    TokensAppend(request, answer);
    TokensAppend(if Sources(step.waits) == [] then [] else Conversations(built, Sources(step.waits)), prompt);
    ConversationsCovered(ledger.history, built, Sources(step.waits), exact);
    assert Tokens(prompt) == actual.prompt && Tokens(answer) == actual.output;
  }

  /**
    The budget equals what the conversations built at run time cost when every prompt and answer has
    its estimated size, so it bounds every run in which none is larger.
   */
  lemma {:induction false} BudgetCoversConversations(steps: seq<Request>, actuals: seq<Actual>, output: nat,
                                                     exact: bool)
    requires |steps| == |actuals| && Within(steps, actuals, output, exact)
    ensures if exact then Spent(steps, actuals, []) == Account(steps, output).total
            else Spent(steps, actuals, []) <= Account(steps, output).total
    ensures Account(steps, output).history.Keys == Built(steps, actuals, []).Keys
    ensures Covers(Account(steps, output).history, Built(steps, actuals, []), exact)
    decreases |steps|
  {
    hide SumOf, Sources, Tokens, CompletedMessages;
    if steps != [] {
      var last := |steps| - 1;
      BudgetCoversConversations(steps[..last], actuals[..last], output, exact);
      var before, built := Account(steps[..last], output), Built(steps[..last], actuals[..last], []);
      StepCovered(before, built, steps[last], actuals[last], output, exact);
      AccountStep(steps[..last], steps[last], output);
      assert steps[..last] + [steps[last]] == steps;
    }
  }

  /** Conversations that start from opening messages are at least as large, and equal if those are empty of tokens. */
  ghost predicate Dominates(larger: map<string, seq<Message>>, smaller: map<string, seq<Message>>, equal: bool) {
    && larger.Keys == smaller.Keys
    && forall name | name in smaller ::
         Tokens(larger[name]) >= Tokens(smaller[name]) && (equal ==> Tokens(larger[name]) == Tokens(smaller[name]))
  }

  lemma {:induction false} ConversationsDominate(larger: map<string, seq<Message>>, smaller: map<string, seq<Message>>,
                                                 sources: seq<string>, equal: bool)
    requires Dominates(larger, smaller, equal)
    ensures Tokens(Conversations(larger, sources)) >= Tokens(Conversations(smaller, sources))
    ensures equal ==> Tokens(Conversations(larger, sources)) == Tokens(Conversations(smaller, sources))
  {
    if sources != [] {
      ConversationsDominate(larger, smaller, sources[1..], equal);
      TokensAppend(if sources[0] in larger then larger[sources[0]] else [], Conversations(larger, sources[1..]));
      TokensAppend(if sources[0] in smaller then smaller[sources[0]] else [], Conversations(smaller, sources[1..]));
    }
  }

  lemma StepDominates(larger: map<string, seq<Message>>, smaller: map<string, seq<Message>>, opening: seq<Message>,
                      step: Request, actual: Actual)
    requires Dominates(larger, smaller, Tokens(opening) == 0)
    ensures var own, plain := Tokens(CompletedMessages(larger, opening, step, actual)),
            Tokens(CompletedMessages(smaller, [], step, actual));
      && own >= plain + (if Sources(step.waits) == [] then Tokens(opening) else 0)
      && (Tokens(opening) == 0 ==> own == plain)
  {
    var sources, prompt, answer := Sources(step.waits), [Message(User, actual.prompt)],
      [Message(Assistant, actual.output)];
    ConversationsDominate(larger, smaller, sources, Tokens(opening) == 0);
    TokensAppend(RequestMessages(larger, opening, step, actual), answer);
    TokensAppend(RequestMessages(smaller, [], step, actual), answer);
    TokensAppend(if sources == [] then opening else Conversations(larger, sources), prompt);
    TokensAppend(if sources == [] then [] else Conversations(smaller, sources), prompt);
  }

  lemma {:induction false} OpeningAdds(steps: seq<Request>, actuals: seq<Actual>, opening: seq<Message>)
    requires |steps| == |actuals|
    ensures Dominates(Built(steps, actuals, opening), Built(steps, actuals, []), Tokens(opening) == 0)
    ensures Tokens(opening) == 0 ==> Spent(steps, actuals, opening) == Spent(steps, actuals, [])
    ensures Spent(steps, actuals, opening)
         >= Spent(steps, actuals, []) + (if steps != [] && Sources(steps[0].waits) == [] then Tokens(opening) else 0)
    decreases |steps|
  {
    hide Tokens, CompletedMessages, Sources;
    if steps != [] {
      var last := |steps| - 1;
      OpeningAdds(steps[..last], actuals[..last], opening);
      StepDominates(Built(steps[..last], actuals[..last], opening), Built(steps[..last], actuals[..last], []), opening,
                    steps[last], actuals[last]);
    }
  }

  lemma FirstHasNoSources(steps: seq<Request>)
    requires steps != [] && Ordered(steps)
    ensures Sources(steps[0].waits) == []
  {
    assert Names(steps[..0]) == {} && Placed(steps, 0);
    assert forall k | 0 <= k < |steps[0].waits| :: steps[0].waits[k] in steps[0].waits;
  }

  /**
    Opening messages are outside the budget: with every size at its estimate, the budget is exact if and
    only if the opening messages carry no tokens, and otherwise it is too small.
   */
  lemma BudgetExactWithoutOpening(steps: seq<Request>, actuals: seq<Actual>, output: nat, opening: seq<Message>)
    requires steps != [] && Ordered(steps) && |steps| == |actuals| && Within(steps, actuals, output, true)
    ensures Spent(steps, actuals, opening) == Account(steps, output).total <==> Tokens(opening) == 0
    ensures Spent(steps, actuals, opening) >= Account(steps, output).total
  {
    BudgetCoversConversations(steps, actuals, output, true);
    OpeningAdds(steps, actuals, opening);
    FirstHasNoSources(steps);
  }

  // ------------------------------------------------ the expansion, element by element

  /** Sources are the steps reused, in order. */
  lemma SourcesInOrder(waits: seq<Wait>, last: Wait)
    ensures Sources([]) == [] && Sources(waits + [last]) == Sources(waits) + if last.reuse then [last.step] else []
  {
    SourcesAppend(waits, [last]);
  }

  lemma {:induction false} SourcesAppend(waits: seq<Wait>, more: seq<Wait>)
    ensures Sources(waits + more) == Sources(waits) + Sources(more)
  {
    if waits == [] {
      assert waits + more == more;
    } else {
      assert (waits + more)[1..] == waits[1..] + more;
      SourcesAppend(waits[1..], more);
    }
  }

  lemma {:induction false} PrefixedWaitsAt(waits: seq<Wait>, prefix: string)
    ensures |PrefixedWaits(waits, prefix)| == |waits|
    ensures forall k | 0 <= k < |waits| ::
              PrefixedWaits(waits, prefix)[k] == Wait(prefix + waits[k].step, waits[k].reuse)
  {
    if waits != [] {
      PrefixedWaitsAt(waits[1..], prefix);
    }
  }

  /** The name a step has in a repetition: its own if there is only one, otherwise behind the number and a dot. */
  ghost predicate Scoped(repeats: nat, repetition: nat, name: string, scoped: string) {
    if repeats == 1 then scoped == name else scoped == Digits(repetition) + "." + name
  }

  ghost predicate ScopedRequest(repeats: nat, repetition: nat, step: Request, scoped: Request) {
    && Scoped(repeats, repetition, step.name, scoped.name) && scoped.prompt == step.prompt
    && |scoped.waits| == |step.waits|
    && forall k | 0 <= k < |step.waits| ::
         scoped.waits[k].reuse == step.waits[k].reuse
         && Scoped(repeats, repetition, step.waits[k].step, scoped.waits[k].step)
  }

  lemma {:induction false} ExpandedAt(steps: seq<Request>, repeats: nat, done: nat, repetition: nat, i: nat)
    requires repetition < done <= repeats && i < |steps|
    ensures |Expanded(steps, repeats, done)| == done * |steps| && repetition * |steps| + i < done * |steps|
    ensures ScopedRequest(repeats, repetition, steps[i], Expanded(steps, repeats, done)[repetition * |steps| + i])
    decreases done
  {
    hide ScopedRequest, Prefixed, Prefix;
    ExpandedSize(steps, repeats, done);
    ExpandedSize(steps, repeats, done - 1);
    OneMore(done, |steps|);
    if repetition == done - 1 {
      ScopedAt(steps, repeats, repetition, i);
    } else {
      ExpandedAt(steps, repeats, done - 1, repetition, i);
    }
  }

  lemma ScopedAt(steps: seq<Request>, repeats: nat, repetition: nat, i: nat)
    requires repetition < repeats && i < |steps|
    ensures ScopedRequest(repeats, repetition, steps[i], Prefixed(steps, Prefix(repetition, repeats))[i])
  {
    hide Scoped, Prefix, Prefixed, PrefixedWaits;
    var prefix := Prefix(repetition, repeats);
    PrefixedAt(steps, prefix, i);
    PrefixedWaitsAt(steps[i].waits, prefix);
    forall name ensures Scoped(repeats, repetition, name, prefix + name) {
      PrefixScopes(repeats, repetition, name);
    }
  }

  lemma PrefixScopes(repeats: nat, repetition: nat, name: string)
    requires repetition < repeats
    ensures Scoped(repeats, repetition, name, Prefix(repetition, repeats) + name)
  {
    hide Digits;
    assert "" + name == name;
  }

  /**
    Every request of the whole graph: the step it repeats, scoped to its repetition, or one of the
    numbered plain ones.
   */
  lemma GraphAt(benchmark: Benchmark, steps: seq<Request>, repetition: nat, i: nat)
    requires Estimated(benchmark, steps) && repetition < benchmark.repeats && i < |steps|
    ensures |Graph(benchmark)| == benchmark.repeats * |steps| && repetition * |steps| + i < |Graph(benchmark)|
    ensures var scoped := Graph(benchmark)[repetition * |steps| + i];
      if benchmark.steps.None? then scoped == Request(Digits(repetition), [], steps[0].prompt)
      else ScopedRequest(benchmark.repeats, repetition, steps[i], scoped)
  {
    hide Sized, PromptOf, ScopedRequest, Digits;
    EstimatedIsRequests(benchmark, steps);
    if benchmark.steps.None? {
      PlainAt(PromptOf(benchmark, SINGLE), benchmark.repeats, repetition);
    } else {
      ExpandedAt(steps, benchmark.repeats, benchmark.repeats, repetition, i);
    }
  }

  lemma {:induction false} PlainAt(prompt: nat, repeats: nat, k: nat)
    requires k < repeats
    ensures Plain(prompt, repeats)[k] == Request(Digits(k), [], prompt)
    decreases repeats
  {
    if k < repeats - 1 {
      PlainAt(prompt, repeats - 1, k);
    }
  }

  lemma EstimatedIsRequests(benchmark: Benchmark, steps: seq<Request>)
    requires Estimated(benchmark, steps)
    ensures steps == Requests(benchmark)
  {
    hide Sized, PromptOf;
    forall i | 0 <= i < |steps| ensures steps[i] == Requests(benchmark)[i] {
      SizedExactly(benchmark, DeclaredSteps(benchmark)[i], steps[i].prompt);
    }
  }
}
