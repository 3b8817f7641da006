/**
  Preparing a Worker's prompt through two bounded caches. The tokenizer, the corpus and the random
  sampling are deterministic but otherwise arbitrary functions, collected in `World`.
 */
module PlanCache {
  import opened Collections
  import opened Outcomes

  datatype Source = Builtin | External(adapter: string, path: string, filename: string)

  datatype Tokenizer = Tokenizer(path: string, fast: bool)

  type Positive = x: real | x > 0.0 witness 1.0

  datatype Calibration = Calibration(charactersPerToken: Positive, records: nat)

  /** The prompt description of one Worker; `rest` stands for the dumped fields that only the key uses. */
  datatype Recipe = Recipe(
    index: nat, probeFamily: nat, probeOccurrence: nat, seed: int, prefixSeed: Option<int>,
    tokens: nat, deviation: nat, prefixTokens: nat, outputTokens: nat, concatenates: bool, repeats: nat,
    text: Option<string>, inputName: string, adapter: Option<string>, filename: string, calibrated: bool, rest: string)

  /** Located corpora by input name, one for all inputs, and the tokenizer. */
  datatype Environment = Environment(paths: map<string, string>, workerPath: Option<string>, tokenizerPath: string,
                                     tokenizerFast: Option<string>)

  datatype Plan = Plan(prefix: string, prefixTokens: nat, seed: int, mean: nat, deviation: nat, source: Source,
                       calibration: Calibration, prefixRecords: seq<nat>, sharedPrefixSeed: Option<int>)

  datatype Prompt = Prompt(text: string, tokens: nat, records: seq<nat>)

  datatype World = World(
    calibrateCorpus: (Tokenizer, Source) -> Calibration,
    assembleExternal: (Source, real, nat, int) -> (string, seq<nat>),
    assembleBuiltin: (Calibration, nat, int) -> string,
    instruction: nat -> string,
    instructionTokens: (nat, Calibration) -> nat,
    render: (Plan, nat) -> Prompt,
    encode: (Tokenizer, string) -> nat,
    rounded: real -> int,
    generate: (Source, Recipe, Tokenizer, Option<Calibration>) -> Prompt)

  /** Any spelling of "true" counts; other letters keep their meaning. */
  function Lower(text: string): string {
    if text == "" then "" else [if 'A' <= text[0] <= 'Z' then text[0] - 'A' + 'a' else text[0]] + Lower(text[1..])
  }

  function FastText(environment: Environment): string {
    if environment.tokenizerFast.Some? then environment.tokenizerFast.value else "true"
  }

  function TokenizerOf(environment: Environment): Tokenizer {
    Tokenizer(environment.tokenizerPath, Lower(FastText(environment)) == "true")
  }

  function Present(text: Option<string>): bool {
    text.Some? && text.value != ""
  }

  /** The input's own path, or the one for all inputs. */
  function DatasetPath(recipe: Recipe, environment: Environment): Option<string> {
    if recipe.inputName in environment.paths && environment.paths[recipe.inputName] != "" then
      Some(environment.paths[recipe.inputName])
    else environment.workerPath
  }

  function SourceAt(recipe: Recipe, path: Option<string>): Source {
    if Present(recipe.adapter) && Present(path) then External(recipe.adapter.value, path.value, recipe.filename)
    else Builtin
  }

  function SourceOf(recipe: Recipe, environment: Environment): Source {
    SourceAt(recipe, DatasetPath(recipe, environment))
  }

  /** An external corpus that the environment does not locate is refused. */
  predicate MissingCorpus(recipe: Recipe, environment: Environment) {
    Present(recipe.adapter) && !Present(DatasetPath(recipe, environment))
  }

  // ------------------------------------------------ the simple form

  function Calibrate(world: World, seed: int, recipe: Recipe, source: Source, calibration: Calibration): Plan {
    var prefixSeed := if recipe.prefixSeed.Some? then recipe.prefixSeed.value else seed;
    if source.External? then
      var (prefix, records) := world.assembleExternal(source, calibration.charactersPerToken, recipe.prefixTokens,
                                                      prefixSeed);
      Plan(prefix, recipe.prefixTokens, seed, recipe.tokens, recipe.deviation, source, calibration, records,
           recipe.prefixSeed)
    else
      var instructionTokens := world.instructionTokens(recipe.outputTokens, calibration);
      var budget := if instructionTokens > recipe.prefixTokens then instructionTokens else recipe.prefixTokens;
      Plan(world.instruction(recipe.outputTokens)
           + world.assembleBuiltin(calibration, budget - instructionTokens, prefixSeed), budget, seed, recipe.tokens,
           recipe.deviation, source, calibration, [], recipe.prefixSeed)
  }

  function FreshCalibration(world: World, recipe: Recipe, environment: Environment): Calibration {
    world.calibrateCorpus(TokenizerOf(environment), SourceOf(recipe, environment))
  }

  predicate UsesPlan(recipe: Recipe) {
    recipe.text.None? && recipe.calibrated && recipe.concatenates && recipe.repeats == 1
  }

  /** A calibrated text is sized by its length, another one by the tokenizer. */
  function SizeOf(world: World, tokenizer: Tokenizer, calibration: Option<Calibration>, text: string): nat {
    if calibration.None? then world.encode(tokenizer, text)
    else
      var tokens := world.rounded(|text| as real / calibration.value.charactersPerToken);
      if tokens < 0 then 0 else tokens
  }

  /** What preparation gives without a plan. */
  function Otherwise(world: World, recipe: Recipe, environment: Environment, calibration: Option<Calibration>): Prompt {
    if recipe.text.Some? then
      Prompt(recipe.text.value, SizeOf(world, TokenizerOf(environment), calibration, recipe.text.value), [])
    else world.generate(SourceOf(recipe, environment), recipe, TokenizerOf(environment), calibration)
  }

  /** What preparation gives without any cache. */
  function FreshPrompt(world: World, recipe: Recipe, environment: Environment): Prompt {
    if UsesPlan(recipe) then
      world.render(Calibrate(world, recipe.seed, recipe, SourceOf(recipe, environment),
                             FreshCalibration(world, recipe, environment)),
                   recipe.index)
    else
      Otherwise(world, recipe, environment,
                if recipe.calibrated then Some(FreshCalibration(world, recipe, environment)) else None)
  }

  // ------------------------------------------------ the same, in terms of what is read

  /** The path is the input's own unless that is missing or empty. */
  ghost predicate Located(recipe: Recipe, environment: Environment, path: string) {
    && path != ""
    && (|| (recipe.inputName in environment.paths && environment.paths[recipe.inputName] == path)
        || ((recipe.inputName in environment.paths ==> environment.paths[recipe.inputName] == "")
            && environment.workerPath == Some(path)))
  }

  /** An adapter and a path together make the corpus external. */
  ghost predicate ReadsExternal(recipe: Recipe, environment: Environment, adapter: string, path: string) {
    adapter != "" && recipe.adapter == Some(adapter) && Located(recipe, environment, path)
  }

  ghost predicate Reads(recipe: Recipe, environment: Environment, source: Source) {
    match source
    case External(adapter, path, filename) =>
      ReadsExternal(recipe, environment, adapter, path) && filename == recipe.filename
    case Builtin => forall adapter, path :: !ReadsExternal(recipe, environment, adapter, path)
  }

  lemma LocatedExactly(recipe: Recipe, environment: Environment)
    ensures Present(DatasetPath(recipe, environment)) <==> exists path :: Located(recipe, environment, path)
  {
    if Present(DatasetPath(recipe, environment)) {
      assert Located(recipe, environment, DatasetPath(recipe, environment).value);
    }
  }

  /** Exactly one corpus is read, and it is the one that preparation uses. */
  lemma ReadsExactly(recipe: Recipe, environment: Environment, source: Source)
    ensures Reads(recipe, environment, source) <==> source == SourceOf(recipe, environment)
  {
    var used := SourceOf(recipe, environment);
    if used.External? {
      assert ReadsExternal(recipe, environment, used.adapter, used.path);
    }
  }

  /** The four letters of "true", each large or small. */
  ghost predicate SaysTrue(text: string) {
    |text| == 4 && text[0] in {'t', 'T'} && text[1] in {'r', 'R'} && text[2] in {'u', 'U'} && text[3] in {'e', 'E'}
  }

  ghost predicate Tokenizes(environment: Environment, tokenizer: Tokenizer) {
    && tokenizer.path == environment.tokenizerPath
    && (tokenizer.fast <==> environment.tokenizerFast.None? || SaysTrue(environment.tokenizerFast.value))
  }

  lemma {:induction false} LowerAt(text: string)
    ensures |Lower(text)| == |text|
    ensures forall k | 0 <= k < |text| ::
              Lower(text)[k] == if 'A' <= text[k] <= 'Z' then text[k] - 'A' + 'a' else text[k]
  {
    if text != "" {
      LowerAt(text[1..]);
    }
  }

  lemma SmallIs(letter: char, small: char)
    requires 'a' <= small <= 'z'
    ensures (if 'A' <= letter <= 'Z' then letter - 'A' + 'a' else letter) == small
       <==> letter == small || letter == small - 'a' + 'A'
  {
  }

  lemma LowerIsTrue(text: string)
    ensures Lower(text) == "true" <==> SaysTrue(text)
  {
    LowerAt(text);
    if |text| == 4 {
      SmallIs(text[0], 't');
      SmallIs(text[1], 'r');
      SmallIs(text[2], 'u');
      SmallIs(text[3], 'e');
      assert Lower(text) == "true" <==>
               Lower(text)[0] == 't' && Lower(text)[1] == 'r' && Lower(text)[2] == 'u' && Lower(text)[3] == 'e';
    }
  }

  lemma TokenizesExactly(environment: Environment, tokenizer: Tokenizer)
    ensures Tokenizes(environment, tokenizer) <==> tokenizer == TokenizerOf(environment)
  {
    LowerIsTrue(FastText(environment));
  }

  /** Every field of a plan. */
  ghost predicate Describes(world: World, recipe: Recipe, source: Source, calibration: Calibration, plan: Plan) {
    && plan.seed == recipe.seed && plan.mean == recipe.tokens && plan.deviation == recipe.deviation
    && plan.source == source && plan.calibration == calibration && plan.sharedPrefixSeed == recipe.prefixSeed
    && plan.prefixTokens >= recipe.prefixTokens
    && exists seed :: PrefixSeed(recipe, seed) && PrefixOf(world, recipe, source, calibration, seed, plan)
  }

  ghost predicate PrefixSeed(recipe: Recipe, seed: int) {
    recipe.prefixSeed == Some(seed) || (recipe.prefixSeed.None? && seed == recipe.seed)
  }

  /** An external prefix is sampled to size; the built-in one completes the instruction, which may exceed it. */
  ghost predicate PrefixOf(world: World, recipe: Recipe, source: Source, calibration: Calibration, seed: int,
                           plan: Plan)
  {
    match source
    case External(_, _, _) =>
      && plan.prefixTokens == recipe.prefixTokens
      && (plan.prefix, plan.prefixRecords)
         == world.assembleExternal(source, calibration.charactersPerToken, recipe.prefixTokens, seed)
    case Builtin =>
      var instructed := world.instructionTokens(recipe.outputTokens, calibration);
      && plan.prefixTokens >= instructed
         && (plan.prefixTokens == recipe.prefixTokens || plan.prefixTokens == instructed)
      && plan.prefixRecords == []
      && plan.prefix == world.instruction(recipe.outputTokens)
                        + world.assembleBuiltin(calibration, plan.prefixTokens - instructed, seed)
  }

  lemma CalibrateDescribes(world: World, recipe: Recipe, source: Source, calibration: Calibration)
    ensures Describes(world, recipe, source, calibration, Calibrate(world, recipe.seed, recipe, source, calibration))
  {
    var seed := if recipe.prefixSeed.Some? then recipe.prefixSeed.value else recipe.seed;
    assert PrefixSeed(recipe, seed);
    assert PrefixOf(world, recipe, source, calibration, seed,
                    Calibrate(world, recipe.seed, recipe, source, calibration));
  }

  /** What a request gets: from a plan, as a literal, or generated for it alone. */
  ghost predicate Right(world: World, recipe: Recipe, environment: Environment, prompt: Prompt) {
    exists source, tokenizer ::
      && Reads(recipe, environment, source) && Tokenizes(environment, tokenizer)
      && RightFrom(world, recipe, source, tokenizer, prompt)
  }

  ghost predicate RightFrom(world: World, recipe: Recipe, source: Source, tokenizer: Tokenizer, prompt: Prompt) {
    var calibration := world.calibrateCorpus(tokenizer, source);
    match recipe.text
    case Some(text) =>
      && prompt.text == text && prompt.records == []
      && (!recipe.calibrated ==> prompt.tokens == world.encode(tokenizer, text))
      && (recipe.calibrated ==>
            var exact := world.rounded(|text| as real / calibration.charactersPerToken);
            prompt.tokens >= exact && (prompt.tokens == exact || prompt.tokens == 0))
    case None =>
      if recipe.calibrated && recipe.concatenates && recipe.repeats == 1 then
        exists plan :: Describes(world, recipe, source, calibration, plan) && prompt == world.render(plan, recipe.index)
      else
        prompt == world.generate(source, recipe, tokenizer, if recipe.calibrated then Some(calibration) else None)
  }

  lemma FreshIsRight(world: World, recipe: Recipe, environment: Environment)
    ensures Right(world, recipe, environment, FreshPrompt(world, recipe, environment))
  {
    hide Reads, Tokenizes, Describes, Calibrate, SourceOf, TokenizerOf;
    var source, tokenizer := SourceOf(recipe, environment), TokenizerOf(environment);
    ReadsExactly(recipe, environment, source);
    TokenizesExactly(environment, tokenizer);
    var calibration := world.calibrateCorpus(tokenizer, source);
    CalibrateDescribes(world, recipe, source, calibration);
    assert RightFrom(world, recipe, source, tokenizer, FreshPrompt(world, recipe, environment));
  }

  /** Worlds that differ only in corpora which the request does not read. */
  ghost predicate AgreeOn(world: World, other: World, source: Source) {
    && (forall tokenizer :: world.calibrateCorpus(tokenizer, source) == other.calibrateCorpus(tokenizer, source))
    && (forall characters, tokens, seed ::
          world.assembleExternal(source, characters, tokens, seed)
          == other.assembleExternal(source, characters, tokens, seed))
    && (forall recipe, tokenizer, calibration ::
          world.generate(source, recipe, tokenizer, calibration)
          == other.generate(source, recipe, tokenizer, calibration))
    && (source.Builtin? ==> world.assembleBuiltin == other.assembleBuiltin)
    && world.instruction == other.instruction && world.instructionTokens == other.instructionTokens
    && world.render == other.render && world.encode == other.encode && world.rounded == other.rounded
  }

  /** No other corpus has any effect on the prompt. */
  lemma OnlyOwnCorpusMatters(world: World, other: World, recipe: Recipe, environment: Environment, source: Source)
    requires Reads(recipe, environment, source) && AgreeOn(world, other, source)
    ensures FreshPrompt(world, recipe, environment) == FreshPrompt(other, recipe, environment)
  {
    hide Reads, TokenizerOf, SourceOf;
    ReadsExactly(recipe, environment, source);
  }

  // ------------------------------------------------ the caches

  datatype CalibrationKey = CalibrationKey(adapter: Option<string>, filename: string, datasetPath: Option<string>,
                                           tokenizerPath: string, tokenizerFast: string)

  function CalibrationKeyOf(recipe: Recipe, environment: Environment): CalibrationKey {
    CalibrationKey(recipe.adapter, recipe.filename, DatasetPath(recipe, environment), environment.tokenizerPath,
                   FastText(environment))
  }

  datatype PlanKey = PlanKey(document: Recipe, datasetPath: Option<string>, tokenizerPath: string,
                             tokenizerFast: string)

  /** The position in the stream is dropped, and a prefix seed stands in for the request seed. */
  function PlanKeyOf(recipe: Recipe, environment: Environment): PlanKey {
    var document := recipe.(index := 0, probeFamily := 0, probeOccurrence := 0);
    PlanKey(if recipe.prefixSeed.Some? then document.(seed := recipe.prefixSeed.value) else document,
            DatasetPath(recipe, environment), environment.tokenizerPath, FastText(environment))
  }

  datatype Cached<K, V> = Cached(key: K, value: V)

  function Keys<K, V>(entries: seq<Cached<K, V>>): seq<K> {
    seq(|entries|, i requires 0 <= i < |entries| => entries[i].key)
  }

  /** Every cached calibration is what measuring the corpus again would give, for any request with its key. */
  ghost predicate CalibrationsTrue(world: World, entries: seq<Cached<CalibrationKey, Calibration>>) {
    forall k, recipe, environment | 0 <= k < |entries| && CalibrationKeyOf(recipe, environment) == entries[k].key ::
      entries[k].value == FreshCalibration(world, recipe, environment)
  }

  /** Every cached plan, given the request's own seed, is the plan computed afresh for any request with its key. */
  ghost predicate PlansTrue(world: World, entries: seq<Cached<PlanKey, Plan>>) {
    forall k, recipe, environment | 0 <= k < |entries| && PlanKeyOf(recipe, environment) == entries[k].key ::
      entries[k].value.(seed := recipe.seed)
      == Calibrate(world, recipe.seed, recipe, SourceOf(recipe, environment),
                   FreshCalibration(world, recipe, environment))
  }

  function PrefixLengths(entries: seq<Cached<PlanKey, Plan>>): nat {
    if entries == [] then 0 else |entries[0].value.prefix| + PrefixLengths(entries[1..])
  }

  lemma {:induction false} PrefixLengthsAppend(a: seq<Cached<PlanKey, Plan>>, b: seq<Cached<PlanKey, Plan>>)
    ensures PrefixLengths(a + b) == PrefixLengths(a) + PrefixLengths(b)
    decreases |a|
  {
    if a == [] {
      assert a + b == b;
    } else {
      assert (a + b)[1..] == a[1..] + b;
      PrefixLengthsAppend(a[1..], b);
    }
  }

  /** Calibration reads the corpus only through the key, so equal keys mean equal calibrations. */
  lemma SameCalibration(world: World, recipe: Recipe, environment: Environment, other: Recipe,
                        otherEnvironment: Environment)
    requires CalibrationKeyOf(recipe, environment) == CalibrationKeyOf(other, otherEnvironment)
    ensures FreshCalibration(world, recipe, environment) == FreshCalibration(world, other, otherEnvironment)
  {
    hide Lower;
  }

  /**
    Two requests with one plan key differ at most in position and seed, and the seed only where a prefix
    seed fixes the prefix: their plans differ only in the seed field.
   */
  lemma SamePlan(world: World, recipe: Recipe, environment: Environment, other: Recipe, otherEnvironment: Environment)
    requires PlanKeyOf(recipe, environment) == PlanKeyOf(other, otherEnvironment)
    ensures Calibrate(world, recipe.seed, recipe, SourceOf(recipe, environment),
                      FreshCalibration(world, recipe, environment)).(seed := other.seed)
         == Calibrate(world, other.seed, other, SourceOf(other, otherEnvironment),
                      FreshCalibration(world, other, otherEnvironment))
  {
    hide Lower;
    assert recipe.prefixSeed == other.prefixSeed;
  }

  /** Two requests share a plan exactly if they differ at most in position and, with a prefix seed, in seed. */
  lemma PlanSharedExactly(recipe: Recipe, environment: Environment, other: Recipe, otherEnvironment: Environment)
    ensures PlanKeyOf(recipe, environment) == PlanKeyOf(other, otherEnvironment) <==>
              && other == recipe.(index := other.index, probeFamily := other.probeFamily,
                                  probeOccurrence := other.probeOccurrence, seed := other.seed)
              && (other.seed == recipe.seed || recipe.prefixSeed.Some?)
              && DatasetPath(recipe, environment) == DatasetPath(other, otherEnvironment)
              && environment.tokenizerPath == otherEnvironment.tokenizerPath
              && FastText(environment) == FastText(otherEnvironment)
  {
  }

  const MAX_CALIBRATIONS := 4
  const MAX_PLANS := 128
  const MAX_PREFIX_BYTES := 67108864

  /** The entries with other keys, in their order. */
  function Others<K(==), V>(entries: seq<Cached<K, V>>, key: K): seq<Cached<K, V>> {
    if entries == [] then []
    else (if entries[0].key == key then [] else [entries[0]]) + Others(entries[1..], key)
  }

  /** With distinct keys, taking one entry out leaves exactly the others. */
  lemma {:induction false} OthersAt<K, V>(entries: seq<Cached<K, V>>, key: K, k: nat)
    requires Distinct(Keys(entries)) && k <= |entries|
    requires if k < |entries| then entries[k].key == key else forall j | 0 <= j < |entries| :: entries[j].key != key
    ensures Others(entries, key) == if k < |entries| then entries[..k] + entries[k + 1..] else entries
  {
    KeysDistinct(entries);
    if entries != [] {
      KeysDistinct(entries[1..]);
      if k == 0 {
        assert forall j | 0 <= j < |entries| - 1 :: entries[1..][j].key == entries[j + 1].key;
        OthersAt(entries[1..], key, |entries| - 1);
      } else {
        OthersAt(entries[1..], key, k - 1);
      }
    }
  }

  /** The most recent entries, as many as the bound allows. */
  function Latest<T>(entries: seq<T>, bound: nat): seq<T> {
    if |entries| > bound then entries[|entries| - bound..] else entries
  }

  predicate OverBounds(entries: seq<Cached<PlanKey, Plan>>) {
    |entries| > 128 || 4 * PrefixLengths(entries) > 64 * 1024 * 1024
  }

  /** The first so many plans have left, each because those up to it were too many or too large. */
  ghost predicate EvictedOldest(before: seq<Cached<PlanKey, Plan>>, after: seq<Cached<PlanKey, Plan>>, gone: nat) {
    gone < |before| && after == before[gone..] && forall k | 0 <= k < gone :: OverBounds(before[k..])
  }

  class WorkerInputPreparer {
    ghost const world: World
    var plans: seq<Cached<PlanKey, Plan>>
    var prefixBytes: nat
    var calibrations: seq<Cached<CalibrationKey, Calibration>>

    ghost predicate Valid()
      reads this
    {
      && CalibrationsTrue(world, calibrations) && PlansTrue(world, plans)
      && Distinct(Keys(calibrations)) && Distinct(Keys(plans))
      && prefixBytes == 4 * PrefixLengths(plans)
      && |calibrations| <= MAX_CALIBRATIONS && |plans| <= MAX_PLANS
      && (prefixBytes <= MAX_PREFIX_BYTES || |plans| == 1)
    }

    constructor (ghost world: World)
      ensures Valid() && this.world == world && plans == [] && calibrations == []
    {
      this.world := world;
      plans, prefixBytes, calibrations := [], 0, [];
    }

    /** The calibration for a request, most recently used last, at most four kept. */
    method CorpusCalibration(world: World, recipe: Recipe, environment: Environment) returns (calibration: Calibration)
      requires Valid() && world == this.world
      modifies this`calibrations
      ensures Valid() && calibration == FreshCalibration(world, recipe, environment)
      ensures var key := CalibrationKeyOf(recipe, environment);
        calibrations == Latest(Others(old(calibrations), key) + [Cached(key, calibration)], 4)
    {
      hide PlansTrue, FreshCalibration, Keys, Others;
      var key := CalibrationKeyOf(recipe, environment);
      var found := 0;
      while found < |calibrations| && calibrations[found].key != key
        invariant found <= |calibrations|
        invariant forall k | 0 <= k < found :: calibrations[k].key != key
      {
        found := found + 1;
      }
      OthersAt(calibrations, key, found);
      if found < |calibrations| {
        calibration := calibrations[found].value;
        MoveKeepsDistinct(calibrations, found);
        calibrations := calibrations[..found] + calibrations[found + 1..] + [calibrations[found]];
      } else {
        calibration := FreshCalibration(world, recipe, environment);
        NewKeyDistinct(calibrations, Cached(key, calibration));
        forall other, otherEnvironment | CalibrationKeyOf(other, otherEnvironment) == key
          ensures calibration == FreshCalibration(world, other, otherEnvironment)
        {
          SameCalibration(world, recipe, environment, other, otherEnvironment);
        }
        calibrations := calibrations + [Cached(key, calibration)];
        if |calibrations| > MAX_CALIBRATIONS {
          DropKeepsDistinct(calibrations);
          calibrations := calibrations[1..];
        }
      }
    }

    /** Plans beyond either bound leave oldest first; the newest always stays. */
    method EvictPlans()
      requires plans != [] && PlansTrue(world, plans) && Distinct(Keys(plans))
               && prefixBytes == 4 * PrefixLengths(plans)
      modifies this`plans, this`prefixBytes
      ensures plans != [] && PlansTrue(world, plans) && Distinct(Keys(plans)) && prefixBytes == 4 * PrefixLengths(plans)
      ensures |plans| <= 128 && (prefixBytes <= 64 * 1024 * 1024 || |plans| == 1)
      ensures plans[|plans| - 1] == old(plans)[|old(plans)| - 1]
      ensures exists gone :: EvictedOldest(old(plans), plans, gone)
    {
      hide PlansTrue, Keys;
      ghost var gone := 0;
      while |plans| > 1 && (|plans| > MAX_PLANS || prefixBytes > MAX_PREFIX_BYTES)
        invariant plans != [] && PlansTrue(world, plans) && Distinct(Keys(plans))
                  && prefixBytes == 4 * PrefixLengths(plans)
        invariant plans[|plans| - 1] == old(plans)[|old(plans)| - 1]
        invariant EvictedOldest(old(plans), plans, gone)
        decreases |plans|
      {
        DroppedPlan(world, plans);
        gone := gone + 1;
        prefixBytes := prefixBytes - 4 * |plans[0].value.prefix|;
        plans := plans[1..];
      }
    }

    /** The plan for a request, computed on a miss; it is last in the cache afterwards. */
    method CachedPlan(world: World, recipe: Recipe, environment: Environment, calibration: Calibration)
      returns (plan: Plan)
      requires Valid() && world == this.world && calibration == FreshCalibration(world, recipe, environment)
      modifies this`plans, this`prefixBytes
      ensures Valid() && plan.(seed := recipe.seed)
              == Calibrate(world, recipe.seed, recipe, SourceOf(recipe, environment), calibration)
      ensures plans != [] && plans[|plans| - 1] == Cached(PlanKeyOf(recipe, environment), plan)
      ensures var key := PlanKeyOf(recipe, environment);
        exists gone :: EvictedOldest(Others(old(plans), key) + [Cached(key, plan)], plans, gone)
    {
      hide PlansTrue, CalibrationsTrue, Keys, Calibrate, FreshCalibration, Others;
      var key := PlanKeyOf(recipe, environment);
      var found := 0;
      while found < |plans| && plans[found].key != key
        invariant found <= |plans|
        invariant forall k | 0 <= k < found :: plans[k].key != key
      {
        found := found + 1;
      }
      OthersAt(plans, key, found);
      if found < |plans| {
        MovedPlans(world, plans, found);
        PlanIsFresh(world, plans, found, recipe, environment);
        plan := plans[found].value;
        plans := plans[..found] + plans[found + 1..] + [plans[found]];
        assert EvictedOldest(Others(old(plans), key) + [Cached(key, plan)], plans, 0);
      } else {
        plan := Calibrate(world, recipe.seed, recipe, SourceOf(recipe, environment), calibration);
        NewPlanTrue(world, plans, recipe, environment, plan);
        NewKeyDistinct(plans, Cached(key, plan));
        PrefixLengthsAppend(plans, [Cached(key, plan)]);
        assert plan.(seed := recipe.seed) == plan by {
          CalibrateKeepsSeed(world, recipe, SourceOf(recipe, environment), calibration);
        }
        plans := plans + [Cached(key, plan)];
        prefixBytes := prefixBytes + 4 * |plan.prefix|;
        EvictPlans();
      }
    }

    /**
      After any history of calls, the prompt is the one that preparation without caches would give, and
      both caches are within their bounds.
     */
    method Prepare(world: World, recipe: Recipe, environment: Environment) returns (prompt: Outcome<Prompt>)
      requires Valid() && world == this.world
      modifies this
      ensures Valid()
      ensures prompt.Rejected? <==> MissingCorpus(recipe, environment)
      ensures prompt.Accepted? ==> prompt.value == FreshPrompt(world, recipe, environment)
      ensures prompt.Accepted? ==> Right(world, recipe, environment, prompt.value)
      ensures prompt.Rejected? <==>
                && recipe.adapter.Some? && recipe.adapter != Some("")
                && forall path :: !Located(recipe, environment, path)
    {
      hide PlansTrue, CalibrationsTrue, Keys, Calibrate, FreshCalibration, Right;
      FreshIsRight(world, recipe, environment);
      LocatedExactly(recipe, environment);
      if MissingCorpus(recipe, environment) {
        return Rejected;
      }
      if !recipe.calibrated {
        return Accepted(Otherwise(world, recipe, environment, None));
      }
      var calibration := CorpusCalibration(world, recipe, environment);
      if UsesPlan(recipe) {
        var plan := CachedPlan(world, recipe, environment, calibration);
        return Accepted(world.render(plan.(seed := recipe.seed), recipe.index));
      }
      return Accepted(Otherwise(world, recipe, environment, Some(calibration)));
    }
  }

  lemma CalibrateKeepsSeed(world: World, recipe: Recipe, source: Source, calibration: Calibration)
    ensures Calibrate(world, recipe.seed, recipe, source, calibration).seed == recipe.seed
  {
  }

  lemma PlanIsFresh(world: World, plans: seq<Cached<PlanKey, Plan>>, k: nat, recipe: Recipe, environment: Environment)
    requires PlansTrue(world, plans) && k < |plans| && plans[k].key == PlanKeyOf(recipe, environment)
    ensures plans[k].value.(seed := recipe.seed)
         == Calibrate(world, recipe.seed, recipe, SourceOf(recipe, environment),
                      FreshCalibration(world, recipe, environment))
  {
  }

  lemma NewPlanTrue(world: World, plans: seq<Cached<PlanKey, Plan>>, recipe: Recipe, environment: Environment,
                    plan: Plan)
    requires PlansTrue(world, plans)
    requires plan == Calibrate(world, recipe.seed, recipe, SourceOf(recipe, environment),
                               FreshCalibration(world, recipe, environment))
    ensures PlansTrue(world, plans + [Cached(PlanKeyOf(recipe, environment), plan)])
  {
    hide Calibrate, FreshCalibration;
    var added := plans + [Cached(PlanKeyOf(recipe, environment), plan)];
    forall k, other, otherEnvironment | 0 <= k < |added| && PlanKeyOf(other, otherEnvironment) == added[k].key
      ensures added[k].value.(seed := other.seed)
           == Calibrate(world, other.seed, other, SourceOf(other, otherEnvironment),
                        FreshCalibration(world, other, otherEnvironment))
    {
      if k == |plans| {
        SamePlan(world, recipe, environment, other, otherEnvironment);
      } else {
        PlanIsFresh(world, plans, k, other, otherEnvironment);
      }
    }
  }

  lemma FewerPlansTrue(world: World, plans: seq<Cached<PlanKey, Plan>>, fewer: seq<Cached<PlanKey, Plan>>)
    requires PlansTrue(world, plans)
    requires forall entry | entry in fewer :: entry in plans
    ensures PlansTrue(world, fewer)
  {
    hide Calibrate, FreshCalibration, PlanKeyOf, SourceOf;
    forall k, recipe, environment | 0 <= k < |fewer| && PlanKeyOf(recipe, environment) == fewer[k].key
      ensures fewer[k].value.(seed := recipe.seed)
           == Calibrate(world, recipe.seed, recipe, SourceOf(recipe, environment),
                        FreshCalibration(world, recipe, environment))
    {
      assert fewer[k] in plans;
      var j :| 0 <= j < |plans| && plans[j] == fewer[k];
      assert PlanKeyOf(recipe, environment) == plans[j].key;
    }
  }

  /** Moving one entry to the end changes neither the truth of the cache nor its size. */
  lemma MovedPlans(world: World, plans: seq<Cached<PlanKey, Plan>>, k: nat)
    requires PlansTrue(world, plans) && Distinct(Keys(plans)) && k < |plans|
    ensures var moved := plans[..k] + plans[k + 1..] + [plans[k]];
      PlansTrue(world, moved) && Distinct(Keys(moved)) && PrefixLengths(moved) == PrefixLengths(plans)
      && |moved| == |plans|
  {
    hide PlansTrue, Keys;
    MoveKeepsDistinct(plans, k);
    var moved := plans[..k] + plans[k + 1..] + [plans[k]];
    assert plans == plans[..k] + ([plans[k]] + plans[k + 1..]) && moved == plans[..k] + (plans[k + 1..] + [plans[k]]);
    PrefixLengthsAppend(plans[..k], [plans[k]] + plans[k + 1..]);
    PrefixLengthsAppend([plans[k]], plans[k + 1..]);
    PrefixLengthsAppend(plans[..k], plans[k + 1..] + [plans[k]]);
    PrefixLengthsAppend(plans[k + 1..], [plans[k]]);
    FewerPlansTrue(world, plans, moved);
  }

  lemma DroppedPlan(world: World, plans: seq<Cached<PlanKey, Plan>>)
    requires PlansTrue(world, plans) && Distinct(Keys(plans)) && plans != []
    ensures PlansTrue(world, plans[1..]) && Distinct(Keys(plans[1..]))
    ensures PrefixLengths(plans[1..]) + |plans[0].value.prefix| == PrefixLengths(plans)
  {
    hide PlansTrue, Keys;
    DropKeepsDistinct(plans);
    FewerPlansTrue(world, plans, plans[1..]);
  }

  lemma KeysDistinct<K, V>(entries: seq<Cached<K, V>>)
    ensures Distinct(Keys(entries)) <==> forall i, j | 0 <= i < j < |entries| :: entries[i].key != entries[j].key
  {
    if Distinct(Keys(entries)) {
      forall i, j | 0 <= i < j < |entries| ensures entries[i].key != entries[j].key {
        assert Keys(entries)[i] != Keys(entries)[j];
      }
    }
  }

  lemma MoveKeepsDistinct<K, V>(entries: seq<Cached<K, V>>, k: nat)
    requires k < |entries| && Distinct(Keys(entries))
    ensures Distinct(Keys(entries[..k] + entries[k + 1..] + [entries[k]]))
  {
    KeysDistinct(entries);
    KeysDistinct(entries[..k] + entries[k + 1..] + [entries[k]]);
  }

  lemma NewKeyDistinct<K, V>(entries: seq<Cached<K, V>>, entry: Cached<K, V>)
    requires Distinct(Keys(entries)) && forall k | 0 <= k < |entries| :: entries[k].key != entry.key
    ensures Distinct(Keys(entries + [entry]))
  {
    KeysDistinct(entries);
    KeysDistinct(entries + [entry]);
  }

  lemma DropKeepsDistinct<K, V>(entries: seq<Cached<K, V>>)
    requires Distinct(Keys(entries)) && entries != []
    ensures Distinct(Keys(entries[1..]))
  {
    KeysDistinct(entries);
    KeysDistinct(entries[1..]);
  }
}
