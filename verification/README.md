# Verified model of the LLM benchmark orchestrator

This Dafny project models the parts of the orchestrator in which ordering, concurrency and
resource limits interact, and proves what they promise. Where the source is a pure recursion the
model is a function; where the source changes fields or loops, the model is a class or a method that is
proved equal to a specification function, and the properties are proved about that function over all
inputs, all runs or all reachable states. `dafny verify dfyconfig.toml` checks everything.

## What is modelled

**Task graphs.** A workflow is a tree of invocations, runs, repeats, parallel branches or copies,
sequences and bounded loops. `TaskNodes` holds the language (dimension references, loop binding, lane
slicing), `Expansion` the lowering to rows that threads a frontier, `TaskCompiler` the builder object
and the row checks. `Composition` states, without any helper of the compiler, what each kind of node expands
to: how many parts, under which names, after which delays; `LoopBinding` proves that binding a loop variable is
the same as making it a dimension. `Dependencies` and `Frontiers` give the induction behind everything else: each row
an expansion adds waits for the whole incoming frontier, and everything added or incoming lies at or
below the outgoing one, also when a repeat has count zero. `PeakOverlap` bounds antichains by the structural
overlap estimate, `ExactEstimate` and `TaskCompiler` say exactly when it is reached, and `LaneOverlap` bounds
the members of a loop in progress. `PlannedSpan` and `WorkflowRuns` relate the planned duration to dependency
chains and to every run that readiness drives, `StructuralSpan` computes it from the tree alone, and
`LostDelay` says exactly which nodes drop a delay. `SeedPool` is the generated pool of distinct seeds.

**The Runner loop.** `RunnerLoop` is one turn of the progression loop: deliver, scan, rearm, decide.
`RunnerAccounting` proves what each turn keeps, `RunnerRuns` what holds of whole runs, `RunnerTiming` when
steps are submitted and what may hold them back, `RunnerRuntime` is the object whose methods refine the turn.

**Permits.** `PermitProtocol` is a state machine over the three levels of permits: Runner admission,
runtime gates from child to parent, global capacity. One step is the code between two awaits, so runs
cover every interleaving of submits, finishes, rejections and cancellations. `RuntimeTree` derives the order of
a Runner's gates from the tree of runtimes; `PermitProgress` uses it to exclude deadlock. `PermitSteps` and
`PermitCancellation` say what registration, admission, reservation and cancellation amount to.

**Mailboxes.** `Mailbox` is one consumer's bounded buffer over the durable store, with
store reads and receipts as separate steps; `MailboxDrain` measures the work left; `MessageBus` is the
object with one subscription per consumer and destination. The store is a contract: it answers
unacknowledged messages, at least one if there is any.

**Queues.** `RouterProtocol`, `RouterFairness` and `RequestRouter` are the request pool; `Rounds`,
`RoundBarrier` and `ReadyQueue` the round barrier and the coordinator's ready queue; `ProbeQueue` the queue
that releases one request of a family at a time. `FairQueues` holds what the two fair queues share.

**Lazy forms and closed forms.** `SparseShuffle`, `PlanCache` and `PreparedStream` equal simpler
computations; `TokenBudget` and `Recurrence` equal enumerations.

## Readings of the source

Time, delays and characters per token are exact numbers. Hashes, tokenizers, corpora and random draws are arbitrary
functions. Every compiler failure is a `ValueError`, so a failure is `Rejected` without its text. Five places
where the obvious claim fails, each with an input and the exact condition:

- The overlap estimate is not always the weight of some set of unrelated rows (`LooseEstimate`). It is, for
  every weighting, exactly when no dependency relates rows of different parts of one parallel composite
  (`TaskCompiler.EstimateExactIffIndependent`); dependencies between serial steps do no harm.
- Declared delays are not conserved (`LostDelay.DeclaredDelayIsLost`). A node ignores the delay it inherits
  exactly when it is a serial node whose first part is missing or ignores it, or a parallel one whose parts all
  do (`LostDelay.LostExactlyWhenDropped`).
- The turn that learns of a failure need not cancel all steps that depend on it
  (`RunnerRuns.CooldownDelaysCancellation`). In all runs it does exactly when the Runner has no cooldown
  (`RunnerRuns.PromptExactlyWithoutCooldown`); once the Runner finishes the outcome is the same.
- An acknowledged message can be buffered again (`Mailbox.LateDeliveryResurrects`). In a reachable state the
  next event does that exactly when it is the message's own late delivery and there is room
  (`Mailbox.OnlyLateDeliveryResurrects`).
- The token budget of a Runner does not include the opening messages it may be given, and is exact if and
  only if these carry no tokens (`TokenBudget.BudgetExactWithoutOpening`).

## Model

| member | source | states |
|---|---|---|
| TaskNodes.Bind | src/llmperf_backend/compiler/tasks.py:935-952 | Binding a loop value keeps the shape of a node: its height, well-formedness and freedom from own dependencies; reusing the variable inside is refused |
| LoopBinding.BindingIsADimension | src/llmperf_backend/compiler/tasks.py:935-952 | Substitution means evaluation: a node with the loop variable bound expands, or is refused, exactly as the node itself with that dimension set, nested loops included |
| LoopBinding.RefusedExactlyShadowed | src/llmperf_backend/compiler/tasks.py:935-952 | Binding is refused exactly when some loop inside uses the same variable |
| LoopBinding.BindCommutes | src/llmperf_backend/compiler/tasks.py:935-952 | Two variables can be bound in either order, with the same node or the same refusal |
| Composition.LeafMeans | src/llmperf_backend/compiler/tasks.py:583-640 | An accepted leaf adds one row: dotted name, the whole frontier and its own references as dependencies without repeats, inherited plus own delay, reused steps in order |
| Composition.LeafAccepted | src/llmperf_backend/compiler/tasks.py:1057-1058 | A leaf is accepted whenever such a row has a new name of up to 120 characters and fewer than ten thousand rows exist |
| Composition.RepeatMeans | src/llmperf_backend/compiler/tasks.py:797-824 | An accepted repeat is its body up to a hundred times in turn under numbered paths, every iteration after the interval, the first also after what is inherited |
| Composition.RepeatAccepted | src/llmperf_backend/compiler/tasks.py:797-824 | And every such chain of expansions is accepted |
| Composition.SequenceMeans | src/llmperf_backend/compiler/tasks.py:912-932 | An accepted sequence is its steps in turn, only the first delayed, by the own and the inherited delay |
| Composition.SequenceAccepted | src/llmperf_backend/compiler/tasks.py:912-932 | And every such chain is accepted |
| Composition.ParallelMeans | src/llmperf_backend/compiler/tasks.py:855-893 | Accepted branches, or one to ten thousand numbered copies, all start from the incoming frontier after own and inherited delay and join their frontiers in order |
| Composition.ParallelAccepted | src/llmperf_backend/compiler/tasks.py:855-893 | And every such arrangement is accepted |
| Composition.ForEachMeans | src/llmperf_backend/compiler/tasks.py:999-1044 | An accepted loop is as many lanes as parallelism and values allow side by side; each lane is the body for its slice of values in turn, the value a dimension, under lane and member paths |
| Composition.ForEachAccepted | src/llmperf_backend/compiler/tasks.py:999-1044 | And every such arrangement is accepted when no inner loop reuses the variable |
| Composition.RepeatedLeafRows | src/llmperf_backend/compiler/tasks.py:809-817 | Row i of a repeated leaf starts after the interval plus the leaf's delay, row 0 also after what is inherited |
| Composition.SequencedLeafRows | src/llmperf_backend/compiler/tasks.py:920-929 | Row i of a sequence of leaves starts after its own delay, row 0 also after the sequence's and what is inherited |
| Composition.JoinedSplits | src/llmperf_backend/compiler/tasks.py:645-646 | A qualified name is its path's components and the name with dots between |
| Composition.DigitsDenote | src/llmperf_backend/compiler/tasks.py:818-823 | The numbers in paths are decimal without leading zeros, or padded to two digits |
| TaskNodes.LaneSlices | src/llmperf_backend/compiler/tasks.py:999-1026 | The lane slices concatenate to exactly the loop's values, none is empty, sizes differ by at most one and the larger come first |
| TaskNodes.BindMembers | src/llmperf_backend/compiler/tasks.py:1013-1025 | One serial member per value of the slice, each well formed and no higher than the body allows |
| TaskNodes.Parts | src/llmperf_backend/compiler/tasks.py:797-932 | What a composite node expands in order: every part is smaller, well formed and free when the node is, and a parallel node never has none |
| Expansion.ExpandLeafUnfolds | src/llmperf_backend/compiler/tasks.py:592-640 | A leaf adds one new row that waits for its whole incoming frontier, and for nothing else if it declares no dependency |
| Expansion.ExpandNonNegative | src/llmperf_backend/compiler/tasks.py:694-932 | No accepted expansion produces a negative delay |
| Dependencies.AncestorsAreDependencies | src/llmperf_backend/compiler/tasks.py:1106-1113 | The ancestor sets accumulated row by row are exactly the transitive dependencies |
| Dependencies.AncestorsTransitive | src/llmperf_backend/compiler/tasks.py:1106-1113 | Accumulated ancestor sets are closed under ancestors |
| Frontiers.ExpandGrew | src/llmperf_backend/compiler/tasks.py:694-932 | Every accepted expansion: new rows wait for all of the incoming frontier, and new rows and the incoming frontier lie at or below the outgoing one |
| Frontiers.SerialGrew | src/llmperf_backend/compiler/tasks.py:797-824 | The frontier property composes serially, including parts that add nothing |
| Frontiers.ParallelGrew | src/llmperf_backend/compiler/tasks.py:872-893 | The frontier property composes side by side with the joined frontier |
| Frontiers.SerialOrdered | src/llmperf_backend/compiler/tasks.py:912-932 | Everything a later serial part adds waits for everything the earlier parts added |
| PeakOverlap.PeakBounds | src/llmperf_backend/compiler/tasks.py:1391-1429 | No antichain of what a node expands to weighs more than its structural peak |
| ExactEstimate.PeakReached | src/llmperf_backend/compiler/tasks.py:1391-1429 | When no dependency relates what different parts of a parallel composite inside the node add, some antichain of the added rows weighs exactly the node's peak |
| ExactEstimate.BesideCounted | src/llmperf_backend/compiler/tasks.py:1391-1429 | The peak counts both rows of every pair that different parts of a parallel composite add, related or not |
| ExactEstimate.BesideIsAdded | src/llmperf_backend/compiler/tasks.py:797-932 | Such pairs consist of rows that the node itself adds |
| TaskCompiler.GraphBuilder.Expand | src/llmperf_backend/compiler/tasks.py:583-640 | The builder that appends rows to its list computes the recursive expansion, and refuses exactly when that does |
| TaskCompiler.GraphBuilder.ExpandInTurn | src/llmperf_backend/compiler/tasks.py:912-932 | The loop over serial parts threads the frontier as the specification does |
| TaskCompiler.GraphBuilder.ExpandSideBySide | src/llmperf_backend/compiler/tasks.py:872-893 | The loop over parallel parts joins the frontiers as the specification does |
| TaskCompiler.CheckRows | src/llmperf_backend/compiler/tasks.py:1096-1122 | Rows are accepted exactly when every dependency is an earlier row and every reused source is an atomic transitive dependency |
| TaskCompiler.CompileGraph | src/llmperf_backend/compiler/tasks.py:1089-1122 | Compiling a graph gives the specified rows, or refuses exactly when the specification does |
| TaskCompiler.CompilesExactly | src/llmperf_backend/compiler/tasks.py:1096-1122 | A graph compiles to the rows it expands to exactly when dependencies are earlier rows and each reused source is an earlier atomic row reached by a chain of dependencies |
| TaskCompiler.PeakIsSound | src/llmperf_backend/compiler/tasks.py:1391-1429 | For every accepted graph, weights and set of rows pairwise unrelated by transitive dependency, the total weight is within the estimate |
| TaskCompiler.PeakIsReached | src/llmperf_backend/compiler/tasks.py:1391-1429 | When no dependency relates different parts of a parallel composite, some unrelated set of compiled rows weighs exactly the estimate |
| TaskCompiler.EstimateExactIffIndependent | src/llmperf_backend/compiler/tasks.py:1391-1429 | For every accepted graph: every weighting is reached by some unrelated set if and only if no dependency relates different parts of a parallel composite |
| TaskCompiler.FreeIsIndependent | src/llmperf_backend/compiler/tasks.py:797-932 | Without own dependencies of its leaves an accepted graph meets that condition |
| TaskCompiler.PeakIsMaximum | src/llmperf_backend/compiler/tasks.py:1391-1429 | Under the same condition the estimate is the least bound on the weight of unrelated sets |
| LooseEstimate.PeakCanBeLoose | src/llmperf_backend/compiler/tasks.py:1391-1429 | A graph with one dependency between branches whose estimate is twice its heaviest antichain |
| LaneOverlap.ForEachOverlap | src/llmperf_backend/compiler/tasks.py:1028-1044 | What a loop adds splits into one piece per value, piece i being exactly what the member bound to value i adds in its lane, and no unrelated set touches more pieces than there are lanes |
| SeedPool.Values | src/llmperf_backend/compiler/tasks.py:92-105 | The pool has the requested number of distinct seeds in range, each the first free value from its digest on; the search always ends |
| SeedPool.PoolsAgree | src/llmperf_backend/compiler/tasks.py:92-105 | A longer pool starts with the shorter one |
| PlannedSpan.PlannedSpan | src/llmperf_backend/compiler/tasks.py:1154-1162 | The span is the delay of the heaviest dependency chain: it bounds every chain and some chain reaches it |
| PlannedSpan.ChainWithinOffset | src/llmperf_backend/compiler/tasks.py:1154-1162 | No chain that ends at a row is heavier than the row's offset |
| PlannedSpan.OffsetHasChain | src/llmperf_backend/compiler/tasks.py:1154-1162 | Some chain that ends at a row weighs exactly its offset |
| StructuralSpan.ExpandLasts | src/llmperf_backend/compiler/tasks.py:797-932 | Without own dependencies, a node moves the latest offset of the frontier by exactly its structural duration: serial parts add up, the slowest parallel part counts, an empty part drops the delay passed to it |
| StructuralSpan.SpanIsStructural | src/llmperf_backend/compiler/tasks.py:1154-1162 | The planned span of such a graph, its heaviest dependency chain, is the structural duration of its roots |
| LostDelay.LostExactlyWhenDropped | src/llmperf_backend/compiler/tasks.py:797-932 | An accepted node expands to the same rows for two different inherited delays exactly when it drops them: a serial node with no first part or one that drops, a parallel node whose parts all drop |
| LostDelay.DurationIgnoresExactlyDropped | src/llmperf_backend/compiler/tasks.py:797-932 | The structural duration of an accepted node ignores the inherited delay under exactly the same condition |
| LostDelay.DeclaredDelayIsLost | src/llmperf_backend/compiler/tasks.py:912-932 | A compiled graph whose sequence declares five seconds, has a first step that repeats zero times, and starts at once |
| Triggers.LatestBounds | src/llmperf_backend/runtime/triggers.py:71-91 | The instant a dependency trigger counts from is the maximum of its completions |
| Triggers.TriggerExactly | src/llmperf_backend/runtime/triggers.py:71-91 | Blocked exactly by a failed dependency; ready exactly when the delay has passed since every dependency succeeded, or since the creation if there is none |
| WorkflowRuns.ReadyNodes | src/llmperf_backend/runtime/coordinator.py:53-71 | Exactly the pending or blocked nodes whose delay has passed since each dependency succeeded, each with its due instant |
| WorkflowRuns.CompletionsFollowOffsets | src/llmperf_backend/runtime/coordinator.py:53-71 | In every run no node completes before creation plus its planned offset, and exactly then if every node completes when due |
| WorkflowRuns.RunLastsTheSpan | src/llmperf_backend/compiler/tasks.py:1154-1162 | A run of the whole graph lasts at least the planned span, and a punctual one exactly that |
| WorkflowRuns.PunctualRunExists | src/llmperf_backend/compiler/tasks.py:1154-1162 | Every compiled graph has a run in which each node completes exactly at its planned offset, so the span is attained |
| RunnerLoop.AcceptSteps | src/llmperf_backend/runtime/runner.py:161-179 | A workflow is accepted exactly when identifiers are unique and not empty, delays not negative, dependencies earlier steps and sources direct dependencies |
| RunnerAccounting.DeliverAllKeeps | src/llmperf_backend/runtime/runner.py:339-393 | Delivering any messages keeps the split of the steps, the window and the cause of every cancellation |
| RunnerAccounting.ScanKeeps | src/llmperf_backend/runtime/runner.py:424-493 | So does a whole scan of the waiting steps, over every branch of the visit |
| RunnerAccounting.NeverUnresolved | src/llmperf_backend/runtime/runner.py:511-531 | From every accounted state, no turn raises the unresolved-dependency error |
| RunnerRuns.RunAccounted | src/llmperf_backend/runtime/runner.py:320-531 | In every run pending, outstanding, completed and cancelled steps split the workflow, the window holds, each step is submitted once and after its dependencies succeeded, and the error branches are unreachable |
| RunnerRuns.CancelledExactlyDoomed | src/llmperf_backend/runtime/runner.py:434-446 | In a swept state the cancelled steps are exactly those with a failed ancestor |
| RunnerRuns.FinishedOutcome | src/llmperf_backend/runtime/runner.py:514-520 | A Runner that finishes has cancelled exactly the steps with a failed ancestor and holds results for exactly the others |
| RunnerRuns.OnePassCancels | src/llmperf_backend/runtime/runner.py:424-455 | One turn cancels all transitive dependents of a failure, unless a serial Runner ends the turn holding back |
| RunnerRuns.PromptExactlyWithoutCooldown | src/llmperf_backend/runtime/runner.py:424-455 | In all runs of all workflows the cancelled steps are after every turn exactly those with a failed ancestor, if and only if the Runner has no cooldown |
| RunnerRuns.CooldownDelaysCancellation | src/llmperf_backend/runtime/runner.py:425-433 | With any cooldown, a run of two turns after which a step with a failed dependency still waits |
| RunnerRuns.RepeatedDeliveryIsHarmless | src/llmperf_backend/runtime/runner.py:339-414 | A run is unchanged by removing every repeated delivery of a message |
| RunnerRuns.CooldownSpacing | src/llmperf_backend/runtime/runner.py:425-433 | A serial Runner submits at most one step a turn, with nothing outstanding and its cooldown over |
| RunnerTiming.EverySubmissionWasDue | src/llmperf_backend/runtime/runner.py:184-203 | In every run a step is submitted only in a turn in which its own instant and its delay since the creation, or since every dependency succeeded, have passed |
| RunnerTiming.DueIsSubmitted | src/llmperf_backend/runtime/runner.py:451-485 | At the end of every turn of every run a due step has been submitted unless the deadline, a pending submission, the window or the cooldown holds it back |
| RunnerTiming.FirstDueGoesFirst | src/llmperf_backend/runtime/runner.py:424-485 | With room, a turn submits the first waiting step in order that is due |
| RunnerTiming.TimerCovers | src/llmperf_backend/runtime/runner.py:486-511 | A step for which only time is missing is woken up for no later than it is due |
| RunnerTiming.TimerCoversCooldown | src/llmperf_backend/runtime/runner.py:428-433 | A serial Runner that only waits for its cooldown is woken up by its end |
| RunnerTiming.TimerJustified | src/llmperf_backend/runtime/runner.py:494-511 | A timer is set only for a step's first due instant, the end of the cooldown, or was set before and has not fired |
| RunnerTiming.CooldownObserved | src/llmperf_backend/runtime/runner.py:351-357 | In every run a serial Runner submits only after the previous step completed and the cooldown since has passed |
| RunnerTiming.VerdictExactly | src/llmperf_backend/runtime/runner.py:514-531 | A Runner finishes exactly when nothing is left, times out exactly when something is left at its deadline, and otherwise goes on |
| RunnerTiming.RefusedExactlyUnknown | src/llmperf_backend/runtime/runner.py:347-375 | Messages are refused exactly when one is about a step the Runner does not have |
| RunnerTiming.FirstCompletionCounts | src/llmperf_backend/runtime/runner.py:358-371 | The first completion delivered for a step is its result for good |
| RunnerTiming.CancellationNoted | src/llmperf_backend/runtime/runner.py:372-393 | A noted cancellation takes the step out of those waiting and keeps a reason recorded before |
| RunnerTiming.VisitCancels | src/llmperf_backend/runtime/runner.py:434-449 | A cancelled step records exactly its dependencies that had failed or been cancelled |
| RunnerRuntime.Runner.DeliverMessages | src/llmperf_backend/runtime/runner.py:339-393 | The delivery loop over the Runner's fields is the specified delivery |
| RunnerRuntime.Runner.ScanPending | src/llmperf_backend/runtime/runner.py:422-493 | The scan loop, with its early exits, is the specified scan of the steps that waited at its start |
| RunnerRuntime.Runner.TakeTurn | src/llmperf_backend/runtime/runner.py:339-531 | One pass of the loop is the specified turn and verdict |
| RunnerRuntime.Runner.Execute | src/llmperf_backend/runtime/runner.py:320-531 | The whole loop is the specified run, ends accounted for and never in an error branch |
| RuntimeTree.RuntimeLimits | src/llmperf_backend/storage/repository.py:947-967 | Walking the parents gives the limited runtimes from child to root, and refuses exactly when the chain of parents leads to a missing runtime or twice to the same one |
| RuntimeTree.RefusedExactlyBroken | src/llmperf_backend/storage/repository.py:947-967 | The walk with its visited set refuses exactly the chains of parents that break off at a missing runtime or come back |
| RuntimeTree.LimitsAre | src/llmperf_backend/storage/repository.py:947-967 | The limits found are exactly those of the limited runtimes on the way to the root |
| RuntimeTree.GatesDescend | src/llmperf_backend/storage/repository.py:947-967 | Every Runner's gates are distinct and descend in one order common to all Runners, the height in the tree |
| PermitConservation.StepConserves | src/llmperf_backend/runtime/dispatch.py:79-125 | Every step of every submit, reservation, abort, finish, registration and hand-off keeps free plus held permits equal to the limit on all three levels |
| PermitConservation.ReleaseConserves | src/llmperf_backend/runtime/dispatch.py:110-125 | Giving up a submit at any stage returns exactly the permits it holds, each once |
| PermitConservation.RunConserves | src/llmperf_backend/runtime/dispatch.py:55-221 | Conservation over all interleavings |
| PermitConservation.WorkersWithinLimits | src/llmperf_backend/runtime/dispatch.py:79-125 | In every run Workers exceed neither any runtime's limit nor the global capacity, and admitted Runners not the admission limit |
| PermitConservation.EverythingComesBack | src/llmperf_backend/runtime/dispatch.py:110-125 | Once no submit is left, every gate and the capacity are fully free |
| PermitConservation.TransferKeepsCount | src/llmperf_backend/runtime/scheduler.py:615-617 | Handing the slot's permit to the Runner keeps the admission count exactly when the Runner held none |
| PermitConservation.DroppedGatesAreFree | src/llmperf_backend/runtime/dispatch.py:206-221 | Unregistering drops a gate only when all its permits are free |
| PermitConservation.EndWorkersConserves | src/llmperf_backend/runtime/dispatch.py:198-204 | However many Workers a cancelled Runner has, their end returns every permit they held |
| PermitConservation.OwnGatesStrandNobody | src/llmperf_backend/runtime/dispatch.py:206-221 | While submits use gates that their own Runner lists, unregistering a Runner without submits leaves nobody with a dropped gate |
| PermitSteps.RegisterMeans | src/llmperf_backend/runtime/dispatch.py:55-72 | A Runner is registered exactly when all its limits are usable; it then lists these gates in order, new gates have all permits free and existing ones keep theirs |
| PermitSteps.RefusedAtFirst | src/llmperf_backend/runtime/dispatch.py:61-67 | A refusal comes from the first limit that is not usable, and the gates before it stay |
| PermitSteps.UnregisterMeans | src/llmperf_backend/runtime/dispatch.py:206-221 | A gate goes exactly when its Runner lists it and no other does; every other gate keeps its permits |
| PermitSteps.AdmissionMeans | src/llmperf_backend/runtime/admission.py:11-15 | A submit leaves admission exactly when its Runner holds a permit or one is free, and its Runner then holds one |
| PermitSteps.WorkersAreAccepted | src/llmperf_backend/runtime/dispatch.py:100-118 | In every run the Workers are exactly the submits whose reservation was accepted and that have not finished since |
| PermitSteps.EndsExactly | src/llmperf_backend/runtime/dispatch.py:100-125 | Only Workers finish, only other submits are aborted, and only those holding capacity are decided, a rejection being an abort |
| PermitCancellation.CancelledStartsNothing | src/llmperf_backend/runtime/dispatch.py:98-99 | In every run, from the cancellation of a Runner until it is unregistered, no submit of it comes to hold capacity that held none |
| PermitCancellation.CancelledLeaves | src/llmperf_backend/runtime/dispatch.py:98-125 | A cancelled submit that has all its gates leaves with everything given back as soon as capacity is free |
| PermitProgress.NoDeadlock | src/llmperf_backend/runtime/dispatch.py:91-101 | In every run whose registrations list gates in a common order, a waiting submit means that some submit can take its next permit, or something executes, or all admission permits are with idle owners and any one of them lets the submit go on by giving its permit back |
| PermitProgress.NoDeadlockFromTree | src/llmperf_backend/storage/repository.py:947-967 | The same when every registration passes the limits of one tree of runtimes, with no assumption on orders |
| PermitProgress.ClimbToFree | src/llmperf_backend/runtime/dispatch.py:91-97 | Following holders of missing permits ends at a submit that can go on |
| PermitProgress.TreeGivesOrder | src/llmperf_backend/storage/repository.py:947-967 | Registrations from the runtime tree satisfy the order that deadlock freedom needs |
| PermitProgress.OrderIsNeeded | src/llmperf_backend/runtime/dispatch.py:91-97 | Two Runners that list two gates in opposite orders reach a state in which nothing can advance |
| WorkerDispatcher.RunnerAdmission.Acquire | src/llmperf_backend/runtime/admission.py:11-15 | An admitted owner passes at once, another takes one permit if one is free |
| WorkerDispatcher.RunnerAdmission.Release | src/llmperf_backend/runtime/admission.py:17-20 | Only an admitted owner returns a permit, once |
| WorkerDispatcher.Dispatcher.Register | src/llmperf_backend/runtime/dispatch.py:55-72 | Registers gates entry by entry, also for a Runner with submits in progress; a refused entry leaves the earlier ones, and permits stay conserved |
| WorkerDispatcher.Dispatcher.Unregister | src/llmperf_backend/runtime/dispatch.py:206-221 | Ends the Runner's Workers, which return every permit they held, then drops exactly the gates no other Runner lists |
| WorkerDispatcher.Dispatcher.AwaitGate | src/llmperf_backend/runtime/dispatch.py:93-95 | One pass of the gate loop is the protocol's step and keeps conservation |
| WorkerDispatcher.Dispatcher.AwaitCapacity | src/llmperf_backend/runtime/dispatch.py:96-99 | Taking capacity is the protocol's step; a cancelled Runner gives everything back |
| WorkerDispatcher.Dispatcher.Release | src/llmperf_backend/runtime/dispatch.py:110-125 | Returning capacity and the acquired gates in reverse is the protocol's release |
| WorkerDispatcher.Dispatcher.CancelRunner | src/llmperf_backend/runtime/dispatch.py:198-199 | Marks the Runner, so that its submits end when they reach capacity; permits stay as they are |
| WorkerDispatcher.Dispatcher.FinishReservation | src/llmperf_backend/runtime/dispatch.py:100-118 | An accepted reservation keeps every permit for the Worker, a rejected one returns all |
| Mailbox.BufferBounded | src/llmperf_backend/runtime/messages.py:232-262 | Over every interleaving a buffer holds no message twice and never more than its capacity |
| Mailbox.SettledInOrder | src/llmperf_backend/runtime/messages.py:327-336 | A receipt takes exactly its message out of the buffer and leaves the others in order |
| Mailbox.ReadsWithRoom | src/llmperf_backend/runtime/messages.py:158-175 | A reader takes a snapshot exactly when the buffer has room and it is not reading already |
| Mailbox.RecoveryNeverResurrects | src/llmperf_backend/runtime/messages.py:246-262 | Whatever read, receipt and revision do in between, recovery never buffers an acknowledged message |
| Mailbox.OnlyLateDeliveryResurrects | src/llmperf_backend/runtime/messages.py:232-262 | In every reachable state an event buffers an acknowledged message again if and only if it is the late delivery of that message and there is room |
| Mailbox.LateDeliveryResurrects | src/llmperf_backend/runtime/messages.py:232-244 | A run from the start, for every positive capacity, that ends with a message both acknowledged and buffered |
| Mailbox.StepKeeps | src/llmperf_backend/runtime/messages.py:158-336 | Every step keeps the invariant that snapshots not yet stale offer only unacknowledged or still buffered messages |
| MailboxDrain.StepCosts | src/llmperf_backend/runtime/messages.py:318-336 | The work left never grows without publishing and falls by each completed receipt |
| MailboxDrain.ReceiptsBounded | src/llmperf_backend/runtime/messages.py:264-336 | In every run receipts number at most the stored messages plus the publish calls |
| MailboxDrain.EmptyPassFoundNothing | src/llmperf_backend/runtime/messages.py:158-175 | A reader's pass that leaves the buffer empty, with no receipt meanwhile, proves everything acknowledged |
| MailboxDrain.FairRoundProgresses | src/llmperf_backend/runtime/messages.py:158-175 | A fair round finishes the mailbox or strictly reduces the work left |
| MailboxDrain.Drained | src/llmperf_backend/runtime/messages.py:177-189 | After publishing stops, more fair rounds than the work left acknowledge every message, despite overflow, lost wakeups and late deliveries |
| MailboxDrain.EverythingIsAcknowledged | src/llmperf_backend/runtime/messages.py:177-336 | The same from the start of any run: nothing published before the rounds is lost |
| MailboxDrain.FairRoundExists | src/llmperf_backend/runtime/messages.py:158-336 | While a message is unacknowledged a fair round can be taken from every reachable state |
| MailboxDrain.AnsweredPassIsFair | src/llmperf_backend/runtime/messages.py:158-336 | Every whole pass, whatever goes on during it, becomes a fair round when the consumer answers it with a receipt for what is buffered |
| MessageBus.RunnerMessageBus.DeliverCommitted | src/llmperf_backend/runtime/messages.py:232-244 | Offers the message to exactly the subscriptions of its destination |
| MessageBus.RunnerMessageBus.Recover | src/llmperf_backend/runtime/messages.py:246-262 | Changes only the addressed subscription, as the protocol's recovery |
| MessageBus.RunnerMessageBus.Receive | src/llmperf_backend/runtime/messages.py:274-288 | Returns the oldest buffered messages up to the limit without removing any |
| MessageBus.RunnerMessageBus.SettleReceipts | src/llmperf_backend/runtime/messages.py:327-336 | The local half of an acknowledgment settles the receipts one by one |
| MessageBus.ReceiptsStayApart | src/llmperf_backend/runtime/messages.py:327-336 | Receipts for many destinations settle each subscription as if only its own had come |
| RouterProtocol.NewPool | src/llmperf_backend/runtime/request_pool.py:236-244 | A pool is accepted exactly with positive bounds, which it keeps; its capacity is the greatest number within every slot and within a positive request bound |
| RouterProtocol.LeastBusy | src/llmperf_backend/runtime/request_pool.py:302 | The first of the least busy actors |
| RouterFairness.RouterBounds | src/llmperf_backend/runtime/request_pool.py:241-337 | In every run the order lists the non-empty queues once each, per-actor, per-Runner and total counts agree, and every limit holds |
| RouterFairness.SpareMeansRoom | src/llmperf_backend/runtime/request_pool.py:241-244 | Spare total capacity means that the least busy actor has room |
| RouterFairness.DispatchKeeps | src/llmperf_backend/runtime/request_pool.py:302-321 | Dispatching the head request keeps the invariant |
| RouterFairness.FinishEnabled | src/llmperf_backend/runtime/request_pool.py:331-337 | A finished execution can always give its slot back |
| RouterFairness.AdmittedWithinPosition | src/llmperf_backend/runtime/request_pool.py:303-316 | The oldest request of the Runner at position k waits for at most k other admissions, whatever arrives, leaves, finishes or is cancelled |
| RouterFairness.HeadCanAct | src/llmperf_backend/runtime/request_pool.py:299-316 | With spare capacity the head of the order can always be admitted or refused |
| RouterFairness.CancelledDispatchesNothing | src/llmperf_backend/runtime/request_pool.py:299-301 | In every run no request of a cancelled Runner is dispatched until it is forgotten |
| RouterFairness.CancelledAsTold | src/llmperf_backend/runtime/request_pool.py:269-276 | In every run exactly those Runners are cancelled whose last word was a cancellation |
| RequestRouter.Router.Candidate | src/llmperf_backend/runtime/request_pool.py:302 | The scan of the busy counters finds the specified actor |
| RequestRouter.Router.Enter | src/llmperf_backend/runtime/request_pool.py:292-298 | A request joins its queue exactly when fewer than the maximum wait |
| RequestRouter.Router.Attempt | src/llmperf_backend/runtime/request_pool.py:299-321 | One look of a waiting request refuses, dispatches or waits exactly as the protocol allows |
| RequestRouter.Router.Release | src/llmperf_backend/runtime/request_pool.py:331-337 | Returning a slot is the protocol's completion and drops a Runner's empty counter |
| Rounds.ExpandRounds | src/llmperf_backend/compiler/rounds.py:60-114 | The nested loops produce the specified expansion |
| Rounds.ExpansionMembers | src/llmperf_backend/compiler/rounds.py:60-67 | A Runner is expanded exactly for each cycle and each template of the stage's phase, a template without a phase belonging to the first |
| Rounds.ExpansionInOrder | src/llmperf_backend/compiler/rounds.py:60-67 | The expansion comes out stage by stage and template by template, so none is repeated |
| Rounds.StagesAreLexicographic | src/llmperf_backend/compiler/rounds.py:62 | Stage numbers are ordered exactly by cycle and then phase |
| Rounds.StagesAreConsecutive | src/llmperf_backend/compiler/rounds.py:62 | Stages are numbered from one without gaps |
| Rounds.ReadyRoundRunners | src/llmperf_backend/compiler/rounds.py:117-134 | The fold and filter pass exactly the Runners without a round and those of their campaign's earliest unfinished stage |
| RoundBarrier.NoEarlyStart | src/llmperf_backend/runtime/coordinator.py:129-134 | In every run, when a Runner starts, every Runner of an earlier stage of its campaign is terminal, however stale the queue and the listing were |
| RoundBarrier.ReadyStaysReady | src/llmperf_backend/compiler/rounds.py:117-134 | A Runner whose stage is the earliest unfinished one stays so until it is terminal |
| RoundBarrier.SomeStagePasses | src/llmperf_backend/compiler/rounds.py:117-134 | An unfinished campaign always has an unfinished Runner that passes |
| RoundBarrier.EveryCampaignCanFinish | src/llmperf_backend/compiler/rounds.py:117-134 | From every consistent state some run of passes, starts and ends makes every Runner terminal |
| ReadyQueue.TakeKeeps | src/llmperf_backend/runtime/coordinator.py:216-226 | Claiming keeps the invariant, and the claimed Runner waits nowhere any more |
| ReadyQueue.AddAllKeeps | src/llmperf_backend/runtime/coordinator.py:188-203 | Publishing never exceeds the capacity, and every waiting Runner waits once and is admitted |
| ReadyQueue.AddAllPublishes | src/llmperf_backend/runtime/coordinator.py:188-203 | Every Runner published is admitted unless the queue is full at the end, and waits in its own campaign behind those there before |
| ReadyQueue.DiscardedComesBack | src/llmperf_backend/runtime/coordinator.py:231-238 | A Runner given back can be published again |
| ReadyQueue.ClaimedOncePerDiscard | src/llmperf_backend/runtime/coordinator.py:188-226 | In every run, between two claims of one Runner it was given back |
| ReadyQueue.ClaimedAfterPosition | src/llmperf_backend/runtime/coordinator.py:216-226 | The campaign at position k is claimed from after exactly k other claims |
| ReadyQueue.RuntimeCoordinator.EnqueueRunners | src/llmperf_backend/runtime/coordinator.py:188-203 | The loop publishes as specified and stops at the capacity |
| ReadyQueue.RuntimeCoordinator.Claim | src/llmperf_backend/runtime/coordinator.py:216-226 | Returns the oldest Runner of the first campaign, which then waits nowhere; the campaign goes to the back with the rest of its queue, or leaves |
| ProbeQueue.DependentPlanQueue.constructor | src/llmperf/datasets/probes.py:159-171 | Groups the plan by family, sorts each by occurrence and readies exactly the first of each in dispatch order |
| ProbeQueue.DependentPlanQueue.ClaimNext | src/llmperf/datasets/probes.py:173-190 | Takes the ready request dispatched earliest; returns nothing, when not closed, only if every family is settled |
| ProbeQueue.DependentPlanQueue.Complete | src/llmperf/datasets/probes.py:192-213 | A success readies or delays the family's next request, a failure skips the rest, and no other family changes |
| ProbeQueue.DependentPlanQueue.Release | src/llmperf/datasets/probes.py:215-220 | A delayed request becomes ready in its place |
| ProbeQueue.MoveKeeps | src/llmperf/datasets/probes.py:192-220 | Whatever a family does next, the ready list holds one request per ready family in order and the skipped list the later occurrences of failed families |
| ProbeQueue.EveryRequestAccounted | src/llmperf/datasets/probes.py:173-213 | Once all families are settled every planned request has completed or is skipped behind a failure |
| SparseShuffle.CycleIsWithoutReplacement | src/llmperf/datasets/preparation.py:95-99 | Within a cycle no record repeats, and a whole cycle is a permutation, for any random choices |
| SparseShuffle.SampledMore | src/llmperf/datasets/preparation.py:97-99 | The dictionary form draws exactly what the full shuffle of an array draws |
| SparseShuffle.AssembleDataset | src/llmperf/datasets/preparation.py:85-109 | The text has exactly the requested length, is the start of the sampled records' text, and takes no record more; it ends whenever some record has text |
| SparseShuffle.NoTextNoEnd | src/llmperf/datasets/preparation.py:93-106 | Without any text no sample ever grows, so the condition for ending is exact |
| PlanCache.SamePlan | src/llmperf_backend/runtime/worker_input.py:265-278 | Two requests with one cache key have plans that differ only in the seed field |
| PlanCache.WorkerInputPreparer.CorpusCalibration | src/llmperf_backend/runtime/worker_input.py:237-254 | The cached calibration is the fresh one, it is the cache's newest entry, and exactly the four latest are kept |
| PlanCache.WorkerInputPreparer.CachedPlan | src/llmperf_backend/runtime/worker_input.py:279-303 | The cached plan with the request's seed is the fresh plan, and it is the cache's newest entry |
| PlanCache.WorkerInputPreparer.EvictPlans | src/llmperf_backend/runtime/worker_input.py:297-301 | Evicts oldest first and only while a bound is exceeded; restores both bounds and keeps the newest plan |
| PlanCache.WorkerInputPreparer.Prepare | src/llmperf_backend/runtime/worker_input.py:208-330 | After any history the prompt is what preparation without caches gives, from the corpus, tokenizer and plan the request names; refused exactly for an adapter without a path |
| PlanCache.ReadsExactly | src/llmperf_backend/runtime/worker_input.py:217-232 | The corpus is external exactly when adapter and path are present, then that adapter's file at the input's own path or the common one, and otherwise the built-in one |
| PlanCache.TokenizesExactly | src/llmperf_backend/runtime/worker_input.py:213-216 | The fast tokenizer is used exactly when the setting is missing or spells "true" in any case |
| PlanCache.CalibrateDescribes | src/llmperf/datasets/preparation.py:136-199 | Every field of a plan: sizes, seed, corpus, and a prefix from the prefix seed or the request seed |
| PlanCache.FreshIsRight | src/llmperf_backend/runtime/worker_input.py:266-330 | A literal text is used as it is and sized by calibration or tokenizer; a plan is used exactly for calibrated single concatenations |
| PlanCache.OnlyOwnCorpusMatters | src/llmperf_backend/runtime/worker_input.py:220-229 | Worlds that differ only in corpora the request does not read give the same prompt |
| PlanCache.PlanSharedExactly | src/llmperf_backend/runtime/worker_input.py:270-285 | Two requests share a plan exactly if they differ at most in position and, with a prefix seed, in seed |
| PreparedStream.Stream.Take | src/llmperf/datasets/preparation.py:334-343 | Hands out each prompt once, in order, equal to rendering that index alone; a chunk in flight is always there when needed |
| PreparedStream.Stream.Submit | src/llmperf/datasets/preparation.py:323-332 | Requests consecutive non-empty chunks up to the total |
| TokenBudget.PlannedTokenBudget | src/llmperf_backend/compiler/requests.py:142-171 | The repeats times the account of the document's steps, each sized by the input it names; for a cache probe the planned Workers times one request |
| TokenBudget.SizedExactly | src/llmperf_backend/compiler/requests.py:151-166 | A prompt's size is the larger of mean and text length of the step's own input, or of the plan's if it names none, the document's where that input omits them |
| TokenBudget.Expand | src/llmperf_backend/compiler/requests.py:93-119 | The loops scope names and references of every repetition under its prefix, or number plain requests |
| TokenBudget.GraphOrdered | src/llmperf_backend/compiler/requests.py:79-119 | The expansion of an accepted plan has unique names and waits only for earlier steps of the same repetition |
| TokenBudget.GraphAt | src/llmperf_backend/compiler/requests.py:93-119 | Request i of repetition r is step i with its size, names and references behind the repetition's number and a dot, unchanged if there is only one |
| TokenBudget.BudgetCoversGraph | src/llmperf_backend/compiler/requests.py:93-171 | For every accepted plan one iteration times the repeats equals the account of the whole expanded graph |
| TokenBudget.BudgetCoversExpansion | src/llmperf_backend/compiler/requests.py:93-171 | The same for declared steps, after any number of repetitions |
| TokenBudget.BudgetCoversPlain | src/llmperf_backend/compiler/requests.py:93-99 | Without declared steps too, one request times the repeats is the account of the expansion |
| TokenBudget.WorkersAsPlanned | src/llmperf_backend/compiler/requests.py:133-139 | The count made beforehand is the number of Workers of the expansion, or of the family and occurrence pairs of a cache probe |
| TokenBudget.BudgetCoversConversations | src/llmperf_backend/runtime/runner.py:205-240 | The budget equals the tokens of the message lists actually built when sizes are as estimated, and bounds them when none is larger |
| TokenBudget.BudgetExactWithoutOpening | src/llmperf_backend/runtime/worker_input.py:154-155 | With opening messages the budget is exact if and only if they carry no tokens, and never too large |
| Recurrence.NextIsNextGridPoint | src/llmperf_backend/runtime/planner.py:69-84 | After any instant from grid point k up to the next, the next fire is grid point k plus one |
| Recurrence.PreviewFires | src/llmperf_backend/runtime/planner.py:135-170 | Fires strictly increase, fire k is grid point k, and there are exactly as many as the closed form gives when the preview's own limit does not bind |
| Recurrence.ByEndCounts | src/llmperf_backend/compiler/safety.py:154-168 | A grid point is within the end exactly when its index is below the closed-form count |
| Recurrence.FiresAreTheGrid | src/llmperf_backend/runtime/planner.py:148-170 | The fires are exactly the grid points from start to end |
| Recurrence.NextCalendarFire | src/llmperf_backend/runtime/planner.py:86-132 | The day scan returns the first instant of the earliest matching day that reaches the bound, and fails only if two hundred years hold none |
| Recurrence.MatchesExactly | src/llmperf_backend/runtime/planner.py:98-105 | A day matches exactly when it is a whole number of intervals after the first day, or a listed weekday in a week that is |
| Recurrence.ScanFindsEarliest | src/llmperf_backend/runtime/planner.py:86-132 | In a zone whose days move forward that instant is the earliest fire of all days |

## Left out

- Prefix, payload and suffix seeds, random picks and payload text are not part of rows or rounds: they are digests with no effect on order or limits.
- Depth limits, schema validation and error texts: the accepted shapes are what `WellFormed` and the constructors require.
- Resource weights of `TaskCompiler.estimate` and identity assignment in `TaskAssembler` only copy fields.
- Steps added while a Runner runs, and exceptions of a submission, are not modelled: the workflow logic never adds steps.
- The execution log, timeouts inside the timer source and the persisted form of results are not part of the Runner model; the deadline is an observation of the turn.
- Admission that the Runner loop gives up while it waits for a timer is an event of the permit model, not of the loop.
- WorkerDispatcher.Dispatcher.constructor: requires a positive capacity where the source raises an error.
- WorkerDispatcher.Dispatcher.Unregister: requires that no remaining submit uses a gate that would be dropped; in the source such a submit would keep a semaphore that no name refers to any more.
- TokenBudget.PlannedTokenBudget: documents are validated before, so the refusal of an invalid plan and explicit nulls are left out; `TokenBudget.GraphOrdered` says what validation is for.
- A Worker's request, its retries of the store and its result are one event of the permit model; physical slot retention under a second cancellation is left out.
- PermitProgress.NoDeadlock: when an idle owner gives its admission permit back is up to the scheduler's claim loop, which is not modelled.
- The store is an assumed contract; transactions, fencing and leases of the repository are left out.
- The reconciler's batches over many buses, closing of a bus that is awaited, and log redaction are left out: subscriptions do not influence one another.
- MailboxDrain.Drained: assumes that publishing has stopped and that rounds are fair, which whole passes answered with a receipt are (`MailboxDrain.AnsweredPassIsFair`).
- MessageBus.RunnerMessageBus.Receive: does not model the wait for a notification, only what is found under the lock.
- Materializing task instances in `RuntimeCoordinator.reconcile` beyond readiness, and the notifier's bounded hint queue, add only easy members.
- RoundBarrier.NoEarlyStart: assumes that the Runners of a campaign are known from the start and that a terminal Runner stays terminal.
- The corpus shuffle takes the rounded character count as given; `_assemble` for the built-in corpus is an arbitrary function in `PlanCache`.
- PlanCache.WorkerInputPreparer.Prepare: keys are structured values, so the injectivity of their JSON form and the absence of corpus edits between calls are assumed.
- PlanCache.FreshIsRight: reading and calibrating a corpus are total functions of the world; their failures, the deadline check and a request without a recipe are left out.
- Metadata, evidence and probe mutation of prepared requests are presentation of the prompt.
- Recurrence.NextCalendarFire: a zone is a list of instants per local day; time-zone tables and daylight-saving decisions are not computed.
- Floating-point rounding of durations and of characters per token, pandas summaries, HTTP, CLI, providers, Ray and PostgreSQL internals are outside the model.
