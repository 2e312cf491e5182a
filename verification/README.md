# AIKernel.NET in Dafny

A model of the deterministic core of AIKernel.NET, with proofs. It covers the replay-trace algebra of
result steps, the pipeline DSL and its compiler, the linking of stored DSL programs, context assembly over
ROM graphs, the history ROM store, the prompt generator with its tokenizer, and the `do` notation of the
Python binding. `dafny verify dfyconfig.toml` checks all of it.

## Reading order

| file | what it models |
|---|---|
| `Common.dfy`, `Ordering.dfy` | options, exceptions, white space, names; ordinal order and stable sorting |
| `ReplayLog.dfy` | replay log entries, ids, and the array loops that rebase, append, concatenate and mark logs (`ResultStep.cs`, `ResultStepIdentity.cs`) |
| `ResultSteps.dfy` | `ResultStep` and its monad laws |
| `PipelineSteps.dfy`, `PipelineRuns.dfy` | generic `Loop`, `LoopUntil`, `Suspend`, `Resume`; the loops as folds over their bodies |
| `Dsl.dfy` | the syntax tree and the compiler's validation (`DslDocument.cs`, `DslPipelineCompiler.cs`) |
| `DslExecution.dfy` | the interpreter as the code writes it (`CompiledDslPipeline.cs`, `DslResultStepAppender.cs`) |
| `DslAnswers.dfy` | what every kind of node does, case by case: state, outcome, clock readings and log |
| `DslTrace.dfy` | a reference semantics without ids, states and logs, and the proof that the interpreter computes it |
| `DslAccounting.dfy`, `DslRuns.dfy` | shape, length, conservation and chaining of traces; results about whole executions |
| `DslUnrolling.dfy`, `DslLinq.dfy`, `DslCongruence.dfy` | loop unrolling; LINQ composition; dependence on the capabilities a program names |
| `DslRom.dfy`, `DslRomLinking.dfy`, `DslRomStore.dfy`, `DslRomTraces.dfy`, `DslRomAnswers.dfy` | the registry of stored programs and calls between them; the state machine of interleaved saves and loads; the store object; what a caller's trace says of the programs it called; when each operation succeeds and what it answers |
| `ContextAssembly.dfy`, `ContextAnswers.dfy`, `ContextCanonicity.dfy` | the depth-limited walk over ROMs; its failures and orders; what its result does not depend on |
| `RouteOrder.dfy`, `ContextDepth.dfy` | first routes in graphs with ordered successors; when exactly the depth limit fails |
| `VfsPaths.dfy` | path normalisation of the virtual file system (`VfsPathRules.cs`) |
| `Tokenizer.dfy`, `PromptGenerator.dfy`, `PromptAnswers.dfy` | words and positions; trimming by priority; roles and layout of a prompt |
| `HistoryRom.dfy`, `HistoryAnswers.dfy` | history files, their registry, and the rollback of failed saves; when saves and loads succeed or fail, and how |
| `ResultDo.dfy` | `Result.bind`, `do` and `async_do` of the Python package |

The files named `...Answers` and `PipelineRuns.dfy` pin what each operation gives back, field by field and
error by error, in the terms of its inputs and of the outside world, without the functions that compute it.

Ids are a free datatype, `Hash(parent, delta, ok, code)`: an ideal hash. The DSL clock is a sequence of
readings, each of which may throw; a run carries the number of readings used. Capabilities, hashing, JSON
parsing, ROM loading and governance are arbitrary functions, and each call that can throw in the source may
throw in the model. The results about stores and registries hold under any path normalisation, in particular
under the one in `VfsPaths.dfy`.

## Where the code has corners

- A step with an empty log still has an id, which occurs in no log. `Bind` hangs later entries under it, so
  associativity, left identity and right identity hold on ids only under the conditions stated in
  `BindAssociativity`, `LeftIdentity` and `RightIdentity`. Outcomes always agree.
- The README of the repository calls passing `where` predicates pure projections that append no replay
  nodes (README.md:460-461). They append none, but the entries of a pipeline bound afterwards get other ids
  than without the filter (`PassingWhereShiftsIds`).
- The first entry of an execution hangs from the id of a fresh success or of a fresh failure, depending on
  its own flag. Composing a program that logs nothing with one that starts with a failure therefore differs
  from the concatenation in its ids (`BindIsConcatenation`).
- A timed loop that runs all its iterations ends with the entry of a counted loop, without a timestamp
  (`TimedLoopEnds`); a counted loop with no iterations logs one transition.
- A stored program is called without the call's arguments and starts at the Unix epoch, so a timed loop
  inside it measures from there.
- Context assembly checks the depth before it looks whether a ROM is known: a relation back to a loaded ROM
  fails at the limit (`SelfLinkNeedsOneStep`). A limit of the number of reachable ROMs is always enough
  (`LargeLimitSuffices`). Otherwise it depends on the order of the relations: what counts is the first route to
  a ROM, not the shortest or the longest one (`DepthFailsExactly`).
- Path normalisation is idempotent except on what it takes for the root: paths such as `/` and `.`
  become the empty path, which is rejected when it is normalised again (`NormalizedTwice`).
- Python's `Option`, `Either` and asynchronous results have a `bind` of their own. Where a callback of
  `Result.bind` or a `do` program hands one over by mistake, most often everything ends in a TypeError
  either way; `BindAssociativity`, `DoIsBind` and `ForeignMonadsAssociate` say exactly when.
- A failed history save tries to delete its new file twice; only if both attempts fail does the file stay,
  and then registry and files still agree (`SaveAgrees`).

## Model

| member | source | states |
|---|---|---|
| `ReplayLog.RebaseReplayLog` | src/AIKernel.Common/Results/ResultStep.cs:471-498 | the loop re-hangs every entry: its result is the rebased log of `Rebase` |
| `ReplayLog.ConcatReplayLogs` | src/AIKernel.Common/Results/ResultStep.cs:446-469 | the loop copies both logs, first then second |
| `ReplayLog.AppendReplayLogEntry` | src/AIKernel.Common/Results/ResultStep.cs:431-444 | the old log with exactly one entry more |
| `ReplayLog.MarkCurrentReplayLogFailure` | src/AIKernel.Common/Results/ResultStep.cs:500-542 | only the last entry changes: it keeps parent and delta, becomes a failure with the code and gets a new id; an empty log gets one failing entry |
| `ReplayLog.RebaseIsTheChain` | src/AIKernel.Common/Results/ResultStep.cs:471-498 | if and only if: rebasing gives the one strict chain under the parent with the same deltas, flags and codes |
| `ReplayLog.RebaseAbsorbs` | src/AIKernel.Common/Results/ResultStep.cs:471-498 | a second rebase overrides the first, and rebasing changes nothing exactly when the log was already a chain under that parent |
| `ReplayLog.RebaseConcat` | src/AIKernel.Common/Results/ResultStep.cs:446-498 | rebasing two logs laid end to end is rebasing the first and hanging the second under its last id |
| `ReplayLog.LastIdFixesTheChain` | src/AIKernel.Common/Results/ResultStep.cs:471-498 | with ideal ids, two strict chains of one length with the same last id are equal entry for entry, root included |
| `ReplayLog.MarkKeepsTheChain` | src/AIKernel.Common/Results/ResultStep.cs:500-542 | marking the last entry failed keeps a strict chain strict |
| `ReplayLog.MarkCommutesWithRebase` | src/AIKernel.Common/Results/ResultStep.cs:471-542 | marking a failure and rebasing can be exchanged on a non-empty log |
| `ResultSteps.RehungId` | src/AIKernel.Common/Results/ResultStep.cs:401-429 | a step re-hung under the end of a strict chain gets an id that the chain does not have: the last entry's if it logged something, otherwise one that occurs nowhere in the log |
| `ResultSteps.BindAssociativity` | src/AIKernel.Common/Results/ResultStep.cs:266-280 | for all steps and binders, throwing ones included: both groupings agree on state and outcome; logs, payloads and whole steps are equal exactly under the stated conditions on which step logged something |
| `ResultSteps.LeftIdentity` | src/AIKernel.Common/Results/ResultStep.cs:266-280 | for every step a binder returns: outcome, state and payloads are kept, and the step itself exactly when it hangs from the root of a success already, by its log or, without one, by its id |
| `ResultSteps.LeftIdentityOfCoherent` | src/AIKernel.Common/Results/ResultStep.cs:266-280 | for a coherent or fresh step: exactly when its log is not empty and its first entry hangs from that root |
| `ResultSteps.RightIdentity` | src/AIKernel.Common/Results/ResultStep.cs:266-280 | binding to a fresh success keeps outcome and log, and never the step id |
| `ResultSteps.AppendKeepsTheChain` | src/AIKernel.Common/Results/ResultStep.cs:159-187 | appending to a strict chain keeps it strict exactly when the log was empty or the chosen parent is the last id |
| `ResultSteps.PrefixKeepsTheChain` | src/AIKernel.Common/Results/ResultStep.cs:328-429 | hanging a coherent step under the end of a strict chain gives a strict chain; the step stays coherent exactly when it logged something or nothing stood before it |
| `ResultSteps.BindKeepsTheChain` | src/AIKernel.Common/Results/ResultStep.cs:266-280 | binding coherent steps gives a strict chain, and says exactly when the result's own id is again the last logged one |
| `ResultSteps.MarkedIsChained` | src/AIKernel.Common/Results/ResultStep.cs:373-399 | a binder's exception leaves a strict chain |
| `ResultSteps.RebaseSeparates` | src/AIKernel.Common/Results/ResultStep.cs:401-498 | the same non-empty log under two different parents gives two different logs |
| `ResultSteps.MapAnswers` | src/AIKernel.Common/Results/ResultStep.cs:219-241 | `Map` changes the value and nothing else; a failure passes through; an exception becomes the outcome of the same step, with its last entry marked failed |
| `ResultSteps.BindAnswers` | src/AIKernel.Common/Results/ResultStep.cs:266-280 | `Bind` takes state and outcome of the binder's step and appends its entries, re-hung as a chain under the step's own id; a failure passes through, an exception fails in place |
| `PipelineSteps.Loop` | src/AIKernel.Common/Results/PipelineStep.cs:19-62 | the for-loop computes `LoopResult`; which iterations that runs, on which values and with which entries, is `PipelineRuns.LoopIsFold` |
| `PipelineSteps.LoopUntil` | src/AIKernel.Common/Results/PipelineStep.cs:67-143 | the for-loop computes `LoopUntilResult`; which iterations that runs, and how it ends, is `PipelineRuns.LoopUntilIsFold` |
| `PipelineSteps.IterationExtends` | src/AIKernel.Common/Results/PipelineStep.cs:213-295 | one iteration extends the log and leaves a strict chain and a coherent step, also when the body throws or logs nothing |
| `PipelineSteps.LoopExtends` | src/AIKernel.Common/Results/PipelineStep.cs:19-62 | the loop only appends, and its result is coherent if and only if an iteration ran or the incoming id was the last logged one |
| `PipelineSteps.LoopUntilExtends` | src/AIKernel.Common/Results/PipelineStep.cs:67-143 | the same for the timed loop, with clock exceptions and immediate timeouts; exact condition |
| `PipelineSteps.ResumeExtends` | src/AIKernel.Common/Results/PipelineStep.cs:182-211 | resuming adds exactly one entry, linked to the last id, that records the reason and the length and hash of exactly the suspended log; the state and the value are the given ones |
| `PipelineRuns.LoopIsFold` | src/AIKernel.Common/Results/PipelineStep.cs:19-62 | for every bound, initial step and body, throwing ones included: state, outcome and new entries are those of a fold that hands each iteration the value of the one before and stops at the first failure, with one entry for each started iteration, numbered in order, `continue` or `max_iterations_reached` |
| `PipelineRuns.LoopUntilIsFold` | src/AIKernel.Common/Results/PipelineStep.cs:67-143 | the same for the timed loop: the clock is read before every iteration, the deadline lies one timeout after the start, and a clock that throws ends the loop with an error |
| `PipelineRuns.IterationFolds` | src/AIKernel.Common/Results/PipelineStep.cs:213-295 | one timed iteration and what follows it: what the body logs, then its own entry, or the error of an exception |
| `PipelineRuns.SuspendAnswers` | src/AIKernel.Common/Results/PipelineStep.cs:148-177 | a suspended step fails with a retryable quarantine that gives the reason, or the default one, in error and entry |
| `Dsl.CompileAccepts` | src/AIKernel.Core/Dsl/DslPipelineCompiler.cs:30-146 | if and only if: a document compiles when its root is a pipeline and every node at any depth is valid, its capabilities included |
| `Dsl.ValidCallsExist` | src/AIKernel.Core/Dsl/DslPipelineCompiler.cs:129-146 | every capability an accepted node can call, at any depth, was found at compile time |
| `Dsl.ValidUnfolds` | src/AIKernel.Core/Dsl/DslPipelineCompiler.cs:75-122 | validity at every depth is local validity and validity of the children |
| `Dsl.CompileReports` | src/AIKernel.Core/Dsl/DslPipelineCompiler.cs:30-146 | a document that does not compile gets the error of its first invalid node as written, at any depth: a lookup that threw names the capability, all else is rejected |
| `DslExecution.RunLoop` | src/AIKernel.Core/Dsl/CompiledDslPipeline.cs:228-268 | the for-loop computes what the interpreter assigns to a counted loop node |
| `DslExecution.RunLoopUntil` | src/AIKernel.Core/Dsl/CompiledDslPipeline.cs:270-336 | the for-loop computes what the interpreter assigns to a timed loop node, with its clock readings |
| `DslAnswers.ExecuteAnswers` | src/AIKernel.Core/Dsl/CompiledDslPipeline.cs:35-155 | a program runs its nodes in order from a fresh step with the input; without a valid input it runs nothing and logs one failing entry |
| `DslAnswers.StepAnswers` | src/AIKernel.Core/Dsl/CompiledDslPipeline.cs:157-170 | a step node counts and names itself, keeps the outcome and logs one entry |
| `DslAnswers.CallAnswers` | src/AIKernel.Core/Dsl/CompiledDslPipeline.cs:172-226 | by the reply of the registry to name, current value, arguments and clock position: a valid value is the outcome unchanged, a refusal the error unchanged, an exception a fail-closed error with its type and the capability, and no value or an invalid one a runtime error |
| `DslAnswers.CallLogs` | src/AIKernel.Core/Dsl/CompiledDslPipeline.cs:399-440 | the one entry of a call names the capability and carries exactly its arguments, each under its key |
| `DslAnswers.LoopAnswers` | src/AIKernel.Core/Dsl/CompiledDslPipeline.cs:228-268 | a counted loop is a sequence of runs of its body, each from where the one before ended, that stops at the first failure or at the bound, with one numbered entry after each; zero and negative bounds |
| `DslAnswers.LoopUntilAnswers` | src/AIKernel.Core/Dsl/CompiledDslPipeline.cs:270-336 | a timed loop reads the clock once before every iteration, runs its body before the deadline only, and ends with a failed iteration, at the bound, at the deadline, or because the clock threw; negative bounds |
| `DslAnswers.SuspendNodeAnswers` | src/AIKernel.Core/Dsl/CompiledDslPipeline.cs:338-347 | a suspend node fails with a retryable quarantine, counts itself, and gives the reason in error and entry |
| `DslAnswers.UnsupportedAnswers` | src/AIKernel.Core/Dsl/CompiledDslPipeline.cs:132-142 | a node of another kind fails with a runtime error, leaves the state, and logs its kind |
| `DslTrace.NodeLands` | src/AIKernel.Core/Dsl/CompiledDslPipeline.cs:117-347 | the interpreter computes a semantics without ids, states and logs: from any log, the outcome is the traced one, the log grows by the emitted payloads, and the state is their replay; what each node answers is in the `DslAnswers` rows |
| `DslTrace.NodesLand` | src/AIKernel.Core/Dsl/CompiledDslPipeline.cs:145-155 | the same for a node list; a failed step passes through the rest |
| `DslTrace.LoopLands` | src/AIKernel.Core/Dsl/CompiledDslPipeline.cs:228-268 | the same for the counted loop from any iteration on |
| `DslTrace.LoopUntilLands` | src/AIKernel.Core/Dsl/CompiledDslPipeline.cs:270-336 | the same for the timed loop from any iteration on |
| `DslTrace.SuspendLands` | src/AIKernel.Core/Dsl/CompiledDslPipeline.cs:338-347 | a suspend node, built as a step of its own and put after the log, logs one entry under the last id |
| `DslTrace.NodesConcat` | src/AIKernel.Core/Dsl/CompiledDslPipeline.cs:145-155 | running two node lists in sequence is running their concatenation |
| `DslTrace.GrowIsRebase` | src/AIKernel.Core/Dsl/DslResultStepAppender.cs:33-59 | appending entries to a non-empty log gives what the same entries give from nothing, rebased on its last id |
| `DslTrace.GrowAppends` | src/AIKernel.Core/Dsl/DslResultStepAppender.cs:33-59 | appending entries keeps the log as a prefix, and a strict chain strict |
| `DslTrace.CapabilityDeltaVisits` | src/AIKernel.Core/Dsl/CompiledDslPipeline.cs:172-197 | the entry of a capability call names the capability, whatever the arguments and the copied metadata are |
| `DslAccounting.NodeAccount` | src/AIKernel.Core/Dsl/CompiledDslPipeline.cs:117-347 | for every node and run: flags, exact number of failures, length bound, valid values, and the branch of the tree at which the run fails, whose last node logged the first failure |
| `DslAccounting.LeafReports` | src/AIKernel.Core/Dsl/CompiledDslPipeline.cs:132-241 | a node that fails without running others logs one entry, which names it |
| `DslAccounting.LoopAccount` | src/AIKernel.Core/Dsl/CompiledDslPipeline.cs:246-258 | the same from any iteration of a counted loop on |
| `DslAccounting.LoopUntilAccount` | src/AIKernel.Core/Dsl/CompiledDslPipeline.cs:285-336 | the same from any iteration of a timed loop on |
| `DslRuns.NodeAppends` | src/AIKernel.Core/Dsl/CompiledDslPipeline.cs:117-347 | every node is append-only, keeps a strict chain strict and a coherent step coherent |
| `DslRuns.RunningCommutesWithRebasing` | src/AIKernel.Core/Dsl/CompiledDslPipeline.cs:117-155 | from a success with a non-empty log, a node list does what it does from a fresh step, and logs the fresh log rebased on the last id |
| `DslRuns.ExecuteChains` | src/AIKernel.Core/Dsl/DslResultStepAppender.cs:33-63 | every trace of an execution is a strict hash chain that ends in the result's id; its root is determined by its first entry |
| `DslRuns.StateIsReplay` | src/AIKernel.Core/Dsl/DslDocument.cs:96-118 | the final state is the replay of the log, and its node count is the number of logged nodes |
| `DslRuns.ExecuteShape` | src/AIKernel.Core/Dsl/CompiledDslPipeline.cs:122-155 | a run fails exactly when some entry is a failure; then successes come first, failures last, the first of them logged by the failing node at the end of a branch of the tree, and one more for each loop enclosing it |
| `DslRuns.ExecuteCost` | src/AIKernel.Core/Dsl/CompiledDslPipeline.cs:228-336 | the log is no longer than the cost of the program, and exactly as long for a success without timed loops |
| `DslRuns.ExecuteKeepsValuesValid` | src/AIKernel.Core/Dsl/CompiledDslPipeline.cs:172-226 | a success means a valid input and a valid value |
| `DslRuns.CompiledRunsAreSound` | src/AIKernel.Core/Dsl/DslPipelineCompiler.cs:62-122 | an accepted document never logs an unsupported node or invalid bounds, and the node count is the number of non-loop entries |
| `DslRuns.LoopEnds` | src/AIKernel.Core/Dsl/CompiledDslPipeline.cs:228-268 | a counted loop ends with the entry of an iteration in range, of the last one if it succeeds, with the decision that belongs to it |
| `DslRuns.TimedLoopEnds` | src/AIKernel.Core/Dsl/CompiledDslPipeline.cs:270-336 | a timed loop succeeds only if its last clock reading is past the deadline, with that reading as timestamp, or after all iterations, with a counted loop's entry |
| `DslUnrolling.UnrollingPreservesMeaning` | src/AIKernel.Core/Dsl/CompiledDslPipeline.cs:228-268 | unrolling every counted loop of a program, at any depth, keeps outcome, state and clock use, and the entries once loop transitions are erased |
| `DslUnrolling.LoopIsRepetition` | src/AIKernel.Core/Dsl/CompiledDslPipeline.cs:228-268 | a counted loop from any log is its body that many times in sequence, in the same sense |
| `DslUnrolling.UnrolledIsLoopFree` | src/AIKernel.Core/Dsl/CompiledDslPipeline.cs:228-268 | the unrolled program has no counted loop left |
| `DslUnrolling.LoopUntilFollows` | src/AIKernel.Core/Dsl/CompiledDslPipeline.cs:270-336 | a timed loop runs like the timed loop over any equivalent body |
| `DslLinq.BindIsConcatenation` | src/AIKernel.Core/Dsl/DslPipelineLinqExtensions.cs:35-53 | binding two compiled programs has the outcome, clock use and payloads of the compiled concatenation; the logs are identical unless the first program logs nothing and the second starts with a failure (if and only if) |
| `DslLinq.SelectIsSilent` | src/AIKernel.Core/Dsl/DslPipelineLinqExtensions.cs:11-20 | a projection that returns changes the value and nothing else of the step |
| `DslLinq.PassingWhereShiftsIds` | src/AIKernel.Core/Dsl/DslPipelineLinqExtensions.cs:87-108 | a passing filter logs nothing but leaves an id that is in no log: what is bound after it has the same payloads and never the same entries, unless it logs nothing |
| `DslLinq.WhereAnswers` | src/AIKernel.Core/Dsl/DslPipelineLinqExtensions.cs:87-156 | a filter passes the value on without an entry if the predicate is true; if it is false, it fails with `DSL_PREDICATE_REJECTED` of kind `Reject`, and if it throws, fail-closed with the type of the exception, with exactly one failing entry under the id of the pipeline; a failed run passes through |
| `DslLinq.WherePasses` | src/AIKernel.Core/Dsl/DslPipelineLinqExtensions.cs:87-108 | if and only if: a filtered pipeline succeeds when the pipeline does and the predicate returns true |
| `DslLinq.BlockedNeverRuns` | src/AIKernel.Core/Dsl/DslPipelineLinqExtensions.cs:35-53 | what is bound after a filter that does not pass, or after any failed pipeline, is never run: same step, same clock position |
| `DslLinq.BindPipelineAnswers` | src/AIKernel.Core/Dsl/DslPipelineLinqExtensions.cs:35-53 | the second pipeline runs on the value of the first, from where its clock readings ended, and its state, outcome and entries follow; no second pipeline, or an exception of the binder, fails |
| `DslLinq.SelectAnswers` | src/AIKernel.Core/Dsl/DslPipelineLinqExtensions.cs:11-20 | a projection that throws fails in place, with the last entry marked |
| `DslCongruence.RunsAreCongruent` | src/AIKernel.Core/Dsl/CompiledDslPipeline.cs:172-226 | worlds that agree on the capabilities a program names, and on the clock, give it the same run |
| `DslRom.DslRomRegistry.constructor` | src/AIKernel.Core/Dsl/DslRomRegistry.cs:16-24 | a registry starts empty |
| `DslRom.DslRomRegistry.Register` | src/AIKernel.Core/Dsl/DslRomRegistry.cs:29-138 | the new registry and the result, in every case: the first snapshot under a name stays, and another hash is refused |
| `DslRom.DslRomRegistry.Contains` | src/AIKernel.Core/Dsl/DslRomRegistry.cs:143-150 | a name is contained exactly when resolving it succeeds |
| `DslRom.DslRomRegistry.Resolve` | src/AIKernel.Core/Dsl/DslRomRegistry.cs:155-180 | the parse error, the not-found error, or the bound snapshot |
| `DslRomStore.DslRomStore.EnsureSnapshotStored` | src/AIKernel.Core/Dsl/DslRomStore.cs:146-203 | an existing file is never written and must have the snapshot's hash; a missing one is written; the probe, the read and the write can each throw, and then nothing changes |
| `DslRomStore.DslRomStore.SaveDslAsRom` | src/AIKernel.Core/Dsl/DslRomStore.cs:28-48 | a save is a compile, store and register step of the linking machine, and a failed one leaves the registry as it was |
| `DslRomStore.DslRomStore.LoadDslRom` | src/AIKernel.Core/Dsl/DslRomStore.cs:80-101 | a load is a compile and register step of the linking machine |
| `DslRomStore.SaveRuns` | src/AIKernel.Core/Dsl/DslRomStore.cs:28-48 | the three steps of a save, run without interleaving |
| `DslRomStore.LoadRuns` | src/AIKernel.Core/Dsl/DslRomStore.cs:80-101 | the two steps of a load, run without interleaving |
| `DslRomStore.SaveSucceedsWhen` | src/AIKernel.Core/Dsl/DslRomStore.cs:28-48 | if and only if: a save succeeds when there is JSON with a hash as expected that parses and compiles to a program, its name is free or bound to that hash, and its file is missing and can be written or can be read and has that hash; what it writes and answers |
| `DslRomStore.LoadSucceedsWhen` | src/AIKernel.Core/Dsl/DslRomStore.cs:80-101 | if and only if: a load succeeds when the expected hash is given, and the file is there, can be read, and holds such a program |
| `DslRomAnswers.CreateSucceedsWhen` | src/AIKernel.Core/Dsl/DslRomProvider.cs:27-101 | if and only if: a snapshot is made when the JSON is not blank, both names are valid, its hash is the expected one up to case if one is expected, it parses, and the document compiles |
| `DslRomAnswers.CreatedIsGiven` | src/AIKernel.Core/Dsl/DslRomProvider.cs:27-53 | a snapshot has the given JSON and what it parses to, its hash, its time, and the path and the capability name spelled out of both normalised names |
| `DslRomAnswers.WrongHashIsRefused` | src/AIKernel.Core/Dsl/DslRomProvider.cs:60-101 | in every state a load whose expected hash is not that of the file fails, with `DSL_ROM_ERROR`, and leaves registry and files as they are |
| `DslRomAnswers.RegisterAnswers` | src/AIKernel.Core/Dsl/DslRomRegistry.cs:29-138 | if and only if: registering succeeds when the snapshot is well formed and the name is free or bound to the same hash; it binds a free name only |
| `DslRomAnswers.WellFormedMeans` | src/AIKernel.Core/Dsl/DslRomRegistry.cs:51-138 | a well-formed snapshot has canonical names, path and capability name, and the hash of its own JSON |
| `DslRomAnswers.CapabilityParses` | src/AIKernel.Core/Dsl/DslRomPath.cs:42-133 | the capability name of two normalised names parses back to them |
| `DslRomAnswers.PathsAreDistinct` | src/AIKernel.Core/Dsl/DslRomPath.cs:14-29 | if and only if: two programs share path or capability name when namespace and name are the same |
| `DslRomLinking.RunsKeepInv` | src/AIKernel.Core/Dsl/DslRomStore.cs:28-101 | after every run of interleaved saves and loads the registry is ranked, every entry is well formed, compiled from its own JSON and on file; bindings and files never change |
| `DslRomLinking.StepKeepsInv` | src/AIKernel.Core/Dsl/DslRomStore.cs:28-203 | every single step keeps that |
| `DslRomLinking.CompilingIsMonotone` | src/AIKernel.Core/Dsl/DslPipelineCompiler.cs:138-146 | what compiles against a registry compiles against every extension of it |
| `DslRomLinking.CallGraphIsAcyclic` | src/AIKernel.Core/Dsl/DslRomRegistry.cs:29-49 | in every reachable registry no program calls itself through any chain of calls, and no chain is longer than the registry |
| `DslRomLinking.CompiledCallsResolve` | src/AIKernel.Core/Dsl/DslRomCapabilityRegistry.cs:39-138 | a stored program named by a compiled one resolves and validates in every later state, to the snapshot bound at compile time |
| `DslRomLinking.GrowthIsInvisible` | src/AIKernel.Core/Dsl/DslRomCapabilityRegistry.cs:39-72 | nested execution ends, and a compiled program runs the same in every later registry state: step, log and clock use |
| `DslRomLinking.LoadReturnsWhatWasSaved` | src/AIKernel.Core/Dsl/DslRomProvider.cs:27-53 | in every reachable state, loading a registered program by its identity and hash recompiles that very program if and only if its file is its text, and the file always has the same hash; registering it again changes nothing; loads under any other hash are in `DslRomAnswers.WrongHashIsRefused` |
| `DslRomLinking.RegisteredIsOnFile` | src/AIKernel.Core/Dsl/DslRomStore.cs:146-203 | in every reachable state every registered program is on file under its hash, and no earlier file has changed |
| `DslRomTraces.CallsCommit` | src/AIKernel.Core/Dsl/DslRomCapabilityRegistry.cs:39-255 | in every reachable registry, the entry of a call of a stored program carries its hash and the length and hash of exactly the log of its run, failed or not, and the call succeeds as the run does |
| `DslRomTraces.ReplyCommits` | src/AIKernel.Core/Dsl/DslRomCapabilityRegistry.cs:202-255 | the reply of a stored program succeeds as the program did and carries these texts, whatever it carried before |
| `DslRomTraces.DeltaCommits` | src/AIKernel.Core/Dsl/CompiledDslPipeline.cs:399-440 | the entry of a call takes these texts over, whatever the arguments |
| `DslRomAnswers.CallsBringResults` | src/AIKernel.Core/Dsl/DslRomCapabilityRegistry.cs:39-72 | in every reachable registry, a call of a stored program brings back all texts of the value of its run under their own keys, or its error with code, failure kind, origin, slot and other metadata, each with the seven ROM keys added and nothing else |
| `DslRomAnswers.ReplyBrings` | src/AIKernel.Core/Dsl/DslRomCapabilityRegistry.cs:202-255 | the same of any reply of a stored program; the ROM keys name its capability, path, namespace, name and hash |
| `DslRomAnswers.UnknownIsRefused` | src/AIKernel.Core/Dsl/DslRomCapabilityRegistry.cs:39-88 | a stored name that is not bound is refused as not found, and names the capability |
| `DslRomAnswers.InnerAnswers` | src/AIKernel.Core/Dsl/DslRomCapabilityRegistry.cs:39-59 | every other name reaches the inner registry with the same value, arguments and clock position, and the answer comes back as it is; an exception becomes a fail-closed error that names the capability |
| `ContextAssembly.AssemblyState.constructor` | src/AIKernel.Core/Context/ContextAssembler.cs:195-212 | an assembly starts with nothing loaded, loading or linked |
| `ContextAssembly.AssemblyState.LoadGraphInto` | src/AIKernel.Core/Context/ContextAssembler.cs:93-177 | the recursive walk over the mutable collections computes `LoadGraph`, and a loaded ROM is keyed by its own id |
| `ContextAssembly.AssemblyState.GetRomsInDeterministicOrder` | src/AIKernel.Core/Context/ContextAssembler.cs:262-267 | all loaded ROMs, each once, by ascending id, in whatever order the dictionary enumerates them |
| `ContextAssembly.AssemblyState.GetEdgesInDeterministicOrder` | src/AIKernel.Core/Context/ContextAssembler.cs:272-279 | exactly the recorded edges, ascending by source, target and kind |
| `ContextAssembly.AssembleContext` | src/AIKernel.Core/Context/ContextAssembler.cs:45-91 | the failure of the walk, or the ROMs by id and the edges in order that the context and its hash are made of |
| `ContextAssembly.FetchIsChecked` | src/AIKernel.Core/Context/ContextAssembler.cs:120-156 | if and only if: a ROM is fetched when its path resolves, it loads, its id is the one asked for, and governance allows it |
| `ContextAssembly.FollowedIsExact` | src/AIKernel.Core/Context/ContextAssembler.cs:179-193 | the followed relations are the stated ones, filtered by kind if kinds are given |
| `ContextAnswers.RefusalIsExact` | src/AIKernel.Core/Context/ContextAssembler.cs:120-156 | if and only if: which failure each step that goes wrong gives, in the order of path, load, identity and governance |
| `ContextAnswers.FollowedInOrder` | src/AIKernel.Core/Context/ContextAssembler.cs:179-193 | relations are followed by target, then kind, each of a kind to follow as often as it is stated |
| `ContextAnswers.EdgesInOrder` | src/AIKernel.Core/Context/ContextAssembler.cs:272-279 | edges are listed by source, then target, then kind |
| `ContextAnswers.FirstFailureStops` | src/AIKernel.Core/Context/ContextAssembler.cs:160-174 | the first relation that fails ends the walk, whatever relations follow it |
| `ContextAnswers.RelationsInTurn` | src/AIKernel.Core/Context/ContextAssembler.cs:160-174 | each relation is walked from where the ones before it left off |
| `ContextAnswers.NegativeLimitFails` | src/AIKernel.Core/Context/ContextAssembler.cs:53-59 | if and only if: the limit itself is the failure when it is negative |
| `ContextAssembly.AssemblyIsExact` | src/AIKernel.Core/Context/ContextAssembler.cs:45-177 | a success loads exactly the ROMs reachable from the root, cycles included, each checked and within the depth limit; the edges are exactly their followed relations, each once; a failure has its cause in the graph, and a depth failure a path without repetition longer than the limit |
| `ContextAssembly.GraphIsWalked` | src/AIKernel.Core/Context/ContextAssembler.cs:93-177 | from any state within an assembly, the walk to one ROM keeps the invariant or fails for a cause in the graph |
| `ContextAssembly.RelationsAreWalked` | src/AIKernel.Core/Context/ContextAssembler.cs:160-176 | the same for the relations of one ROM |
| `ContextAssembly.AssemblySucceeds` | src/AIKernel.Core/Context/ContextAssembler.cs:93-177 | success is certain when everything reachable can be fetched, names its targets, and no path is longer than the limit |
| `ContextDepth.DepthFailsExactly` | src/AIKernel.Core/Context/ContextAssembler.cs:93-177 | where nothing else can go wrong: the assembly fails, at its depth limit, if and only if the first route in relation order to some ROM is as long as the limit and the ROM follows a relation |
| `ContextDepth.WalkGoes` | src/AIKernel.Core/Context/ContextAssembler.cs:93-177 | when the walk comes along a route, exactly the ROMs to which an earlier route leads are loaded; it fails if and only if a ROM below is too deep, and else has loaded what lies below |
| `ContextAssembly.RelationOrder` | src/AIKernel.Core/Context/ContextAssembler.cs:183-185 | target, then kind, ordinal: a total order |
| `ContextAssembly.EdgeOrder` | src/AIKernel.Core/Context/ContextAssembler.cs:274-277 | source, target, then kind, ordinal: a total order |
| `ContextCanonicity.AssemblyIsCanonical` | src/AIKernel.Core/Context/ContextAssembler.cs:179-193 | permuting the relations of any ROMs changes neither success, nor the failure, nor the ordered lists of ROMs and edges |
| `ContextCanonicity.ListingIsCanonical` | src/AIKernel.Core/Context/ContextAssembler.cs:262-267 | the ordered ROM list is the same for every enumeration order |
| `ContextCanonicity.HigherLimitChangesNothing` | src/AIKernel.Core/Context/ContextAssembler.cs:104-108 | an assembly that does not fail at the depth limit has the same outcome under every higher limit |
| `ContextCanonicity.LargeLimitSuffices` | src/AIKernel.Core/Context/ContextAssembler.cs:104-118 | with a limit no smaller than the number of reachable ROMs, success if and only if all of them can be fetched and name their targets |
| `ContextCanonicity.SelfLinkNeedsOneStep` | src/AIKernel.Core/Context/ContextAssembler.cs:104-118 | a root that only relates to itself fails at limit zero and succeeds with any other: the depth is checked before known ROMs are |
| `Ordering.SortIsCanonical` | src/AIKernel.Core/Context/ContextAssembler.cs:183-185 | sorting by a total order depends on the elements only |
| `Ordering.StringOrder` | src/AIKernel.Core/Context/ContextAssembler.cs:184-185 | ordinal comparison is a total order |
| `Ordering.StringLeMeans` | src/AIKernel.Core/Context/ContextAssembler.cs:184-185 | if and only if: one string is below another when it is a beginning of it, or has the smaller character where they part |
| `Tokenizer.Tokenize` | src/AIKernel.Core/Execution/SimpleTokenizer.cs:24-51 | the tokens are the exact tokenization of the text, and their values its words |
| `Tokenizer.FoundIsNext` | src/AIKernel.Core/Execution/SimpleTokenizer.cs:36-38 | searching from the end of the last token finds the intended word, never an earlier occurrence and never nothing |
| `Tokenizer.SpansAreExact` | src/AIKernel.Core/Execution/SimpleTokenizer.cs:34-48 | positions name the token's text, are ordered with a gap between, and leave out exactly the white space |
| `Tokenizer.ExactIsUnique` | src/AIKernel.Core/Execution/SimpleTokenizer.cs:24-51 | a text has one exact tokenization only |
| `Tokenizer.ExactGivesWords` | src/AIKernel.Core/Execution/SimpleTokenizer.cs:34-48 | any exact tokenization has the words of the text as its values |
| `Tokenizer.DecodeRoundTrip` | src/AIKernel.Core/Execution/SimpleTokenizer.cs:64-69 | tokenizing the decoded tokens gives the same words, and decoding those the same text |
| `Tokenizer.DecodeIsTight` | src/AIKernel.Core/Execution/SimpleTokenizer.cs:64-69 | decoding writes the words exactly one blank apart, with nothing before or after them |
| `Tokenizer.WordsConcat` | src/AIKernel.Core/Execution/SimpleTokenizer.cs:34 | where two texts meet at white space, their words add up |
| `PromptGenerator.BuildSystemInstruction` | src/AIKernel.Core/Execution/DefaultPromptGenerator.cs:177-207 | the builder loop gives the preamble and the blocks in order, trimmed |
| `PromptGenerator.BuildMessages` | src/AIKernel.Core/Execution/DefaultPromptGenerator.cs:136-175 | the messages of each format, and none for an unsupported one |
| `PromptGenerator.CountMessages` | src/AIKernel.Core/Execution/DefaultPromptGenerator.cs:247-258 | the accumulated total over roles and contents |
| `PromptGenerator.TrimByPriority` | src/AIKernel.Core/Execution/DefaultPromptGenerator.cs:209-245 | for any tokenizer: the longest prefix by priority that fits, or a failure with the count of the empty prompt when no prefix fits |
| `PromptGenerator.Generate` | src/AIKernel.Core/Execution/DefaultPromptGenerator.cs:39-101 | the outcome in every case: invalid capability, everything fits, fail closed, or trimmed; a generated prompt never exceeds the limit |
| `PromptGenerator.OutcomeIsUnique` | src/AIKernel.Core/Execution/DefaultPromptGenerator.cs:39-101 | the request and the tokenizer determine the outcome |
| `PromptGenerator.KeptHavePriority` | src/AIKernel.Core/Execution/DefaultPromptGenerator.cs:215-218 | every kept block has a higher priority than every dropped one, or the same and no greater id |
| `PromptGenerator.KeptAndDroppedAreAll` | src/AIKernel.Core/Execution/DefaultPromptGenerator.cs:215-218 | kept and dropped blocks are the given ones, with multiplicity |
| `PromptGenerator.PromptSays` | src/AIKernel.Core/Execution/DefaultPromptGenerator.cs:136-207 | in every format the prompt says the preamble, the blocks by priority and the instruction, word for word and in this order |
| `PromptAnswers.RolesSay` | src/AIKernel.Core/Execution/DefaultPromptGenerator.cs:136-175 | which role says what: a chat says the system text in the system role, or the one given for it, and the instruction as the user; other formats say both as the user; all roles and contents are counted |
| `PromptAnswers.PreambleSays` | src/AIKernel.Core/Execution/DefaultPromptGenerator.cs:177-196 | the words before the blocks, with snapshot id and context hash if and only if they are to be included |
| `PromptAnswers.BlocksAreLaidOut` | src/AIKernel.Core/Execution/DefaultPromptGenerator.cs:198-206 | every block stands in the trimmed text as lines of its own: a header with id and category, and its trimmed content |
| `PromptAnswers.RefusalIsFirst` | src/AIKernel.Core/Execution/DefaultPromptGenerator.cs:103-148 | if and only if: a capability is refused when something is wrong with it, and for the first such thing |
| `PromptGenerator.NormalizeBlocks` | src/AIKernel.Core/Execution/DefaultPromptGenerator.cs:293-308 | only the metadata of blocks is dropped, and only if it is not to be included |
| `PromptGenerator.TokensAddUp` | src/AIKernel.Core/Execution/DefaultPromptGenerator.cs:177-207 | with the simple tokenizer a prompt costs a fixed base plus the cost of each block, for every format |
| `PromptGenerator.TokensIncrease` | src/AIKernel.Core/Execution/DefaultPromptGenerator.cs:220-233 | with the simple tokenizer each further block makes the prompt strictly longer |
| `PromptGenerator.TrimmingIsOptimal` | src/AIKernel.Core/Execution/DefaultPromptGenerator.cs:209-245 | with the simple tokenizer exactly the prefixes up to the kept one fit, and trimming fails exactly when the prompt without blocks does not fit |
| `PromptGenerator.GenerationIsOptimal` | src/AIKernel.Core/Execution/DefaultPromptGenerator.cs:39-101 | the same for the whole generator |
| `HistoryRom.HistoryRomStore.constructor` | src/AIKernel.Core/ChatHistory/HistoryRomRegistry.cs:16-21 | nothing is registered at first |
| `HistoryRom.HistoryRomStore.Register` | src/AIKernel.Core/ChatHistory/HistoryRomRegistry.cs:27-128 | the registry and the result after all guards; the first snapshot under an id stays |
| `HistoryRom.HistoryRomStore.Load` | src/AIKernel.Core/ChatHistory/HistoryRomStore.cs:240-264 | read, load, check, register, with every failure |
| `HistoryRom.HistoryRomStore.Save` | src/AIKernel.Core/ChatHistory/HistoryRomStore.cs:125-184 | write if missing, load back, and delete twice when that fails and the file is new |
| `HistoryRom.LoadSucceedsWhen` | src/AIKernel.Core/ChatHistory/HistoryRomProvider.cs:18-106 | if and only if: names, file, loaded ROM, verified hash, expected hash and registry fit together; under the path rules of the virtual file system |
| `HistoryAnswers.SaveSucceedsWhen` | src/AIKernel.Core/ChatHistory/HistoryRomStore.cs:125-167 | if and only if: a save succeeds when the file is missing and can be written, or can be read and holds the same text, and the file can then be loaded |
| `HistoryAnswers.SaveAgain` | src/AIKernel.Core/ChatHistory/HistoryRomStore.cs:138-147 | saving the text on file again is loading it; another text is refused and changes nothing |
| `HistoryAnswers.SaveReports` | src/AIKernel.Core/ChatHistory/HistoryRomStore.cs:136-156 | an exception of the file system before the load is the failure of the save, and nothing changes |
| `HistoryAnswers.LoadFailsFirst` | src/AIKernel.Core/ChatHistory/HistoryRomProvider.cs:18-106 | if and only if: a load fails when something is wrong with names, file, ROM, hash or registration, and with the first such thing |
| `HistoryAnswers.LoadRegisters` | src/AIKernel.Core/ChatHistory/HistoryRomStore.cs:240-264 | a successful load answers with what is registered under its id; if nothing is, it registers exactly text, ROM, both names, id, path, verified hash and time |
| `HistoryAnswers.NamesAreSpelled` | src/AIKernel.Core/ChatHistory/HistoryRomPath.cs:14-29 | id and path spell out both normalised names |
| `HistoryAnswers.IdentityIsNormalised` | src/AIKernel.Core/ChatHistory/HistoryRomPath.cs:66-99 | if and only if: two names are valid when neither is blank and both are normalised to single segments |
| `HistoryRom.LoadAgrees` | src/AIKernel.Core/ChatHistory/HistoryRomStore.cs:240-264 | a load never changes a file; it fails without a trace, or the file's markdown is what the id resolves to |
| `HistoryRom.SaveAgrees` | src/AIKernel.Core/ChatHistory/HistoryRomStore.cs:125-184 | a successful save has its markdown on file and resolvable; a failed one leaves files and registry as they were, except that a new file stays exactly when both deletions fail |
| `HistoryRom.RunsAgree` | src/AIKernel.Core/ChatHistory/HistoryRomStore.cs:125-264 | over every run of saves and loads, whatever the file system does: each registered id is bound to the markdown on file, no existing file changes, no registration changes |
| `HistoryRom.SavedIsKept` | src/AIKernel.Core/ChatHistory/HistoryRomRegistry.cs:114-147 | what was saved resolves after any further run |
| `HistoryRom.OwnIdParses` | src/AIKernel.Core/ChatHistory/HistoryRomPath.cs:24-99 | under these path rules a ROM id parses back to the identity it was made of, if both of its parts are not blank |
| `VfsPaths.Normalize` | src/AIKernel.Core/Vfs/Abstractions/VfsPathRules.cs:13-50 | the loop over the segments gives the normalised path or the rejection |
| `VfsPaths.NormalizedIsClean` | src/AIKernel.Core/Vfs/Abstractions/VfsPathRules.cs:27-49 | a normalised path is joined of segments that are trimmed, not empty, neither `.` nor `..`, and without slashes of either kind |
| `VfsPaths.CleanIsNormal` | src/AIKernel.Core/Vfs/Abstractions/VfsPathRules.cs:27-49 | a path joined of such segments is normalised to itself |
| `VfsPaths.NormalizedTwice` | src/AIKernel.Core/Vfs/Abstractions/VfsPathRules.cs:13-50 | normalising twice is normalising once if and only if the result is not empty |
| `VfsPaths.RejectedWhen` | src/AIKernel.Core/Vfs/Abstractions/VfsPathRules.cs:15-44 | a path is rejected if and only if it is blank or has a segment `..` |
| `VfsPaths.NormalizedKeepsAll` | src/AIKernel.Core/Vfs/Abstractions/VfsPathRules.cs:13-50 | for every path: all parts between its slashes, of either kind, that name something are kept, trimmed and in order; the path is rejected if and only if it is blank or one of them is `..` |
| `ResultDo.BindAssociativity` | python/src/aikernel_net/monads.py:274-303 | `bind` is associative, metadata and exceptions included, if and only if no foreign object is returned first whose own `bind` comes to anything else than a TypeError |
| `ResultDo.BindAnswers` | python/src/aikernel_net/monads.py:274-303 | a failure does not call back; a success takes over value or cause of the result it is given and lays its metadata over its own; an exception, or what is no result, fails with its own metadata |
| `ResultDo.ForeignMonadsAssociate` | python/src/aikernel_net/monads.py:703-727 | with `Option`, `Either` and asynchronous results it fails exactly when they call back and the callback raises another error |
| `ResultDo.Do` | python/src/aikernel_net/monads.py:2665-2688 | the `do` loop computes the outcome of the run: value, failure, exception and merged metadata |
| `ResultDo.DoIsBind` | python/src/aikernel_net/monads.py:2665-2688 | the `do` loop and nested `bind` calls agree if and only if the run does not end at such a foreign object |
| `ResultDo.ResultsEndAlike` | python/src/aikernel_net/monads.py:2665-2688 | a run that yields nothing but results never does |
| `ResultDo.NothingAgrees` | python/src/aikernel_net/monads.py:703-727 | at `Nothing()`, returned or yielded, both laws hold and end in a TypeError |
| `ResultDo.AsyncDo` | python/src/aikernel_net/monads.py:2782-2803 | the asynchronous loop computes the outcome: a plain value, an exception of the call, or that of the run, awaiting what is yielded |
| `ResultDo.AsyncIsSync` | python/src/aikernel_net/monads.py:2844-2857 | the asynchronous loop on a program is the synchronous one on the awaited program |

## Left out

- SHA-256, UTF-8 and the text of canonical payloads: ids are ideal, so nothing is claimed about the
  newline-joined payload being injective. It writes null and empty kinds, codes and metadata alike, so such
  entries share an id in the source and have different ids here.
- Error message texts, null guards on services and arguments, culture formatting, integer and `TimeSpan`
  overflow.
- Async plumbing, cancellation, and thread safety of the concurrent dictionaries: the calls of the DSL ROM
  machine interleave as whole compile, store and register steps; all other calls are atomic.
- `BindAsync`, `MapState`, `WithState`, `Tap` and `SelectMany` on result steps: variants of modelled
  operations.
- LINQ `SelectMany` with a projector: `Bind` to a pipeline followed by a `Select`.
- JSON and YAML parsing: programs start as syntax trees; a parser is a parameter of the ROM store.
- `GetName`, `IsUnder` and `IsDirectChild` of the path rules.
- The contract snapshots that `RegisterAsync` keeps in a second dictionary of the DSL registry, and the
  mapping to contract types.
- A stored program's compiled pipeline is its syntax tree; pipelines registered directly, without the
  provider, are not modelled.
- Files of the DSL and of the history store are written whole or not at all: a write that throws leaves no
  file. Nothing else writes or deletes them, and a race between the existence check and the write is not
  modelled.
- History ROM export to markdown, and what the ROM loader parses: the loader may return any ROM at each call.
- Context collections, hash computation, snapshot ids and the clock of context assembly: the model ends at
  the ordered lists they are made of.
- ROM documents carry an id, relations with target and kind, and opaque content. Governance is a function of
  the ROM; for `AssemblyIsCanonical` it must not look at the order of the relations.
- Ordinal comparison works on Dafny characters instead of UTF-16 code units.
- `Environment.NewLine` is one line feed; any other white space gives the same token counts.
- The prompt hash, prompt metadata, and token ids of the tokenizer.
- `Tokenizer.Words` is the specification of the library's `Split`, which `Tokenize` calls.
- AssemblyState.GetRomsInDeterministicOrder: sorts the keys and looks them up instead of sorting the values.
- ResultDo.Do: a generator is a tree of what it does next, and its run ends after some number of yields; a
  generator that yields for ever is not modelled, since neither loop nor `bind` chain then ends.
- Error texts of the Python binding: all its TypeErrors are one. What the `bind` of a foreign object answers
  to a callback is part of the object.
- `do` for `Option` and `Either`, and `bind` on asynchronous results, which drops metadata on exceptions.
- The decision gates, credentials, kernel facade, routing, hosting registration and the Python package's
  assembly discovery.
