# Verified model of mirror-gha

mirror-gha runs GitHub Actions workflows on the local machine. This project models the parts of it
that decide what runs, in which order and with what result, and the text formats and stores around
them, and proves what they promise for all inputs, all interleavings and all runs.

`dafny verify dfyconfig.toml` checks everything.

## How it is built

| file | what it models |
|---|---|
| `Scheduler.dfy`, `Groups.dfy`, `Preemption.dfy` | the `concurrency:` group scheduler: a class with the source's three maps, the run semantics over it, the independence of groups, queue mode and cancel-in-progress mode |
| `Pool.dfy`, `PoolRuns.dfy`, `PoolProgress.dfy`, `PoolSafety.dfy`, `PoolPreemption.dfy`, `PoolGroups.dfy` | the goroutines RunWorkflow starts for one job: one program counter per matrix combination, chained gates, a counting semaphore, the fail-fast flag and the scheduler |
| `JobGraph.dfy`, `Workflow.dfy` | TopoSortJobs, skip propagation, result assembly and the exit code |
| `MatrixSpec.dfy`, `Matrix.dfy`, `MatrixIncludes.dfy` | matrix expansion on values, the loops of the source over heap maps that includes write into, and the final combinations key by key |
| `Steps.dfy`, `Jobs.dfy`, `StepResults.dfy`, `JobRunner.dfy` | steps, composite actions and RunJob, as functions of the job's state and as methods that update a shared context and mask list |
| `CompositeReports.dfy`, `CompositeHiding.dfy`, `CompositeExposure.dfy` | what the report of a composite shows of registered masks: how nested reports join, what keeps a mask hidden at any nesting, and which steps can show one |
| `Commands.dfy`, `Redaction.dfy` | workflow commands on stdout and the redaction of masks |
| `DockerOptions.dfy`, `DockerWords.dfy`, `KeyValueFile.dfy`, `Glob.dfy` | the options tokenizer, the GITHUB_ENV/GITHUB_OUTPUT parser, doublestar globbing and hashFiles |
| `CacheStore.dfy`, `CacheSaved.dfy`, `Upload.dfy` | the cache store and chunked uploads |
| `Text.dfy`, `Outcomes.dfy` | the string and sorting functions of the Go standard library the code leans on, and result types |

Code that works by changing things is a method or a class proved equal to a function on values;
the theorems are then about that function. What lies outside (RunJob inside the pool, expression
evaluation, action metadata, the backend, clocks, random identifiers, SHA-256, `filepath.Match`
within one segment) is a parameter or a nondeterministic choice, so that a theorem covers whatever
it may do: a pool event `Return(i, v)` is RunJob coming to any verdict at any time, an `Expire` event a timeout,
a workflow `Plan` any complete interleaving of a job's pool, an `Oracle` any evaluator and backend.

## Where the code differs from what is said about it

* **Generations.** The comment at internal/engine/concurrency_scheduler.go:17-20 says a delayed release
  can never clear a newer holder's state. Line 77 deletes the counter, so generation 1 is
  handed out again. `Preemption.GenerationReuse` is the trace. Which jobs are exposed is decided before
  they start: some interleaving leaves two live combinations in a group iff the job cancels in
  progress, has at least two slots, and at least four combinations share the group
  (`PoolPreemption.SharingIff`). For single releases, `Preemption.ReleaseKeepsGroupExclusiveIff` and
  `Preemption.ClearingReleaseHarmfulIff` are the exact conditions, and `Preemption.DrainedRunsSafe`
  is the guarantee for runs that keep to them.
* **Include without axes.** internal/engine/matrix.go:25-27 says every include entry becomes a
  combination of its own. `MatrixSpec.IncludeOnlySeparateIff` proves that this happens iff the entries
  disagree pairwise on a shared key, and `MatrixSpec.IncludeOnlyCanMerge` is a pair that merges.
* **Redaction.** Sequential replacement by `***` is sure to remove a mask from every text iff the mask
  neither starts nor ends with `*` and has no `***` inside (`Redaction.AlwaysRemovedIff`). Masks
  without any `*` are a special case (`Redaction.StarFreeIsSafe`).
* **Composite reports.** internal/engine/executor.go:375-382 does not redact a composite's report; only
  the nested reports in it are redacted, each with the masks registered by then, and they are joined
  without a gap. So a value printed by one nested step and registered by the next stays visible
  (`CompositeReports.LateRegistrationShows`), and a registered mask can form across two nested outputs. What decides is how
  many steps are executed directly, counted through nested composites: a step is exposed, that is, some backend
  makes it show a one-line safe mask registered by its end, iff some backend makes it execute two steps and
  not every printable character is already a mask (`CompositeExposure.ExposedIff`; RunJob starts with no masks).
  `CompositeExposure.ShowsIff` says it for a given value. Where all nested steps resolve and always run, the
  count can be read off the actions (`CompositeExposure.PlainExposedIff`); a step with at most one direct step in it is never
  exposed (`CompositeExposure.OneDirectStepHides`). With a backend that ends every line it prints, a one-line safe
  mask registered before the step begins stays hidden at any nesting (`CompositeHiding.RegisteredBeforeHidden`).
* **Fail-fast.** A lower combination can be skipped although the job of a higher one ran, iff the job
  fails fast, has two or more slots, and a combination after the first has a group name that evaluates
  (`PoolSafety.OvertakingIff`). With one slot the pool is the sequential loop.
* **Large offsets.** A Content-Range start of 2^63 or more is read as 0 (`Upload.StartRecovered`).

## Model

| member | source | states |
|---|---|---|
| `Scheduler.ConcurrencyScheduler.constructor` | internal/engine/concurrency_scheduler.go:28-34 | a new scheduler has no channels, generations, registered cancel functions or holders |
| `Scheduler.ConcurrencyScheduler.Acquire` | internal/engine/concurrency_scheduler.go:41-82 | the whole new state of one attempt: a token or a done context lets a caller through in queue mode and nothing else does; cancel mode cancels the registered holder and registers the caller under the next generation; the empty group touches nothing |
| `Scheduler.ConcurrencyScheduler.Release` | internal/engine/concurrency_scheduler.go:60-81 | the whole new state: a token goes back, and a ticket clears the group's entry and generation exactly when its generation is current |
| `Scheduler.ApplyKeepsInv` | internal/engine/concurrency_scheduler.go:46-81 | every operation keeps: channel counts equal token holders and are 0 or 1, bypassers have done contexts, and registered cancel functions belong to outstanding holders of the current generation |
| `Scheduler.RunKeepsInv` | internal/engine/concurrency_scheduler.go:41-82 | the same over every run |
| `Scheduler.QueueModeExclusive` | internal/engine/concurrency_scheduler.go:46-60 | on every run in queue mode a group has at most one token holder and at most one caller with a live context, and no release blocks |
| `Scheduler.ReleaseNeverBlocks` | internal/engine/concurrency_scheduler.go:60-60 | receiving from the channel on release always finds the holder's own element |
| `Scheduler.FullChannelHasHolder` | internal/engine/concurrency_scheduler.go:55-60 | whoever waits at a full channel waits for an outstanding holder |
| `Groups.OtherGroupsErasable` | internal/engine/concurrency_scheduler.go:41-82 | groups never affect each other: erasing from any run every operation of the callers outside a group leaves a run, with the same channel, generation and registered cancel function for the group and the same holds and contexts of its callers |
| `Preemption.ReleaseTracksIff` | internal/engine/concurrency_scheduler.go:73-81 | a release leaves the only live holder registered iff it does not clear another's entry |
| `Preemption.ReleaseKeepsGroupExclusiveIff` | internal/engine/concurrency_scheduler.go:63-82 | after a release, the next caller to enter is the group's only live holder iff the release did not clear another's entry |
| `Preemption.RunsExclusive` | internal/engine/concurrency_scheduler.go:63-82 | on every run without such a release no group ever has two live holders |
| `Preemption.DrainedRunsSafe` | internal/engine/concurrency_scheduler.go:13-20 | if clearing releases happen only with no other holder outstanding, every group has at most one live holder and a superseded holder's release changes nothing |
| `Preemption.StaleHolderCanHarm` | internal/engine/concurrency_scheduler.go:73-78 | whatever generation an outstanding stale holder carries, later callers can bring the counter back to it and end up sharing the group |
| `Preemption.ClearingReleaseHarmfulIff` | internal/engine/concurrency_scheduler.go:73-81 | a clearing release opens the way to two live holders iff another holder was outstanding |
| `Preemption.GenerationReuse` | internal/engine/concurrency_scheduler.go:75-78 | acquire, acquire, release of the second, acquire, release of the first: the third holder's entry is gone and a fourth caller shares the group with it |
| `Preemption.SharingTakesFour` | internal/engine/concurrency_scheduler.go:63-82 | no run with fewer than four entries into a group leaves it with two live holders |
| `Pool.EffectiveParallel` | internal/engine/workflow_run.go:77-86 | the number of slots: the requested number or 4, cut to the number of combinations, and never below one |
| `Pool.SchedOp` | internal/engine/workflow_run.go:154-172 | an event changes the scheduler exactly by the operation it performs, which is enabled |
| `Pool.ApplyKeepsInv` | internal/engine/workflow_run.go:126-213 | every step of every goroutine keeps: gates are closed exactly behind those past them, the semaphore counts the slot holders, results are written once, the two flags mean what was recorded, and release closures are outstanding exactly inside the group section |
| `Pool.RunKeepsInv` | internal/engine/workflow_run.go:97-214 | the same over every interleaving |
| `PoolProgress.WaiterMoves` | internal/engine/workflow_run.go:133-172 | whoever waits for a group token can enter, or the token's holder can move: it already has its slot and waits for nothing |
| `PoolProgress.NoDeadlock` | internal/engine/workflow_run.go:97-214 | for every number of combinations, slot count and group assignment, a reachable state with an unfinished combination has an enabled step other than a timeout |
| `PoolProgress.MeasureFalls` | internal/engine/workflow_run.go:126-213 | every step, timeouts included, lowers a measure |
| `PoolProgress.RunsAreFinite` | internal/engine/workflow_run.go:97-214 | no interleaving of n combinations has more than 10n steps |
| `PoolProgress.EveryRunCanFinish` | internal/engine/workflow_run.go:214-214 | from every reachable state the pool can reach the point where wg.Wait returns |
| `PoolSafety.SlotsInIndexOrder` | internal/engine/workflow_run.go:107-137 | slots are taken in index order and at most maxParallel are held at a time |
| `PoolSafety.NothingStartsAfterFailure` | internal/engine/workflow_run.go:139-145 | under fail-fast the set of started combinations does not change after the first recorded failure |
| `PoolSafety.OneSlotIsSequential` | internal/engine/workflow_run.go:107-145 | with max-parallel 1, or without fail-fast, every complete interleaving leaves the results of the sequential loop |
| `PoolSafety.Overtaking` | internal/engine/workflow_run.go:133-145 | under fail-fast with two slots, the first combination after 0 whose group name evaluates can run, fail and have combination 0 skipped |
| `PoolSafety.OvertakingIff` | internal/engine/workflow_run.go:107-145 | for every job: a lower combination can be skipped while the job of a higher one ran to a verdict iff the job fails fast, has two or more slots, and some combination after the first has a group name that evaluates |
| `Pool.SchedOps` | internal/engine/workflow_run.go:168-172 | the scheduler operations of a pool run form a run of the scheduler ending in the same state, so its theorems hold inside the pool |
| `PoolGroups.QueuedCombinationsExclusive` | internal/engine/workflow_run.go:160-172 | in every reachable state of a job that queues, two combinations whose group names evaluate to the same non-empty name and that are both between acquire and release with live contexts are one |
| `PoolGroups.BusyGroupBlocks` | internal/engine/workflow_run.go:160-172 | while such a combination runs, another of its group that asks to be let in is let in iff its own context is done |
| `PoolGroups.IdleGroupAdmits` | internal/engine/workflow_run.go:160-172 | a queued group in which no combination is running lets the next one run |
| `PoolGroups.UngroupedRuns` | internal/engine/workflow_run.go:154-172 | a combination of a job without concurrency, or with an empty group name, never waits and cancels nobody |
| `PoolGroups.TurnedAwayIff` | internal/engine/workflow_run.go:154-167 | a combination at acquire errs without running iff its job has concurrency and its group name cannot be evaluated; otherwise it runs |
| `PoolGroups.OnlyTimeoutsEnd` | internal/engine/workflow_run.go:154-172 | without a timeout and without cancel-in-progress no combination's context ever ends |
| `PoolGroups.PreemptingEnters` | internal/engine/workflow_run.go:160-172 | in cancel-in-progress mode nobody waits: the combination runs, is registered for its group, and the one registered before is cancelled and no other |
| `PoolGroups.PreemptedCombinationsExclusive` | internal/engine/workflow_run.go:154-172 | in cancel-in-progress mode at most one live combination of a group runs, in every interleaving whose clearing releases are drained |
| `PoolPreemption.SharingHappens` | internal/engine/workflow_run.go:126-213 | with two slots and four combinations in a group, whatever the other combinations, an interleaving exists that leaves two live holders in it |
| `PoolPreemption.SharingIff` | internal/engine/workflow_run.go:126-213 | for every job and group: some interleaving leaves two live combinations in the group iff the job cancels in progress, the group has a name, there are at least two slots, and at least four combinations share the group |
| `PoolGroups.TogetherIff` | internal/engine/workflow_run.go:154-172 | said of program counters and group names: some interleaving lets two live combinations of a group run together iff there are at least two slots and at least four members |
| `PoolSafety.NoFailureMeansAllRan` | internal/engine/workflow_run.go:196-233 | when the pool returns no error, no failure is recorded iff every combination ran and succeeded: nothing is skipped without a failure |
| `PoolSafety.AllSucceededMeansNoError` | internal/engine/workflow_run.go:196-218 | a pool whose combinations all succeeded has neither an error nor a failure to report |
| `JobGraph.TopoSorter.VisitJob` | internal/engine/workflow_run.go:255-279 | the recursive closure over the state map and the order slice computes the search function, errors included |
| `JobGraph.TopoSortJobs` | internal/engine/workflow_run.go:246-293 | succeeds iff every need names a job and the needs graph has no cycle; a success lists every job once with every need earlier; the result does not depend on map iteration order |
| `JobGraph.VisitCorrect` | internal/engine/workflow_run.go:256-279 | a visit keeps: done jobs are the ordered ones, each after its needs, and visiting jobs form a path of needs; it fails only with an honest error |
| `JobGraph.PathDescends` | internal/engine/workflow_run.go:243-245 | along a path of needs, positions in the order strictly fall |
| `JobGraph.TopoSortCorrect` | internal/engine/workflow_run.go:246-293 | soundness and completeness, both ways; the "unknown job" error never happens, and every other error names a real cycle or a real unknown need |
| `JobGraph.OrderIgnoresListing` | internal/engine/workflow_run.go:281-285 | the order is a function of the map's contents alone |
| `JobGraph.OrderFollowsNames` | internal/engine/workflow_run.go:281-291 | of two jobs in the order, the one with the later name comes first only if a job no later than the other reaches it through needs |
| `JobGraph.NeedsAsListed` | internal/engine/workflow_run.go:268-275 | what a visit adds ahead of a job's need is reached from that need or one listed before it |
| `Text.LessEqMeans` | internal/engine/workflow_run.go:285-285 | the string order of the sorts: decided by the smaller character at the first difference, or by the shorter string |
| `Workflow.AnyNeedUnsuccessful` | internal/engine/workflow_run.go:54-60 | a job is skipped iff some declared need has no successful outcome |
| `Workflow.Conclude` | internal/engine/workflow_run.go:220-233 | the conclusion is failure iff some combination is recorded as failed |
| `Workflow.RunInOrder` | internal/engine/workflow_run.go:48-240 | the job loop computes the reports function, stopping at the first job error |
| `Workflow.RunWorkflow` | internal/engine/workflow_run.go:38-241 | no workspace is an error; a graph error is returned iff the graph is bad; otherwise reports for all jobs in an order with needs first, whatever the map iteration order |
| `Workflow.SkippedIffNeedFailed` | internal/engine/workflow_run.go:54-65 | a job is skipped iff some transitive need concluded failure |
| `Workflow.WorkflowSound` | internal/engine/workflow_run.go:51-238 | without an error: a job is executed iff all its transitive needs succeeded, and concludes success iff it was executed and every combination ran and succeeded |
| `Workflow.StopsIff` | internal/engine/workflow_run.go:51-235 | the run stops with an error iff some job whose needs all succeeded cannot be decoded or has a combination that came to an error, and names such a job |
| `Workflow.NoFailureMeansEverythingRan` | internal/engine/workflow_run.go:216-237 | no job concludes failure iff every combination of every job ran and succeeded |
| `Workflow.CleanRunIff` | internal/engine/workflow_run.go:51-238 | the run ends without error or failure iff every job's pool, given its chance, succeeds in every combination |
| `Workflow.ExitCode` | cmd/mirror/main.go:341-364 | 0 iff there is no error and no job in the order concludes failure, else 1 |
| `Workflow.RunCommand` | cmd/mirror/main.go:341-364 | from parsed workflow to exit code: 0 iff there is a workspace, the needs graph is sound and acyclic, and every combination of every job runs and succeeds |
| `MatrixSpec.EveryChoiceAppears` | internal/engine/matrix.go:70-87 | every choice of one element per axis is a combination, standing at its mixed-radix numeral |
| `MatrixSpec.NumeralOfDigits` | internal/engine/matrix.go:70-87 | the digits of n by division and remainder are the choice whose numeral is n |
| `MatrixSpec.ProductClosedForm` | internal/engine/matrix.go:70-87 | combination n holds, at the j-th sorted key, the axis element at n's j-th mixed-radix digit, and no other keys; there are as many combinations as the axis lengths multiply to |
| `MatrixSpec.ExcludeIsFilter` | internal/engine/matrix.go:117-135 | exclude keeps, in order, exactly the combinations matching no entry |
| `MatrixIncludes.ExcludeSpares` | internal/engine/matrix.go:117-135 | exclude keeps, in order, exactly the combinations that lack some pair of every entry |
| `MatrixSpec.IncludeNeverOverwrites` | internal/engine/matrix.go:137-157 | no include ever changes a value a combination already has |
| `MatrixSpec.IncludeCount` | internal/engine/matrix.go:148-154 | the count grows by exactly the includes that matched nothing at their turn |
| `MatrixIncludes.IncludeOneMeans` | internal/engine/matrix.go:137-157 | one entry: a combination that agrees with it on every shared key gets its pairs and keeps its others, any other stays as it is, and the entry is appended iff none agrees |
| `MatrixIncludes.IncludeCollects` | internal/engine/matrix.go:137-157 | over all includes a combination ends as itself with exactly the entries, in order, that contradict neither it nor an earlier entry it took: every key and value is accounted for |
| `MatrixIncludes.CollectsUnique` | internal/engine/matrix.go:137-157 | that description fixes the final combination |
| `MatrixIncludes.StandaloneCollects` | internal/engine/matrix.go:148-154 | an entry that agrees with no combination at its turn stands behind them and takes the later entries the same way |
| `MatrixSpec.RepeatedIncludeNoOp` | internal/engine/matrix.go:137-157 | an include entry repeated at once changes nothing |
| `MatrixSpec.IncludeOnlySeparateIff` | internal/engine/matrix.go:25-27 | without axes the entries stay separate iff they disagree pairwise on a shared key |
| `MatrixSpec.IncludeOnlyCanMerge` | internal/engine/matrix.go:137-157 | the entries {a: 1} and {b: 2} become one combination |
| `Matrix.AllMatches` | internal/engine/matrix.go:162-170 | true iff every pair of the entry is in the combination |
| `Matrix.SubsetMatches` | internal/engine/matrix.go:176-183 | true iff the entry agrees with the combination on every key they share |
| `Matrix.CartesianProduct` | internal/engine/matrix.go:70-87 | the nested loops build the product out of new, pairwise different maps |
| `Matrix.ApplyMatrixExclude` | internal/engine/matrix.go:117-135 | the surviving maps hold the exclude function's result, none copied or shared |
| `Matrix.MergeEntry` | internal/engine/matrix.go:139-147 | one entry is written in place into exactly the combinations it matched before any write |
| `Matrix.ApplyMatrixInclude` | internal/engine/matrix.go:137-157 | in-place merging, read back by later includes, computes the include function, and no two slots alias |
| `Matrix.CheckFields` | internal/engine/matrix.go:36-59 | the fields are accepted iff include and exclude are mappings or lists of mappings and every axis is a list; a blamed field is really bad |
| `Matrix.CheckExcludeKeys` | internal/engine/matrix.go:62-68 | accepted iff every exclude key is an axis; a blamed key is not |
| `Matrix.ExpandMatrix` | internal/engine/matrix.go:28-93 | the whole expansion: one empty combination without a matrix, an error iff the matrix is ill-formed, otherwise the product, excluded and included, in fresh unaliased maps |
| `Matrix.SurvivorsKeepAxes` | internal/engine/matrix.go:89-92 | a product combination that survives exclude keeps all its axis values through the includes |
| `MatrixIncludes.FieldDecoded` | internal/engine/matrix.go:98-115 | include and exclude hold one entry, a list of entries, or none |
| `MatrixIncludes.ExpandedCombination` | internal/engine/matrix.go:28-93 | a combination exclude spares is a choice of one element per axis with no exclude entry inside it, and ends with the includes it takes |
| `MatrixIncludes.ExpandedWithoutAxes` | internal/engine/matrix.go:28-93 | without axes the combinations are the include entries that stand alone, with the later ones they take |
| `Matrix.ExpandCount` | internal/engine/matrix.go:89-92 | the final count is what exclude spares of the product plus the includes that matched nothing |
| `Steps.StepIsolated` | internal/engine/executor.go:344-493 | a step changes no entry of Steps but its own and no secret, and only adds masks; a composite or skipped step leaves the caller's env unchanged and registers no post action |
| `Steps.CompositeGrows` | internal/engine/composite_step.go:45-109 | a composite, however deeply it nests, only adds masks |
| `Steps.TooDeepMeansChain` | internal/engine/composite_step.go:31-48 | the depth error comes only from composite actions nested one in another beyond the cap: the chain is exhibited |
| `Steps.ShallowNeverTooDeep` | internal/engine/composite_step.go:24-31 | a step from which no more than ten composites nest never meets the cap |
| `Steps.ElevenTooDeep` | internal/engine/composite_step.go:24-31 | eleven unconditional composites, each the first step of the one before, end in the depth error |
| `Steps.CycleIsCut` | internal/engine/composite_step.go:24-48 | if the first step of each composite of a set unconditionally uses one of the set, a step that unconditionally uses one of them ends in an error, not in endless recursion: in the depth error, unless preparing a step fails first |
| `Steps.ReportRedacted` | internal/engine/executor.go:475-491 | a directly executed step's report holds no safe mask registered up to and including that step |
| `Steps.RegisteredSecretHidden` | internal/engine/executor.go:475-483 | a value a step registers is already absent from that step's own report |
| `StepResults.ExecutedStep` | internal/engine/executor.go:396-493 | all a directly executed step leaves behind: success iff exit code 0 and failure otherwise, the exit code, the env it saw and the env after it key by key, outputs with the file over the deprecated commands, masks, redacted text, and the post action with its inputs |
| `StepResults.SkippedStepLeaves` | internal/engine/executor.go:344-358 | a step whose condition is false is reported skipped and changes only its own entry |
| `StepResults.DirectFailsIff` | internal/engine/executor.go:344-440 | a direct step returns no error iff it is skipped or it starts and its execution comes back |
| `StepResults.CompositeLeaves` | internal/engine/executor.go:375-382 | a composite takes the conclusion, text and masks of its nested loop, which starts from the caller's env overridden by the inputs with no Steps and no secrets; its outputs are evaluated there |
| `StepResults.StepTruthful` | internal/engine/executor.go:464-468 | a step reports failure iff it broke: a non-zero exit code, or, for a composite, a nested step that broke and is not excused by continue-on-error; and skipped iff its condition did not allow it |
| `StepResults.NestedStops` | internal/engine/composite_step.go:77-110 | a composite runs its steps up to the first one that breaks it and none behind it |
| `CompositeHiding.RegisteredBeforeHidden` | internal/engine/composite_step.go:77-91 | if the backend ends every line it prints, no part of a step's report, however deep composites nest in it, holds a one-line safe mask registered before the step began; a mask of one character is hidden under every backend |
| `CompositeExposure.OneExecutionHides` | internal/engine/executor.go:375-382 | a step that executes at most one step, through any nesting of composites, shows no safe mask registered by its end |
| `CompositeExposure.ShowsIff` | internal/engine/executor.go:375-382 | for a one-line safe value that can be cut in two lines displayed as they stand and free of registered masks: some backend makes the step end with the value registered and in its report iff some backend makes it execute two steps |
| `CompositeExposure.ExposedIff` | internal/engine/executor.go:375-382 | some backend makes the step show a one-line safe mask registered by its end iff some backend makes it execute two steps and some character other than the star and the newline is not itself a registered mask |
| `CompositeExposure.CountBounds` | internal/engine/composite_step.go:77-91 | no run of a step executes more steps than stand in it, counted through nested composites down to the depth cap |
| `CompositeExposure.OneDirectStepHides` | internal/engine/composite_step.go:77-91 | with at most one direct step in it a step is exposed under no evaluator, metadata or backend |
| `CompositeExposure.PlainExposedIff` | internal/engine/composite_step.go:77-91 | a step whose nested steps are well formed, resolve, always run and stay within the depth cap is exposed iff at least two direct steps stand in it, at any depth of nesting, and some character other than the star and the newline is not itself a registered mask |
| `CompositeReports.LateRegistrationShows` | internal/engine/composite_step.go:77-91 | the smallest case, a composite of two steps under a backend that echoes its commands: any ordinary line printed by the first and registered by the second stays in the composite's output |
| `Jobs.RunTopShape` | internal/engine/executor.go:197-217 | report j is that of step j run from the state its predecessors left; the reports end at the first failure without continue-on-error or with the last step; the posts are exactly those the reported steps handed over, in order |
| `Jobs.PostsRunBackwards` | internal/engine/executor.go:225-296 | post reports stand in strict reverse order of registration, each post at most once, and a post is left out iff its post-if is false in the context its turn finds |
| `Jobs.JobReports` | internal/engine/executor.go:197-309 | RunJob's reports are the reports of the step loop, run from the job's first state, followed by the post reports; a step registers a post action iff it was reported, not skipped, and uses an action with a post entry point; posts are filtered by post-if alone; the conclusion is the main loop's, whatever the posts do |
| `StepResults.JobVerdict` | internal/engine/executor.go:197-217 | the job concludes failure iff a step it executed, not excused by continue-on-error, broke through whatever composites; that step is the last executed, otherwise all had their turn; reports carry the steps' ids or step-k |
| `StepResults.JobOutputs` | internal/engine/executor.go:298-306 | the outputs are the declared expressions evaluated at the end of the job |
| `StepResults.PostLeaves` | internal/engine/executor.go:244-295 | a post action is judged by its exit code, sees the job's env under its own, is reported unredacted, and changes nothing but the job's env |
| `Jobs.JobReportsRedacted` | internal/engine/executor.go:475-491 | over a whole job, the report of a directly executed main step holds no safe mask registered by that step or any before it |
| `JobRunner.Execute` | internal/engine/executor.go:393-493 | running a step directly, updating env, Steps and masks in place, computes the step function |
| `JobRunner.Annotate` | internal/engine/executor.go:475-483 | both streams' masks are registered before either stream is redacted |
| `JobRunner.RunStepIn` | internal/engine/executor.go:344-493 | runStep on a shared context computes the step function: result, context, masks and all errors |
| `JobRunner.RunCompositeSteps` | internal/engine/composite_step.go:45-109 | the composite runs in a context of its own and changes nothing of the caller's but the shared masks |
| `JobRunner.RunNestedSteps` | internal/engine/composite_step.go:77-97 | the nested loop concatenates output, stops at the first failure without continue-on-error and terminates at any nesting |
| `JobRunner.RunMainSteps` | internal/engine/executor.go:197-217 | the step loop computes the function the theorems are about |
| `JobRunner.RunPostActions` | internal/engine/executor.go:225-296 | so does the post loop |
| `JobRunner.RunJobIn` | internal/engine/executor.go:184-309 | so does RunJob once the job's environment has started |
| `Redaction.RedactMasks` | internal/commands/annotations.go:92-99 | computes sequential replacement; no safe mask is left in the result |
| `Redaction.ReplaceAllMeans` | internal/commands/annotations.go:95-95 | replacing cuts the text at the leftmost occurrences, one behind the other, and keeps everything between them |
| `Redaction.RedactInOrder` | internal/commands/annotations.go:93-97 | masks are applied one after another in the order they were registered |
| `Redaction.RedactedIsGone` | internal/commands/annotations.go:92-99 | a safe mask is gone whatever the other masks, their order and their overlaps |
| `Redaction.RedactIdempotent` | internal/commands/annotations.go:92-99 | redacting twice is redacting once, if the masks are safe |
| `Redaction.StarFreeIsSafe` | internal/commands/annotations.go:95-95 | a mask without a star is safe |
| `Redaction.AlwaysRemovedIff` | internal/commands/annotations.go:92-99 | redacting a mask removes it from every text iff the mask is safe |
| `Commands.ProcessWorkflowCommands` | internal/commands/annotations.go:42-74 | the line loop computes the displayed text and the registered masks |
| `Commands.NoMaskLineDisplayed` | internal/commands/annotations.go:50-52 | no line of the displayed text is an add-mask command |
| `Commands.MasksAre` | internal/commands/annotations.go:43-45 | a value is registered iff the text has its add-mask line |
| `Commands.OneMoreLine` | internal/commands/annotations.go:42-74 | a further line is displayed and registered behind those before it |
| `Commands.TextLineByLine` | internal/commands/annotations.go:47-73 | a text is displayed line by line |
| `Commands.GroupShown` | internal/commands/annotations.go:54-56 | a group line is its title behind the group mark |
| `Commands.DebugShown` | internal/commands/annotations.go:57-60 | a debug line is its message behind the debug mark iff debugging is on, and dropped otherwise |
| `Commands.DroppedLines` | internal/commands/annotations.go:50-53 | mask and end-of-group lines are dropped |
| `Commands.LevelsShown` | internal/commands/annotations.go:64-87 | error, warning and notice lines are their message behind the mark of the level, without parameters |
| `DockerOptions.SplitDockerOptions` | internal/runner/dockeropts.go:12-53 | the scanning loop computes the tokenizer function, error included |
| `DockerOptions.SplitDistributes` | internal/runner/dockeropts.go:12-53 | after an accepted string and a space, splitting starts afresh: same acceptance, tokens concatenated |
| `DockerOptions.SplitInvertsQuote` | internal/runner/dockeropts.go:12-53 | every token sequence, with empty tokens, blanks and both quote kinds, is the result of splitting some string |
| `DockerOptions.FailsIffQuoteUnclosed` | internal/runner/dockeropts.go:48-50 | splitting fails iff a quote opened outside any quoted region never occurs again |
| `DockerWords.WordIsItself` | internal/runner/dockeropts.go:37-46 | a word without blanks and quotes is one token, itself |
| `DockerWords.WordsAreTokens` | internal/runner/dockeropts.go:37-52 | such words with any runs of space, tab, newline and carriage return between and around them are the tokens |
| `DockerWords.SolidIsOneToken` | internal/runner/dockeropts.go:29-46 | a text with no blank outside quotes is one token: the text without its delimiting quotes |
| `DockerWords.BlankSeparates` | internal/runner/dockeropts.go:38-39 | behind an accepted text any blank starts afresh |
| `DockerWords.TokensKeepText` | internal/runner/dockeropts.go:12-53 | for every accepted text the tokens' characters are, in order, the text without its delimiting quotes and unquoted blanks |
| `DockerWords.AcceptedIff` | internal/runner/dockeropts.go:48-50 | a text is accepted iff every quoted region in it is closed |
| `KeyValueFile.ReadHeredoc` | internal/commands/files.go:58-71 | the value is the lines before the first one equal to the delimiter, which is consumed, or all lines to the end of the file |
| `KeyValueFile.ReadEntry` | internal/commands/files.go:53-75 | one turn of the loop enters what the head of the file binds and consumes its lines |
| `KeyValueFile.ParseKeyValueFile` | internal/commands/files.go:44-80 | the scanner loops compute the parse function; a line over the scanner's limit is an error |
| `KeyValueFile.ParseAppended` | internal/commands/files.go:51-79 | parsing f1 followed by f2 overlays the two parses, if f1 ends with a complete entry |
| `KeyValueFile.ParseInvertsRender` | internal/commands/files.go:40-79 | rendering entries as heredocs or NAME=value lines and parsing them gives the last value of every name |
| `KeyValueFile.HeredocParsed` | internal/commands/files.go:58-71 | a closed heredoc binds the lines before its delimiter |
| `KeyValueFile.UnclosedParsed` | internal/commands/files.go:58-71 | an unclosed heredoc binds everything to the end |
| `KeyValueFile.AssignmentParsed` | internal/commands/files.go:72-75 | an assignment binds what stands behind its first equals sign |
| `KeyValueFile.OtherLineIgnored` | internal/commands/files.go:53-75 | a line with neither "<<" nor "=" is passed over |
| `KeyValueFile.FailsIffLongLine` | internal/commands/files.go:51-79 | parsing fails iff some line takes 65536 characters or more |
| `KeyValueFile.CRLFReadsSame` | internal/commands/files.go:51-53 | carriage returns before the newlines change nothing |
| `Glob.MatchIff` | internal/engine/hashfiles.go:91-112 | a match is found iff the path divides, in order, into one matching name per ordinary segment and some run per `**` |
| `Glob.MatchComposes` | internal/engine/hashfiles.go:91-112 | a pattern made of two matches exactly the paths made of a match of each |
| `Glob.CollapseKeepsMeaning` | internal/engine/hashfiles.go:95-103 | writing `**` several times in a row means what writing it once does |
| `Glob.CollapseHasNoDouble` | internal/engine/hashfiles.go:95-103 | the collapsed pattern has no two consecutive `**` |
| `Glob.MatchesAnyPattern` | internal/engine/hashfiles.go:45-50 | true iff some pattern matches |
| `Glob.CollectMatches` | internal/engine/hashfiles.go:32-55 | the walk fails with its first failure, otherwise collects exactly the visited files some pattern matches |
| `Glob.HitsMeans` | internal/engine/hashfiles.go:32-55 | a file counts iff it was visited and one pattern's segments divide its path |
| `Glob.HashFiles` | internal/engine/hashfiles.go:31-80 | "" when nothing matches, otherwise the digest of the matched files' contents in sorted order, whatever the map iteration order; an unreadable file is an error |
| `Glob.ReadAllMeans` | internal/engine/hashfiles.go:67-78 | reading succeeds iff every file can be read, the first that cannot is the error, and the bytes are the files' contents in turn |
| `Glob.HashOfMeans` | internal/engine/hashfiles.go:57-80 | empty without matches, otherwise the digest of the matched files read in sorted order |
| `Glob.HashIgnoresOrder` | internal/engine/hashfiles.go:44-65 | the hash does not depend on pattern order or repetition, walk order, or doubled `**` |
| `CacheStore.SortNewestFirst` | internal/cacheserver/store.go:130-130 | a permutation of the matches, latest first |
| `CacheStore.Newest` | internal/cacheserver/store.go:123-149 | filter, sort and take first: a latest-created match, or none iff nothing matches |
| `CacheStore.Store.Open` | internal/cacheserver/store.go:40-57 | an opened store has the saved index and nothing pending |
| `CacheStore.Store.Reserve` | internal/cacheserver/store.go:72-83 | the entry becomes pending and nothing else changes |
| `CacheStore.Store.Commit` | internal/cacheserver/store.go:87-108 | accepted iff pending; the entry moves from pending to the end of the index and of the saved file |
| `CacheStore.Store.Find` | internal/cacheserver/store.go:118-152 | answers for the first key any version-matching entry starts with, preferring exact matches, with a latest-created one; with increasing times it is the backward scan |
| `CacheSaved.AnswersMeans` | internal/cacheserver/store.go:118-152 | what an answer is in keys, versions and times: the first key some entry's key begins with, exact before prefix, latest first |
| `CacheStore.Store.Get` | internal/cacheserver/store.go:155-165 | none iff no entry has the id, otherwise an entry that has it |
| `CacheStore.AnswerIsScan` | internal/cacheserver/store.go:118-152 | with strictly increasing times Find's answer is the last appended match of a backward scan |
| `CacheStore.NoAnswerIsScan` | internal/cacheserver/store.go:118-152 | a miss is a miss of the scan |
| `CacheStore.RunKeepsValid` | internal/cacheserver/store.go:72-108 | on every run with fresh ids, reopening included, the index is append-only, committed ids are pairwise different and never pending, and the file agrees with the index |
| `CacheStore.CommitsOnce` | internal/cacheserver/store.go:91-98 | a committed id is never accepted by a later commit |
| `CacheSaved.SavedEntry` | internal/cacheserver/store.go:72-108 | a reservation waits unchanged through any run that neither reopens the store nor commits it; its commit appends the entry with its id, key, version, size and time |
| `CacheSaved.SavedIsFound` | internal/cacheserver/store.go:72-152 | from any valid state, what is reserved and committed under a key and version is the answer to looking them up, and with later times the only one |
| `CacheSaved.SavedStaysFound` | internal/cacheserver/store.go:40-152 | it stays the answer over every later run, reopening included, until the same key and version is committed again |
| `CacheSaved.SavedFoundByPrefix` | internal/cacheserver/store.go:135-149 | a beginning of the key finds it as long as no entry has exactly that key |
| `CacheStore.FoundIsGettable` | internal/cacheserver/store.go:118-165 | whatever Find answers is the one entry Get returns for its id |
| `Upload.OpenFile.WriteBytes` | internal/cacheserver/handlers.go:112-112 | bytes are written at the position: nothing is truncated, a gap reads as zeros |
| `Upload.OpenFile.CopyFrom` | internal/cacheserver/handlers.go:112-115 | however the body arrives in pieces, the effect is one write |
| `Upload.BlobStore.HandleUpload` | internal/cacheserver/handlers.go:97-118 | the body is written into the id's blob at the parsed start, other blobs unchanged; the seek never fails |
| `Upload.BlobStore.WriteAt` | internal/artifactserver/storage.go:58-78 | a refused path changes nothing; otherwise the file exists afterwards and holds the write, unless the offset is negative |
| `Upload.StartRecovered` | internal/cacheserver/handlers.go:155-166 | the start of "bytes n-m/*" (section 14.4 of RFC 9110) is read as n when n is below 2^63, and as 0 otherwise |
| `Upload.StartMeans` | internal/cacheserver/handlers.go:155-166 | the start of any header: the digits before the first "-", behind an optional "bytes " and plus sign, if they denote less than 2^63, and 0 for anything else |
| `Upload.StartNeverNegative` | internal/cacheserver/handlers.go:155-166 | whatever the header, the start is between 0 and 2^63 |
| `Upload.HeldIff` | internal/cacheserver/handlers.go:97-118 | a position is in the file iff it was before or some chunk reaches it |
| `Upload.LastWriterWins` | internal/cacheserver/handlers.go:97-118 | each byte is the one of the last chunk that covers it |
| `Upload.UncoveredKept` | internal/cacheserver/handlers.go:97-118 | an uncovered byte is what it was, or zero past the old end |
| `Upload.PartsRestoreIff` | internal/cacheserver/handlers.go:97-118 | parts of a file, in any order, overlapping or repeated, restore it on a fresh blob iff they reach its end and miss nothing but zero bytes |
| `Upload.ChunkedUploadRestores` | internal/cacheserver/handlers.go:97-118 | end to end through the headers: parts that cover a file are stored as the file, whatever order they arrive in |

## Left out

- Backends, container start, health polling, node and action fetching, HTTP routing, JSON and YAML decoding, the artifact URL shapes: process and network plumbing.
- The expression evaluator: `if:`, `${{ }}` substitution and group names are an arbitrary function of the context.
- Real time: a timeout is an `Expire` event that may happen at any moment, CreatedAt an arbitrary number.
- Disk-write failures and unreadable stores: a file that is opened can be written; the index file is restored as it was saved.
- Data races on job outputs: a job's Outputs under concurrent combinations, the StepReport lists RunWorkflow concatenates, and the `needs` context built from them are not part of the workflow model.
- Independence from the topological order: RunWorkflow hands every job the outcomes of all earlier jobs, so a job may depend on more than its needs; what a job does is given by its plan.
- Context details of a step: GITHUB_WORKSPACE, the exported GITHUB_* variables, shell and working directory, staging of node, STATE_* variables of post actions, and the legacy set-output parser, which is an input of the model.
- Job setup: environment, container, services and event payload come before the modelled part of RunJob.
- Characters: strings are sequences of characters, with no decoding of invalid UTF-8; ParseKeyValueFile treats a character as a byte.
- Store.Resolve: which artifact paths leave the root is a parameter of `WriteAt`.
- filepath.Match inside one segment and SHA-256 are arbitrary functions, reflect.DeepEqual is equality.
- MatrixSpec.RepeatedIncludeNoOp: equality of values makes `.nan` equal to itself, while reflect.DeepEqual does not; a repeated include holding `.nan` is appended twice in the source, and an exclude holding it matches nothing.
- CacheStore.SortNewestFirst: the order of entries with equal times is left open, as it is by sort.Slice.
- CacheStore.RunKeepsValid: assumes identifiers drawn are new, which the source leaves to 16 random bytes.
- Scheduler.ConcurrencyScheduler.Acquire: blocking is modelled as an attempt that may be repeated; which of two ready cases a select takes is a parameter.
