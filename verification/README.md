# A verified model of the autonomy engine

This project models the state machines and algorithms at the heart of the development-loop
engine and proves what they promise, for every input, every run and every reachable state.

* **Mission loop and durable controller.** `MissionLoop` computes gaps over a capability graph,
  scores them and applies state updates. `MissionController` is one cycle of the controller and the
  continuous loop, written against an in-memory repository, with every durable write in its order.
  `SelectionOrder` says which target is selected and `CycleMeaning` what a cycle comes to, in the
  fields of capabilities, outcomes and rows. `MissionRuns` proves what the loop keeps and the exact
  number of cycles of a solvable mission. `MissionCrashes` lets a controller stop between any two
  writes and restart on the saved state, and proves an invariant of every durable state.
  `MissionRecovery` proves exactly when crashes cannot be seen in the result.
* **Dependency graphs and pipelines.** `StepPlanning` is the three-colour search that validates a
  plan and orders its steps; `PipelineDag` is the other cycle check, with a visited set and a
  recursion stack; `Pipeline` and `PipelineRuns` are the tick machine with checkpoints and its runs.
  `Graphs` holds the graph theory both need.
* **Retry under a deadline.** `RouterRetry` runs a provider chain with per-attempt timeouts, backoff
  and one workspace per attempt, for every clock and every outcome, and equals the functions of
  `RetryPlan`. `RetryMeaning` says what they come to in terms of the outside world alone,
  `RetryStatuses` which answers are retried, `RetryResults` what holds on every exit,
  `RetryDeadline` when the deadline is kept.
* **Task leases.** `TaskLeases` holds the SQL statements as atomic steps, `TaskStatements` says
  column by column what they do, `LeaseRuns` the protocol of workers, heartbeats and reapers,
  `WorkerSteps` the worker's own pass as a run of that protocol, `LeaseLimits` the per-product
  limit, `ClaimOrder` the claim order.
* **Sealed execution specs.** `SpecCanonical` is key canonicalisation, `KeyOrders` the meaning of
  its orders, `SpecHash` the hash that excludes its own field, `SpecStore` the table of records and
  its seal.
* **Bounded aggregation.** `ContextBudget` (context assembly), `MemoryStore` and `SupersessionLinks`
  (memory), `PatternEvidence`, `PatternOrder`, `LessonGovernance`, `LessonRuns` and `LessonMeaning`
  (evidence that gates lessons), `RateLimiter`.

What the source changes in place is a class whose methods are proved against a function of the old
state; runs and histories are then proved about those functions. `Wrappers` and `Sequences` hold
what several modules share.

## What turned out differently

The code does not meet these expectations; each has a lemma with a concrete input or state, and the
exact condition under which the code does meet it.

* A checkpoint can be passed by: before the first tick a step without dependencies is READY although
  its checkpoint is undecided (`GateBypassExample`, `GateBypassedExactlyWhen`).
* Crash recovery and the normal path use different evidence rules, so a crash can turn a refusal
  into a verification or the other way round (`RulesDisagreeExample`, `RecoveryAcceptsVerified`,
  `NormalAcceptsRecovered`, `TransparentExactlyWhen`). A cycle stored FAILED or BLOCKED is not
  recovered at all but runs afresh (`EndedBadlyCallsAgain`).
* The total deadline of a retry run is not kept by provider calls: the timeout is fixed before the
  engine starts the call, and what passes in between is not taken off it (`OverrunExample`,
  `CallAgainstDeadline`, `CanBeLateExactlyWhen`, `DeadlineKeptExactlyWhen`).
* A negative attempt limit does not stop the retry loop but drops providers from the end of the chain
  (`AttemptLimit`).
* A concurrency limit below one still gives every product one lease, because the claim looks at
  products with live leases only (`FirstClaimIgnoresLimit`, `LimitMeantExactlyWhen`).
* Heartbeats and status updates do not look at the lease owner: a process that slept through its
  deadline overwrites the new owner (`LateProcessOverwrites`, `TakenExactlyWhenLate`), and its renewal,
  like a prototype claim, breaks the product limit exactly when its product has no room
  (`LateRenewalBreaksLimit`, `StepKeepsLimit`).
* Canonicalisation loses fields named `__proto__` (`ProtoFieldIsLost`, `CanonicalForm`), and keys that
  read as array indices come out in numeric order (`IndexKeysAreNumeric`); the result is sorted
  lexicographically exactly where both orders agree (`LexicographicExactlyWhen`).
* The order in which context blocks are collected shows in the result exactly when two of them tie
  (`TiesFollowInput`).
* The dedupe key of a memory does not always identify its owner: tenants and projects may contain
  colons (`ColonsConfuse`, `OwnersMergeExample`; `KeyIdentifies`, `SharedExactlyWhen`).
* `metadata.supersededBy` can come from the caller and loop, exactly when a replacement leads back to
  what it replaces (`MetadataCanLoop`; `StepCloses`, `LoopsExactlyWhen`).
* The comment above the unblocking leverage says "directly or indirectly"; the code counts direct
  dependents only, and so does the model. The comment above the score names weights of 10, 10 and 5;
  the code uses 25 for the leverage and 15 or 0 for work in flight, and so does the model
  (`DependentsOutweigh`).

## Model

| member | source | states |
|---|---|---|
| Graphs.TopoImpliesAcyclic | src/office/planning.ts:100-126 | a topological order of all nodes is a certificate that no closed walk exists |
| Graphs.AcyclicHasSource | src/office/autonomy-loop.ts:187-194 | every non-empty set of nodes of an acyclic graph has one that depends on none of the set |
| StepPlanning.Trim | src/office/planning.ts:76-80 | the trimmed string has no white space at its ends and is empty exactly for blank input |
| StepPlanning.TrimRemoves | src/office/planning.ts:76-80 | every white-space character goes at either end, and no other character does |
| StepPlanning.CleanNames | src/office/planning.ts:85-86 | the dependencies are the distinct non-blank trimmed names |
| StepPlanning.GraphNodes | src/office/planning.ts:75-87 | the nodes of the built graph are exactly the non-blank trimmed ids |
| StepPlanning.GraphHoldsDependencies | src/office/planning.ts:75-87 | with unique ids each node keeps the dependencies of its own step |
| StepPlanning.DependencySearch.Dfs | src/office/planning.ts:105-120 | the search terminates, finishes the node, keeps the finished nodes in topological order until a cycle is met, and reports only real closing walks |
| StepPlanning.BuildGraph | src/office/planning.ts:71-87 | the loop builds the graph, and reports blank and duplicate ids exactly when there are any |
| StepPlanning.CheckNames | src/office/planning.ts:90-98 | self and unknown dependencies are reported exactly when they exist |
| StepPlanning.SearchAll | src/office/planning.ts:100-126 | the whole search finds a cycle exactly when there is one and otherwise orders all nodes |
| StepPlanning.ValidateStepDependencies | src/office/planning.ts:68-141 | valid exactly when ids are non-blank and unique, every dependency is a known other step and there is no cycle; when valid the order is a permutation of the ids with dependencies first; every reported error is true of the input |
| PipelineDag.StepGraphEdges | src/office/autonomous-pipeline.ts:109-113 | with distinct ids every step keeps its own known dependencies |
| PipelineDag.DagSearch.CheckCycle | src/office/autonomous-pipeline.ts:115-130 | answers true only with a closed walk, and false only with the subtree finished in topological order |
| PipelineDag.ValidateDAG | src/office/autonomous-pipeline.ts:104-139 | throws exactly when the graph of known ids has a cycle, and names a step from which one is reached |
| Pipeline.AutonomousPipelineEngine.CreatePipeline | src/office/autonomous-pipeline.ts:183-247 | refuses missing titles, empty step lists and cyclic graphs, and otherwise stores the initial pipeline |
| Pipeline.AutonomousPipelineEngine.CollectCompleted | src/office/autonomous-pipeline.ts:287-295 | counts and collects exactly the completed steps |
| Pipeline.AutonomousPipelineEngine.AdvanceSteps | src/office/autonomous-pipeline.ts:297-326 | every step moves to the status its dependencies and checkpoint call for, up to the first rejected one |
| Pipeline.AutonomousPipelineEngine.TickPipeline | src/office/autonomous-pipeline.ts:275-342 | the in-place tick is the tick function; an unknown or foreign pipeline is refused |
| Pipeline.AutonomousPipelineEngine.DecideCheckpoint | src/office/autonomous-pipeline.ts:347-377 | a decision is recorded and followed by a tick; a step without checkpoint is refused |
| Pipeline.AutonomousPipelineEngine.CompleteStep | src/office/autonomous-pipeline.ts:382-403 | a completion is recorded and followed by a tick; an unknown step is refused |
| PipelineRuns.TickIdempotent | src/office/autonomous-pipeline.ts:275-342 | ticking twice is ticking once, for every pipeline state |
| PipelineRuns.ClosedIsLeftAlone | src/office/autonomous-pipeline.ts:281-283 | a tick leaves exactly completed, failed and cancelled pipelines alone |
| PipelineRuns.TickMeaning | src/office/autonomous-pipeline.ts:285-338 | where a tick takes each step and the pipeline, in terms of completed dependencies, checkpoints and earlier statuses |
| PipelineRuns.RefusedTick | src/office/autonomous-pipeline.ts:315-319 | an open step whose checkpoint was rejected fails with the pipeline, and the steps after it are not looked at |
| PipelineRuns.FailedIsAbsorbing | src/office/autonomous-pipeline.ts:281-283 | a failed pipeline stays failed under any calls |
| PipelineRuns.RejectionFails | src/office/autonomous-pipeline.ts:315-319 | in any run a rejected checkpoint is only ever found in a failed pipeline |
| PipelineRuns.CreatedNotRejected | src/office/autonomous-pipeline.ts:197-225 | a created pipeline satisfies it, so it holds from creation on |
| PipelineRuns.CompletedStaysClosed | src/office/autonomous-pipeline.ts:275-403 | in every state of every disciplined run the completed steps are closed under dependencies |
| PipelineRuns.TickSettles | src/office/autonomous-pipeline.ts:297-338 | a tick brings every step and the pipeline to the status their dependencies and checkpoints determine |
| PipelineRuns.FirstTickSettles | src/office/autonomous-pipeline.ts:183-247 | the first tick of a created pipeline leaves exactly steps plus checkpoints to do |
| PipelineRuns.OpSettles | src/office/autonomous-pipeline.ts:347-403 | each completion or grant uses up exactly one of what remains, and keeps gates held that were |
| PipelineRuns.SomeStepCanMove | src/office/autonomous-pipeline.ts:300-306 | in an admitted pipeline with open steps some open step has all its dependencies completed |
| PipelineRuns.Progress | src/office/autonomous-pipeline.ts:331-338 | in every settled pipeline, gates bypassed or not: RUNNING means a READY step exists, WAITING_APPROVAL means a step awaits its checkpoint, and nothing else but COMPLETED is left: no deadlock |
| PipelineRuns.DoneIffNothingRemains | src/office/autonomous-pipeline.ts:331-333 | COMPLETED exactly when no step and no checkpoint is left |
| PipelineRuns.ExactRun | src/office/autonomous-pipeline.ts:275-403 | completions and grants in any order reach COMPLETED after exactly the remaining number, never later, and until then another one is possible |
| PipelineRuns.CreatedRunsToCompletion | src/office/autonomous-pipeline.ts:183-403 | created and ticked: COMPLETED after exactly steps plus checkpoints operations |
| PipelineRuns.FirstOpSettles | src/office/autonomous-pipeline.ts:347-403 | a first operation straight after creation, without a tick, also settles the pipeline, and uses up the checkpoint too when it completes a step that has one |
| PipelineRuns.UntickedRunsToCompletion | src/office/autonomous-pipeline.ts:183-403 | operations straight after creation: COMPLETED after exactly steps plus checkpoints operations, one less exactly when the first of them goes through an undecided gate |
| PipelineRuns.GateBypassedExactlyWhen | src/office/autonomous-pipeline.ts:222-223 | completing a READY step before the first tick bypasses its gate exactly when it has a checkpoint |
| PipelineRuns.GateBypassExample | src/office/autonomous-pipeline.ts:214-224 | a one-step pipeline completes with its checkpoint undecided |
| PipelineRuns.CreatedFields | src/office/autonomous-pipeline.ts:197-239 | a new pipeline holds its steps as given, ready without dependencies, undecided with a checkpoint |
| PipelineRuns.RejectionRecorded | src/office/autonomous-pipeline.ts:364-376 | a rejection is recorded on its step, which fails and fails the pipeline, and nothing else changes |
| PipelineRuns.GrantRecorded | src/office/autonomous-pipeline.ts:364-376 | a grant is recorded on its step, which is ready or waits for a dependency again, and no other decision changes |
| PipelineRuns.CompletionRecorded | src/office/autonomous-pipeline.ts:393-402 | a completion is recorded on its step, and no decision changes |
| MissionLoop.AnalyzeGaps | src/office/autonomy-loop.ts:168-221 | the loop reports, target by target, the gaps of the specification function |
| MissionLoop.CalculateUnblockingLeverage | src/office/autonomy-loop.ts:227-237 | counts the unverified capabilities that depend directly on the given one, in whatever order they are visited |
| MissionLoop.BestIndex | src/office/autonomy-loop.ts:265-303 | the first actionable gap of highest score, and none exactly when none is actionable |
| MissionLoop.EveryGapHasItsTarget | src/office/autonomy-loop.ts:168-221 | gaps and unverified targets correspond, and a gap is actionable exactly when its dependencies are verified |
| MissionLoop.ActionMeaning | src/office/autonomy-loop.ts:245-321 | COMPLETE exactly when all targets are verified, BLOCKED_REVIEW exactly when some are not and none can move; otherwise the target is unverified and ready, and high risk exactly for foundation and context |
| MissionLoop.UpdateKeepsVerified | src/office/autonomy-loop.ts:358-390 | an update loses no verified capability and verifies exactly its own |
| MissionLoop.UpdateKeepsClosed | src/office/autonomy-loop.ts:358-390 | a dependency-closed verified set stays closed |
| MissionLoop.PartialKeepsLeverage | src/office/autonomy-loop.ts:227-237 | PARTIAL changes nobody's leverage |
| MissionLoop.BestStaysBest | src/office/autonomy-loop.ts:282-303 | when only the selected capability's gaps gain score, the selection stays |
| MissionLoop.DependentsOutweigh | src/office/autonomy-loop.ts:284-301 | two more direct dependents win against any severity and status; one more loses in exactly one case |
| MissionLoop.InFlightOutweighs | src/office/autonomy-loop.ts:287-290 | with equal leverage, work in flight beats one level of severity but not two |
| MissionLoop.SelectedHasMostDependents | src/office/autonomy-loop.ts:282-303 | no ready target has two more direct dependents than the selected one |
| SelectionOrder.HigherScoreOutranks | src/office/autonomy-loop.ts:282-298 | the scores order gaps exactly by dependents, category and work in flight as `Outranks` says |
| SelectionOrder.SelectedExactlyWhen | src/office/autonomy-loop.ts:245-321 | the selected target is exactly the first of the best: ready, outranking every ready target listed before it, outranked by none |
| SelectionOrder.CategoriesInOrder | src/office/autonomy-loop.ts:194-201 | with equally many dependents and equal progress, foundation and context go before research, feedback and the unregistered, and these before the rest |
| SelectionOrder.EachDecides | src/office/autonomy-loop.ts:284-301 | all else equal, dependents and work in flight each decide |
| SelectionOrder.ActionFields | src/office/autonomy-loop.ts:306-316 | work in flight is only verified; exactly when the priority is 3 |
| MissionLoop.FailureIsRetried | src/office/autonomy-loop.ts:282-303 | after a failed validation the next cycle selects the same capability, registered or not |
| MissionLoop.SolvableAdvances | src/office/autonomy-loop.ts:245-321 | on an acyclic graph with closed targets a cycle always finds a target of medium risk to advance |
| MissionLoop.VerifyingKeepsSolvable | src/office/autonomy-loop.ts:358-390 | verifying a target removes exactly it from the open targets and keeps the mission solvable |
| MissionLoop.RegistrationKeepsAcyclic | src/office/autonomy-loop.ts:373-382 | registering an unknown capability closes no cycle |
| MissionController.AutonomyStateRepository.Acquire | src/office/autonomy-state-repository.ts:328-399 | a cycle record is acquired exactly when there is none |
| MissionController.AutonomyStateRepository.UpdateRecord | src/office/autonomy-state-repository.ts:400-470 | an update changes the named fields of an existing record only |
| MissionController.AutonomyStateRepository.SaveCurrentState | src/office/autonomy-state-repository.ts:231-262 | a saved state replaces that of its mission only |
| MissionController.AutonomousExecutionController.Recover | src/office/autonomous-execution-controller.ts:201-272 | the recovery branch writes and returns what its plan says |
| MissionController.AutonomousExecutionController.Validate | src/office/autonomous-execution-controller.ts:491-554 | verified exactly if the worker completed, the finalizer completed without failed tests, error message or validation errors, and there is a file, a commit or a snippet; the state becomes VERIFIED, PARTIAL or stays |
| MissionController.AutonomousExecutionController.Execute | src/office/autonomous-execution-controller.ts:418-600 | the durable writes of an execution, in order, its result and its next state |
| MissionController.AutonomousExecutionController.ExecuteCycle | src/office/autonomous-execution-controller.ts:128-604 | for every stored record, state and outcome: the writes, the repository afterwards, result, state and mission status of the cycle's plan; the in-process guard is released |
| MissionController.AutonomousExecutionController.ExecuteMissionContinuously | src/office/autonomous-execution-controller.ts:646-690 | the loop is the recursive run of cycles and stops at the first stopped cycle or the limit |
| MissionController.StoppedMeansReason | src/office/autonomous-execution-controller.ts:556-561 | a cycle stops the mission exactly when it gives a reason |
| CycleMeaning.UpdateIsExact | src/office/autonomy-loop.ts:358-390 | an update sets one status and keeps everything else; an unregistered capability becomes execution work without dependencies |
| CycleMeaning.VerifiedExactlyWhen | src/office/autonomous-execution-controller.ts:491-554 | a cycle that calls the worker leaves its target VERIFIED exactly under the evidence rule, spelled out in the fields of the outcome, and otherwise PARTIAL, or as it was if the worker was blocked |
| CycleMeaning.ExecutionReport | src/office/autonomous-execution-controller.ts:556-599 | what such a cycle reports, and that it stops exactly when blocked, or failed under the strict policy |
| CycleMeaning.ExecutionRecord | src/office/autonomous-execution-controller.ts:563-577 | its record is COMPLETED exactly when the target was verified, BLOCKED when the worker was, else FAILED |
| CycleMeaning.FreshExits | src/office/autonomous-execution-controller.ts:297-416 | exactly when a cycle pauses the mission, finishes it, finds it stuck, waits for approval, or calls the worker, and what it reports |
| CycleMeaning.WaitsForApproval | src/office/autonomous-execution-controller.ts:373-416 | a high-risk cycle is stored WAITING_APPROVAL and answers so from then on |
| CycleMeaning.RecoveredExactlyWhen | src/office/autonomous-execution-controller.ts:201-272 | recovery verifies the target exactly under its own evidence rule, spelled out in the fields of the row, and otherwise stores FAILED and changes no state |
| CycleMeaning.AdapterVerifiesExactlyWhen | src/office/autonomous-execution-controller.ts:76-106 | the same rule for an outcome that the adapter derives from the row, with the first list of files that is present |
| CycleMeaning.ReplayedAnswer | src/office/autonomous-execution-controller.ts:143-161 | a cycle stored COMPLETED is answered from the store |
| CycleMeaning.SecondCallIsRefused | src/office/autonomous-execution-controller.ts:183-199 | a second call of a cycle in execution is refused and touches nothing |
| CycleMeaning.EndsWithFirstStop | src/office/autonomous-execution-controller.ts:664-680 | the continuous loop ends with the first cycle that stops, or after its limit |
| CycleMeaning.AtMostSoManyCycles | src/office/autonomous-execution-controller.ts:662 | that limit is the caller's, else the mission's, else five |
| MissionRuns.CycleKeepsVerified | src/office/autonomous-execution-controller.ts:541-554 | a fresh cycle loses nothing verified, keeps closure, and after a failed validation leaves the same capability selected |
| MissionRuns.LoopKeepsVerified | src/office/autonomous-execution-controller.ts:646-690 | over the whole loop without a durable store nothing verified is lost and closure is kept, whatever the executor does |
| MissionRuns.LoopRetriesFailures | src/office/autonomous-execution-controller.ts:646-690 | over the whole loop, a cycle whose validation failed is followed by one that works on the same capability or stops |
| MissionRuns.SuccessfulCycle | src/office/autonomous-execution-controller.ts:296-600 | on a solvable mission a successful cycle verifies exactly one new target and does not stop |
| MissionRuns.StillUnused | src/office/autonomous-execution-controller.ts:418-430 | a fresh cycle stores a record of its own number only, so the numbers after it stay unused |
| MissionRuns.ExactCycleCount | src/office/autonomous-execution-controller.ts:646-690 | with or without the durable store: n open targets take exactly n + 1 cycles, n of them each verifying one target, if no later cycle of the mission is stored yet |
| MissionRuns.MissionCompletes | src/office/autonomous-execution-controller.ts:646-690 | with or without the durable store, the mission started by the continuous loop ends COMPLETED with every target verified |
| MissionRuns.RecoveryAcceptsVerified | src/office/autonomous-execution-controller.ts:205-209 | of the rows the normal path verifies, recovery accepts exactly those that carry evidence themselves |
| MissionRuns.SameCommitIsRecovered | src/office/autonomous-execution-controller.ts:93-105 | a row that carries the finalizer's commit is recovered |
| MissionRuns.NormalAcceptsRecovered | src/office/autonomous-execution-controller.ts:498-517 | of the rows recovery accepts, the normal path verifies exactly those without validation errors and with visible evidence |
| MissionRuns.RulesDisagreeExample | src/office/autonomous-execution-controller.ts:207-209 | a row with validation errors is verified by recovery only, and one whose only evidence is the finalizer's commit by the normal path only |
| MissionCrashes.SaveVerified | src/office/autonomous-execution-controller.ts:219-222 | saving the verified target keeps the invariant of every record of the mission |
| MissionCrashes.SavePartial | src/office/autonomous-execution-controller.ts:550-554 | saving a failed validation keeps every open record's capability selected |
| MissionCrashes.ExecutionSafe | src/office/autonomous-execution-controller.ts:418-577 | every prefix of the writes of an execution leaves a consistent store that lost nothing |
| MissionCrashes.RecoverySafe | src/office/autonomous-execution-controller.ts:201-272 | the same for crash recovery |
| MissionCrashes.CycleSafe | src/office/autonomous-execution-controller.ts:128-604 | the same for every branch of a cycle, which ends with its returned state saved |
| MissionCrashes.StepSound | src/office/autonomous-execution-controller.ts:139-275 | boot, write, next cycle, crash and foreign task changes keep the invariant |
| MissionCrashes.CrashSafety | src/office/autonomous-execution-controller.ts:139-275 | over any run with any crashes: a cycle stored COMPLETED has its target verified in the saved state, and nothing verified or completed is lost |
| MissionCrashes.FreshStart | src/office/autonomous-execution-controller.ts:418-421 | an empty store with a dependency-closed initial state satisfies the invariant |
| MissionCrashes.CompletedCycleNeverReruns | src/office/autonomous-execution-controller.ts:143-161 | a cycle stored COMPLETED calls no worker and writes nothing, whatever happened in between |
| MissionRecovery.RecoveringLife | src/office/autonomous-execution-controller.ts:182-246 | a restarted life reaches the goal without the worker and stays recoverable at each of its own crashes |
| MissionRecovery.CrashTransparency | src/office/autonomous-execution-controller.ts:139-275 | any number of crashes after the worker finished leads to the statuses of the undisturbed run, the cycle stored COMPLETED and no further worker call |
| MissionRecovery.TransparentExactlyWhen | src/office/autonomous-execution-controller.ts:163-275 | for a crash at any write from the acquisition of the cycle on: every sequence of restarts is transparent if and only if the cycle was closed already, or the worker had finished and recovery's evidence rule accepts its row |
| MissionRecovery.StageReached | src/office/autonomous-execution-controller.ts:418-466 | what an execution has left in the store after each of its writes |
| MissionRecovery.StatusesReachedExactlyWhen | src/office/autonomous-execution-controller.ts:201-272 | the statuses alone are reached also after a crash between the two closing writes, where a refused row still closes the cycle as FAILED |
| MissionRecovery.AdapterTransparentExactlyWhen | src/office/autonomous-execution-controller.ts:93-126 | with an outcome that the adapter derives from the same row: transparent exactly when the row itself carries a commit or changed files, or the cycle was closed |
| MissionRecovery.EndedBadlyCallsAgain | src/office/autonomous-execution-controller.ts:139-447 | a cycle stored FAILED or BLOCKED is not crash transparent: after a crash before its closing writes a restart calls the worker again |
| RouterRetry.Prepare | src/router-worker.ts:298-373 | both checks of the deadline and the workspace are those of the plan; a workspace made too late is removed |
| RouterRetry.CallProvider | src/router-worker.ts:376-531 | the call is that of the plan: made exactly with time left and an engine that gets there, its length clipped by the timer, the winner of the race as outcome |
| RouterRetry.BackOff | src/router-worker.ts:795-810 | the pause is that of the plan: the linear backoff clipped to the remaining budget, and none once that is used up |
| RouterRetry.ExecuteWithRetry | src/router-worker.ts:266-912 | for every chain, outcome and clock the result, the calls and pauses, the workspaces and the clock are those of the run that the following rows describe |
| RetryMeaning.AttemptMeaning | src/router-worker.ts:298-873 | how an attempt ends, which call and pause it takes and which workspaces it makes and removes, in terms of the outside world alone |
| RetryMeaning.MadeExactly | src/router-worker.ts:295-296 | attempt i is made exactly when every attempt before it was retried |
| RetryMeaning.RunMeaning | src/router-worker.ts:266-912 | the calls, pauses and workspaces of a run are those of the attempts made and of no others, and its exit that of the last of them |
| RetryMeaning.CallsOf | src/router-worker.ts:417-531 | each attempt has one call if it is made with time left and its engine calls the provider, and none otherwise |
| RetryMeaning.ExitMeaning | src/router-worker.ts:607-912 | each exit is taken exactly when the last attempt made ends that way; in particular a setup failure is reported exactly when setup or engine threw before the deadline |
| RetryMeaning.WinsExactlyWhen | src/router-worker.ts:607-650 | an attempt wins exactly when both checks of the deadline passed, workspace and setup succeeded, and the answer is COMPLETED and not cancelled |
| RetryMeaning.BreaksExactlyWhen | src/router-worker.ts:811-873 | an attempt ends in a setup failure exactly when setup or engine threw after both checks of the deadline passed, and the deadline had not passed when that was caught |
| RetryStatuses.TransientIsRetried | src/router-worker.ts:53-82 | a timeout, a connection error, 429 and 500 to 599 never end the run as a provider's failure, and the next provider is tried exactly when there is one and time is left after the pause |
| RetryStatuses.PermanentEndsTheRun | src/router-worker.ts:727-765 | any other failure, and an HTTP error with any other code or none, ends the run there |
| RetryStatuses.CompletedWins | src/router-worker.ts:657-709 | a completed answer wins and ends the run |
| RetryStatuses.OnlyExhaustionEnds | src/router-worker.ts:877-912 | a run in which every attempt is retried ends with the chain exhausted |
| RetryStatuses.PauseIsLinear | src/router-worker.ts:801-805 | the pause is the backoff times the number of the attempt, at most what is left, never negative |
| RetryStatuses.HeardExactlyWhen | src/router-worker.ts:478-513 | a provider is heard exactly when it answers before the timer of its attempt |
| RetryStatuses.ThrowingIsNotHeard | src/router-worker.ts:520-537 | an engine that throws is not heard, and one that answers alone is heard as it is |
| RetryStatuses.CallsAreCapped | src/router-worker.ts:378-381 | no call lasts longer than the timeout per attempt |
| RetryStatuses.BreakTrace | src/router-worker.ts:814-840 | the trace of a setup failure, whose timeout takes the elapsed time off the budget twice |
| RetryResults.RunAgrees | src/router-worker.ts:266-912 | one consistent trace on every exit, COMPLETED exactly with a unique winner which is the last attempt, all earlier attempts retryable and cleaned, one workspace at a time and only the winner's left, calls and pauses in order and within the budget plus the lag of each |
| RetryDeadline.CallAgainstDeadline | src/router-worker.ts:376-381 | a call starts at or after the deadline exactly when the lag uses up what was left when its timeout was fixed, and ends late exactly when lag and length exceed it |
| RetryDeadline.CanBeLateExactlyWhen | src/router-worker.ts:376-381 | some provider can make a call late exactly when the lag exceeds what the timeout leaves unused |
| RetryDeadline.DeadlineKeptExactlyWhen | src/router-worker.ts:286-287 | no call and no pause of a run starts at or after the deadline or extends past it exactly when the lag of every attempt that calls its provider fits |
| RetryDeadline.NoLagNoDelay | src/router-worker.ts:376-381 | without lag the deadline is kept |
| RetryDeadline.OverrunExample | src/router-worker.ts:376-381 | a run that completes twice its budget after its start |
| RetryDeadline.BudgetKept | src/router-worker.ts:286-287 | a run that keeps the deadline spends at most the total budget in calls and pauses |
| RouterRetry.CatchError | src/router-worker.ts:811-873 | a failure removes the workspace and ends the run, as a total timeout exactly when the deadline has passed |
| RetryResults.ChainGrows | src/router-worker.ts:596-604 | each attempt's fallback chain is a prefix of the next one's |
| RetryResults.LastAttempt | src/router-worker.ts:607-770 | the result of a final attempt agrees with its trace, by exit |
| RetryDeadline.DurationsFit | src/router-worker.ts:286-287 | calls and pauses together last at most the total budget, plus the lag of the last call |
| RetryResults.AttemptLimit | src/router-worker.ts:283-284 | at most the configured attempts for a non-negative limit; a negative one drops providers from the end |
| TaskLeases.SomeFirst | src/repository.ts:156-157 | ordering and limiting to one row finds a row whenever there is a candidate |
| TaskLeases.PostgresTaskRepository.Claim | src/repository.ts:137-162 | a claim takes a first candidate by priority and age whose product has no live lease or fewer than the limit, with a fresh lease, and nothing exactly when there is no candidate |
| TaskLeases.PostgresTaskRepository.ClaimPrototype | src/repository.ts:184-197 | the same for queued prototype tasks, without the product limit |
| TaskLeases.PostgresTaskRepository.ReclaimStuck | src/repository.ts:219-226 | exactly the expired and quiet tasks are queued again, and counted |
| TaskLeases.PostgresTaskRepository.Heartbeat | src/repository.ts:246-250 | renews exactly active tasks, whoever owns them |
| TaskLeases.PostgresTaskRepository.Update | src/repository.ts:265-281 | writes the patched columns of one task unconditionally |
| TaskLeases.PostgresTaskRepository.RecoverStaleTask | src/repository.ts:324-347 | patches a task exactly when its lease is still expired |
| TaskStatements.ClaimTakesMostUrgent | src/repository.ts:137-162 | column by column: nothing is claimed exactly when nothing is claimable; else the task of the highest priority and, within it, the greatest age, which gets a lease of thirty seconds, and no other row changes |
| TaskStatements.PrototypeClaimTakesMostUrgent | src/repository.ts:184-197 | the same for queued prototypes, without a limit |
| TaskStatements.RenewalMeaning | src/repository.ts:246-250 | a renewal moves the deadline of a task in work and nothing else |
| TaskStatements.WorkMeaning | src/worker-service.ts:462-468 | the worker's status changes write its lease, the terminal one clears it |
| TaskStatements.RecoveryMeaning | src/repository.ts:324-347 | a reaper's decision is written exactly if the lease has still expired: requeued with a delay, quarantined or failed, without worker and lease |
| TaskStatements.RequeuedIsClaimable | src/repository.ts:149-155 | a requeued task is claimable exactly once its delay has passed and its project has room |
| TaskStatements.ReclaimMeaning | src/repository.ts:219-226 | expired tasks that nobody wrote for five seconds are queued under the reaper's name |
| LeaseRuns.LiveLeaseUntouched | src/repository.ts:137-263 | nothing but its own process touches a live lease |
| LeaseRuns.StepKeepsLeases | src/worker-service.ts:391-469 | each step keeps: every prompt process owns its task in the table, no two share one, finished tasks stay terminal |
| LeaseRuns.RunKeepsLeases | src/worker-service.ts:448-469 | the same over whole runs |
| LeaseRuns.ClaimStartsAlone | src/repository.ts:137-162 | a claim puts its process alone on the task exactly when nobody is still on it and nobody finished it |
| LeaseRuns.StepKeepsAlone | src/worker-service.ts:448-469 | no step of anybody changes that while the process itself is in time |
| LeaseRuns.KeepsItsTask | src/worker-service.ts:448-469 | a process alone on its task that renews in time itself keeps the task, live and its own, until it finishes or crashes, however late the other processes are; nobody else is handed it |
| LeaseRuns.OverForever | src/repository.ts:137-263 | a task in a terminal status that no process is on keeps its whole row for ever |
| LeaseRuns.FinishedForever | src/worker-service.ts:786-812 | after the terminal update of a process alone on its task the row never changes and no claim returns the task, however late anybody is |
| LeaseRuns.TakenExactlyWhenLate | src/repository.ts:324-347 | the reaper can take a task from a process that owns it if and only if the process let its deadline pass |
| LeaseRuns.LateProcessOverwrites | src/repository.ts:246-281 | a run in which a late process takes the task from its new owner |
| WorkerSteps.BaseWorker.Work | src/worker-service.ts:462-468 | a status change that renews the lease is a step of the protocol and touches nothing else |
| WorkerSteps.BaseWorker.Beat | src/worker-service.ts:448-453 | any number of timer firings are protocol steps on the worker's own task |
| WorkerSteps.BaseWorker.Finish | src/worker-service.ts:786-812 | the terminal update clears the lease and ends the job |
| WorkerSteps.BaseWorker.Pursue | src/worker-service.ts:400-841 | from the claim on, every course of the pass ends the task in its status, and is in time throughout if its delays fit the leases |
| WorkerSteps.StatusByCourse | src/worker-service.ts:777-833 | completed only if everything went well, blocked by governance or by the finalizer, else failed |
| WorkerSteps.BaseWorker.ExecuteOnce | src/worker-service.ts:381-841 | a pass works exactly when governance lets it claim and there is a candidate; then a first candidate is left COMPLETED, BLOCKED or FAILED exactly as governance, spec, agent and finalizer went, without a lease, all other tasks untouched; the steps are a run of the lease protocol, in time throughout if the delays of the pass fit its leases |
| LeaseLimits.OnlyAwakened | src/repository.ts:137-281 | of all steps only claims, and renewals of a task that is not live by a deadline ahead, make a lease live, and only that one |
| LeaseLimits.ClaimHasRoom | src/repository.ts:140-155 | a claim counts fewer live leases than are enforced |
| LeaseLimits.StepKeepsLimit | src/repository.ts:137-281 | whoever is late: a step keeps the limit exactly when the task that it brings to life without asking, by a prototype claim or a late renewal, finds room in its product |
| LeaseLimits.RunKeepsLimit | src/repository.ts:140-155 | over any run whose revivals find room no product ever has more live leases than the limit, or than one for a limit below one |
| LeaseLimits.PromptRevivesNothing | src/worker-service.ts:448-469 | processes that renew in time revive nothing |
| LeaseLimits.PromptRunKeepsLimit | src/repository.ts:140-155 | so their runs without prototype claims keep the limit |
| LeaseLimits.FirstClaimIgnoresLimit | src/repository.ts:149-155 | a product without live leases is given one whatever the limit is |
| LeaseLimits.LimitMeantExactlyWhen | src/repository.ts:140-155 | the configured limit itself is respected in all such runs if and only if it is at least one |
| LeaseLimits.LateRenewalBreaksLimit | src/repository.ts:246-250 | a renewal after the deadline, in a product without room, exceeds the limit |
| ClaimOrder.QueuedIsCandidate | src/repository.ts:149-155 | in an unthrottled queue the candidates are exactly the queued tasks |
| ClaimOrder.ClaimTakesHead | src/repository.ts:148-162 | a claim takes the first queued task of the list |
| ClaimOrder.DrainFollowsList | src/repository.ts:108-165 | successive claims hand out the queued tasks in exactly the order the list shows, then nothing |
| ClaimOrder.ListIsByUrgency | src/repository.ts:108-112 | the list shows the tasks by falling priority and, within a priority, by age |
| ClaimOrder.DrainIsByUrgency | src/repository.ts:148-162 | successive claims never hand out a task after a less urgent one |
| SpecCanonical.SortFieldsSorts | src/execution/execution-spec-persistence.ts:34 | sorting keys orders the fields strictly and keeps them all |
| SpecCanonical.SortedIsUnique | src/execution/execution-spec-persistence.ts:34 | there is one sorted order of a set of fields |
| SpecCanonical.PutAllKeeps | src/execution/execution-spec-persistence.ts:33-36 | the rebuilt object has each field once, except those named `__proto__` |
| SpecCanonical.CanonicalForm | src/execution/execution-spec-persistence.ts:30-40 | two values have the same canonical form exactly when they are equal up to key order at every depth, fields named `__proto__` aside |
| SpecCanonical.CanonicalFormDecides | src/execution/execution-spec-persistence.ts:30-40 | without such fields: exactly when equal up to key order |
| SpecCanonical.ProtoFieldIsLost | src/execution/execution-spec-persistence.ts:35 | values that differ in such a field collide |
| SpecCanonical.Idempotent | src/execution/execution-spec-persistence.ts:30-40 | canonicalisation is idempotent |
| SpecCanonical.LexicographicWithoutIndexKeys | src/execution/execution-spec-persistence.ts:28 | canonical keys of an object are in lexicographic order when none reads as an array index |
| SpecCanonical.IndexKeysAreNumeric | src/execution/execution-spec-persistence.ts:28 | with index keys they are not |
| SpecCanonical.CanonicalKeyOrder | src/execution/execution-spec-persistence.ts:28-36 | canonical objects list their index keys first and in numeric order, the other keys after them in lexicographic order |
| SpecCanonical.ObjectSortedExactlyWhen | src/execution/execution-spec-persistence.ts:28-36 | the keys of a canonical object are in lexicographic order exactly when for its own keys both orders agree |
| SpecCanonical.LexicographicExactlyWhen | src/execution/execution-spec-persistence.ts:28-36 | a canonical value is sorted lexicographically at every depth exactly when for every object in it both orders agree on its keys |
| SpecCanonical.CanonicalIsEnumerated | src/execution/execution-spec-persistence.ts:30-40 | canonicalisation yields values in an order in which objects enumerate their keys |
| KeyOrders.IndexKeyExactlyWhen | src/execution/execution-spec-persistence.ts:35 | the keys enumerated first are exactly the decimal numerals of the numbers below 2^32 - 1 |
| KeyOrders.IndicesInNumericOrder | src/execution/execution-spec-persistence.ts:35 | they are compared as numbers |
| KeyOrders.LessMeaning | src/execution/execution-spec-persistence.ts:34 | strings are compared by the first character in which they differ |
| SpecHash.HashIgnoresItself | src/execution/execution-spec-persistence.ts:42-61 | writing any value into metadata.specHash leaves the hash unchanged |
| SpecHash.HashIgnoresKeyOrder | src/execution/execution-spec-persistence.ts:42-61 | specs that differ in key order only, at any depth, hash alike |
| SpecHash.WithSpecHashEnumerated | src/execution/execution-spec-persistence.ts:42-61 | writing the hash into a spec keeps the order in which objects enumerate their keys |
| SpecHash.OnlyTheHashIsWritten | src/execution/execution-spec-persistence.ts:44-50 | writing the hash sets metadata.specHash and nothing else |
| SpecHash.HashedTextDecides | src/execution/execution-spec-persistence.ts:42-61 | the text digested is the same exactly for specs equal up to key order once their hash is empty, fields named `__proto__` aside |
| SpecStore.ExecutionSpecs.CreateExecutionSpec | src/execution/execution-spec-persistence.ts:207-245 | a valid spec of a new task is appended unsealed; otherwise nothing changes |
| SpecStore.ExecutionSpecs.QueryUpdateStatus | src/execution/execution-spec-persistence.ts:159-199 | a sealed record is refused; otherwise exactly the record of the task changes |
| SpecStore.ExecutionSpecs.SealExecutionSpec | src/execution/execution-spec-persistence.ts:259-326 | seals with the canonical hash after every check in order; a failed check changes nothing |
| SpecStore.ExecutionSpecs.VerifyExecutionSpecIntegrity | src/execution/execution-spec-persistence.ts:347-383 | true exactly for a sealed record with valid content that carries its own hash |
| SpecStore.ExecutionSpecs.AssertSealedExecutable | src/execution/execution-spec-persistence.ts:390-429 | the record, or the first objection |
| SpecStore.SealingIsValid | src/execution/execution-spec-persistence.ts:259-326 | what sealing writes is valid content with a matching hash |
| SpecStore.StepKeeps | src/execution/execution-spec-persistence.ts:159-326 | create and seal keep one record per task and valid seals, and touch no sealed record |
| SpecStore.RunKeeps | src/execution/execution-spec-persistence.ts:159-326 | the same over any run |
| SpecStore.SealedMeansExecutable | src/execution/execution-spec-persistence.ts:347-429 | in every reachable store, verification accepts exactly the sealed tasks and execution returns their record |
| SpecStore.SealIsFinal | src/execution/execution-spec-persistence.ts:268-275 | after a seal every later seal returns that record unless it names another hash |
| SpecStore.CreatesExactlyWhen | src/execution/execution-spec-persistence.ts:207-245 | creating succeeds exactly for valid content of a task without record, which is stored unsealed as it came |
| SpecStore.SealsExactlyWhen | src/execution/execution-spec-persistence.ts:278-323 | sealing an unsealed record succeeds exactly if its content parses, is valid, and has the hash the caller names, if any; which check answers otherwise; and what is written |
| SpecStore.SealsAgainExactlyWhen | src/execution/execution-spec-persistence.ts:269-276 | a sealed record is answered unless the caller names another hash |
| SpecStore.NothingToSeal | src/execution/execution-spec-persistence.ts:264-267 | without a record there is nothing to seal, verify or execute |
| SpecStore.VerifiesExactlyWhen | src/execution/execution-spec-persistence.ts:347-383 | the checks of verification on an arbitrary record |
| SpecStore.ExecutableExactlyWhen | src/execution/execution-spec-persistence.ts:409-429 | exactly which records are executable, and the objection to the others |
| ContextBudget.Deduplicate | src/office/context-assembly.ts:501-511 | keeps the first block of each id and reports the others |
| ContextBudget.EnforceBudget | src/office/context-assembly.ts:535-604 | the three budget branches are one rule per authority class |
| ContextBudget.AssembleContext | src/office/context-assembly.ts:501-604 | deduplicate, sort, then enforce the budget |
| ContextBudget.UniqueKeepsFirst | src/office/context-assembly.ts:502-511 | kept blocks have distinct ids and each is the first of its id |
| ContextBudget.NothingLost | src/office/context-assembly.ts:501-604 | included, dropped and duplicate blocks together are the input, id by id and in number |
| ContextBudget.SortSorts | src/office/context-assembly.ts:523-533 | the result is sorted by authority, priority and id |
| ContextBudget.SortedByFields | src/office/context-assembly.ts:513-533 | current context before governed before historical, then higher priority, then the id |
| ContextBudget.OrderDoesNotMatter | src/office/context-assembly.ts:513-533 | blocks with distinct ids and no ties give the same context in any input order |
| ContextBudget.SortIsStable | src/office/context-assembly.ts:523-533 | tied blocks keep their input order |
| ContextBudget.TiesFollowInput | src/office/context-assembly.ts:523-533 | for any blocks of distinct ids: every input order gives the same context exactly when no two of them tie, that is, when no two of equal authority and priority have ids that collate as equal |
| ContextBudget.BudgetHolds | src/office/context-assembly.ts:535-604 | each class uses at most its limit plus the suffix, cuts at most one block, its last, and wastes at most 100 characters once it dropped one |
| ContextBudget.BudgetByClass | src/office/context-assembly.ts:535-604 | each class counts the characters of its own blocks against its own limit |
| ContextBudget.DroppedDoesNotFit | src/office/context-assembly.ts:544-604 | nothing that would still fit is dropped |
| ContextBudget.IncludedFollowsOrder | src/office/context-assembly.ts:544-604 | included blocks are whole or cut originals, in sorted order |
| MemoryStore.OrganizationalMemoryStore.Create | src/office/memory.ts:400-495 | validation errors change nothing; a known key counts once more; otherwise one memory is added |
| MemoryStore.OrganizationalMemoryStore.Supersede | src/office/memory.ts:523-548 | links old to new exactly when the governance rules allow it |
| MemoryStore.CreateErrors | src/office/memory.ts:401-416 | the error of each refused input |
| MemoryStore.CreateAdds | src/office/memory.ts:435-460 | the memory that is added, with its defaults |
| MemoryStore.SameMemoryExactlyWhen | src/office/memory.ts:419-434 | without colons, creates are counted on one memory exactly when tenant, project, type and name agree, the name being event, task, rule or title |
| MemoryStore.SupersedesExactlyWhen | src/office/memory-governance.ts:115-158 | exactly which supersessions governance allows, and what one changes |
| MemoryStore.CountsAndKeys | src/office/memory.ts:419-434 | recurrence counts add up to the successful creates, and no two memories share a dedupe key |
| MemoryStore.KeyIdentifies | src/office/memory.ts:419-420 | without colons in tenant and project equal keys mean equal tenant, project, type and identity |
| MemoryStore.ColonsConfuse | src/office/memory.ts:419-420 | a colon in the tenant can be read as part of the project: every such tenant shares its keys with another owner |
| MemoryStore.AcceptedNames | src/office/memory.ts:400-418 | tenants and projects that create accepts are non-empty and trimmed |
| MemoryStore.SharedExactlyWhen | src/office/memory.ts:419-420 | a key belongs to another owner as well exactly when two other colons of it leave trimmed names before and a type name behind them |
| MemoryStore.OwnersMerge | src/office/memory.ts:419-434 | creates with equal keys are counted on one memory, which keeps its first owner |
| MemoryStore.OwnersMergeExample | src/office/memory.ts:419-434 | creates of two tenants that merge |
| SupersessionLinks.StepOrdered | src/office/memory-governance.ts:115-158 | every create and supersede keeps an order in which all links lead forward |
| SupersessionLinks.RunOrdered | src/office/memory.ts:400-548 | every run has such an order |
| SupersessionLinks.ChainsEnd | src/office/memory.ts:523-548 | every chain of replacements ends within the number of memories and none returns to its start |
| SupersessionLinks.InactiveStays | src/office/memory.ts:429-434 | creates and supersessions never revive a superseded or blocked memory or change its replacement |
| SupersessionLinks.StepCloses | src/office/memory.ts:400-548 | one operation on a store whose metadata names form no loop makes one exactly when it replaces or adds a memory to which those names lead already from its replacement |
| SupersessionLinks.LoopsExactlyWhen | src/office/memory.ts:400-548 | a run is free of such loops throughout exactly when none of its operations closes one |
| SupersessionLinks.UnnamedNeverCloses | src/office/memory.ts:523-548 | a replacement that names nothing itself closes none |
| SupersessionLinks.MetadataCanLoop | src/office/memory.ts:450 | two memories that name each other, because callers may supply the field |
| PatternEvidence.AddLists | src/office/pattern-detection.ts:168-180 | appending without duplicates lists exactly the identifiers seen |
| PatternEvidence.ReinforcedCounts | src/office/pattern-detection.ts:162-195 | one more observation keeps the counters equal to those of the whole log |
| PatternEvidence.IncrementalIsBatch | src/office/pattern-detection.ts:127-336 | after any observations each pattern's counters, tasks and agents are those recomputed from the log of its key |
| PatternEvidence.SourcesAreListed | src/office/pattern-detection.ts:168-174 | each pattern lists exactly the memories and events of its log |
| PatternOrder.OrderDoesNotMatter | src/office/pattern-detection.ts:127-336 | the same observations in another order give the same counters, tasks and agents |
| LessonGovernance.LessonCandidateEngine.EvaluateAndUpsertCandidate | src/office/lesson-candidate.ts:142-350 | the candidate's status follows from its pattern, its earlier status and the contradiction |
| LessonGovernance.LessonCandidateEngine.RejectCandidate | src/office/lesson-validation.ts:245-263 | exactly the candidate's status becomes REJECTED |
| LessonGovernance.PatternDetectionEngine.ProcessObservation | src/office/pattern-detection.ts:127-336 | an accepted observation is counted on its pattern and its candidate is evaluated again; others change nothing |
| LessonGovernance.LessonValidationEngine.ValidateAndInstitutionalizeOperational | src/office/lesson-validation.ts:174-194 | a lesson is made exactly of a valid candidate that needs no CEO approval |
| LessonGovernance.LessonValidationEngine.ApproveAndInstitutionalizeByCEO | src/office/lesson-validation.ts:199-240 | a lesson is made exactly of a valid candidate of the CEO's tenant |
| LessonMeaning.CountsExactlyWhen | src/office/pattern-detection.ts:127-147 | which observations count, and that each adds one to one pattern |
| LessonMeaning.PatternFields | src/office/pattern-detection.ts:128-161 | the fields of a new pattern with their defaults, which later observations leave alone |
| LessonMeaning.SamePattern | src/office/pattern-detection.ts:128-160 | observations whose trimmed fields agree belong to one pattern |
| LessonMeaning.EvaluationMeaning | src/office/lesson-candidate.ts:76-180 | the status of a candidate from three tasks, a remediation, a confirmation, contradictions and its earlier status |
| LessonMeaning.KindExactlyWhen | src/office/lesson-candidate.ts:153-165 | security by the rule, architecture by the component, testing by the type of the task |
| LessonMeaning.OperationalExactlyWhen | src/office/lesson-validation.ts:80-194 | exactly which candidates become lessons without the CEO, and the objection to the others |
| LessonMeaning.ApprovalExactlyWhen | src/office/lesson-validation.ts:199-240 | exactly which become lessons by the CEO, of what kind and scope |
| LessonMeaning.SensitivePatternsNeedTheCEO | src/office/lesson-validation.ts:80-106 | in every run, lessons of security rules and of architecture, schema or migration components were approved by the CEO |
| LessonRuns.StepTracks | src/office/lesson-candidate.ts:142-350 | every operation keeps candidates in step with their patterns |
| LessonRuns.EligibleExactlyWhen | src/office/lesson-candidate.ts:76-187 | an unrejected candidate is ELIGIBLE exactly when its log has three distinct tasks, a remediation and a confirmation, and no contradiction stands |
| LessonRuns.StatusStays | src/office/lesson-candidate.ts:168-180 | an eligible candidate stays so until rejected or contradicted; a rejected one stays rejected |
| LessonRuns.StaysEligible | src/office/lesson-candidate.ts:168-180 | the same over any later run |
| LessonRuns.LessonsAreWellFounded | src/office/lesson-validation.ts:125-239 | every lesson rests on at least three distinct tasks of its pattern's log, and sensitive ones were approved by the CEO |
| RateLimiter.RateLimit.CheckRateLimit | src/api-worker.ts:1245-1260 | one request against one client's window, leaving the others alone |
| RateLimiter.RunExplained | src/api-worker.ts:1245-1260 | the record of a client explains its accepted requests by the open window and the one before |
| RateLimiter.AtMostTwice | src/api-worker.ts:1245-1260 | any stretch of the window's length holds at most 2m - 1 accepted requests of a client, m being the limit, at least one |
| RateLimiter.BoundIsReached | src/api-worker.ts:1249-1251 | that bound is reached |
| RateLimiter.RefusedWhenFull | src/api-worker.ts:1254-1256 | a request is refused only if the limit was accepted within the preceding window |
| RateLimiter.ClientsAreIndependent | src/api-worker.ts:1240-1247 | a client's requests are decided by that client's requests alone |

## Left out

* Collecting context blocks from the task, its evidence, lessons, skills and memories: the block list is an input.
* HTTP, git, process execution, provider calls, SQL drivers, events and rendering of prompts: input and output without a property to prove. What they yield enters as parameters.
* Clocks are one monotone integer clock per model; generated ids are parameters, assumed new where a lemma says so (`Fresh`, `NewId`); timestamps, evidence strings, titles and rationale texts are not modelled.
* Strings are sequences of Unicode scalar values, not of UTF-16 code units; comparison by locale is a parameter of `ContextBudget`, and upper case, text normalisation, digests, JSON text and the validators of specs are plain functions with the assumptions of `SpecStore.Sound`.
* JSON numbers are integers; `undefined`, functions and values that `JSON.stringify` changes are not modelled.
* Fallback from the database to memory in the middle of a run: each model uses one store. The in-memory claim, which ignores priority and the product limit, is not modelled; nor are rows locked by other transactions, since every statement is one step.
* The SQL form of the cycle update keeps a stop reason that is set to undefined; the model follows the in-memory form, which overwrites it. A first record acquired by another process between the read and the insert, which ends the cycle as a duplicate, is not modelled: one controller runs at a time.
* An exception thrown by intake or by the worker inside a cycle has the durable effect of a crash at that write; it is not modelled as an event of its own.
* The mission object that the controller changes in place is a returned value; so are the state snapshots. `recoverMission` and the preview of the next action only read.
* Mission runs with task rows changed by others are covered for safety (`TaskChanges`), not for `CrashTransparency`, which is about one cycle whose row the worker left.
* Status changes of patterns, candidates and memories by hand (`updateStatus`, transitions with an override), lesson supersession and revocation.
* The check for missing provenance in `validateCandidate`: candidates made by the engine always carry it.
* A lesson's supporting tasks are a copy; in the original the arrays are shared with the pattern and can only grow.
* Pipeline fields that no transition reads (assigned agents, summaries, current step), and pipelines with dependencies on unknown ids, for which progress does not hold.
* The limit on all context characters and the allowed sources of a role, which the code does not enforce; the observability fields of a retry trace (tier, fallback type, tokens, costs).
* Status-guarded cancel and retry of tasks, which the code does not have: lease runs contain neither.
* Keyword classification, decision tables, threshold metrics, approval records and the event buffer would only add easy members.
- RouterRetry.ExecuteWithRetry: removing a workspace and emitting lifecycle events are taken to succeed; the exit reason says which return was taken, not the provider's own error code; numbers read from the environment are integers, so NaN is not covered.
- WorkerSteps.BaseWorker.ExecuteOnce: one pass without interference, whose interleavings are the subject of LeaseRuns; a governance gate that throws before the work starts is a crash there, and a heartbeat still in flight at the end is a late heartbeat there.
- LeaseRuns.KeepsItsTask: assumes that the process is alone on the task to begin with, since one that slept while still on it can overwrite it; that crashed processes send nothing more; and that nobody cancels or retries the task from outside.
- TaskLeases.PostgresTaskRepository.Update: columns that no lease rule reads (results, branches, workspaces, heartbeat times) are not modelled.
- SpecStore.ExecutionSpecs.CreateExecutionSpec: the foreign key to the task table and the race of two creates between read and insert, which the unique index decides, are not modelled.
