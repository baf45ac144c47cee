# MoonFlow: a verified model of the workflow engine

MoonFlow runs workflows from an event log. Starting a workflow appends events while its steps execute; after a
crash the log is replayed and the run is taken up from what it says. This project models the engine, its log, the
saga, the circuit breakers, the retry combinators and the queries, and proves what they promise, for every
definition, every handler, every input and every history of crashes.

## How the model is laid out

| file | contents |
|---|---|
| Types.dfy, Replay.dfy | JSON, events, definitions; replay of a log, and the mutable state object that it drives |
| Execution.dfy | what the engine does, as functions on the whole system state; what a run leaves alone |
| Engine.dfy | the storage and the engine as classes, every method proved against Execution.dfy |
| Lifecycle.dfy, Progress.dfy, Invocations.dfy | properties for arbitrary handlers and arbitrary crashes: one life per log, at most one completion per step, calls and attempts, groups and batches |
| Protocol.dfy | the order of the events about attempts |
| Interpreter.dfy, CrashEquivalence.dfy, RecoveryLimits.dfy | a log-free interpreter, the engine as its refinement under any crashes, and exactly when that holds |
| Nesting.dfy, Carried.dfy, Encoding.dfy | termination of nested workflows, the carried value, what the log encodes |
| Compensation.dfy | the compensation plan of a failed workflow, over crashes and resumes |
| Queries.dfy, Timeliness.dfy, StatusReport.dfy, Snapshots.dfy | statistics, results, summaries, time windows, event times, counts by status, snapshots |
| Definitions.dfy | validation and the builder |
| Sagas.dfy, Retries.dfy, Breakers.dfy | sagas, retry combinators, circuit breakers, bulkhead |

How the outside enters the model:

- A handler is a function of the calls made before it, its input and the attempt number, so it may keep any state.
  "Stateless" says that an outcome depends on step, input and attempt alone; only the theorems that compare two
  runs ask for it.
- The clock and the generator of workflow ids are input streams, read once per stored event. "Fresh" says that
  generated ids repeat neither each other nor a stored id.
- A handler's outcome carries the time it took, which decides timeouts. The text of an error message is an
  uninterpreted function of the error.
- Sub-workflows may nest without bound in the program. A run is therefore defined up to a nesting depth, and is
  None when it nests deeper; every theorem about a run holds at every depth, more depth never changes a run
  (`StartDepth`), and ranked definitions never need more than their rank (`StartTerminates`). The methods of the
  engine take the depth as a ghost argument and ask that the run terminate.
- A crash leaves a non-empty prefix of a workflow's log and anything at all of everything else.

## Where the code does not do what its comments say

The model follows the code.

- `completed_steps` is read once, before the loop, and never updated in a run. Recovery therefore changes the
  result of definitions that repeat a name, or in which a branch or a group asks for the output of an earlier step.
  `RecoversExactlyWhenRecoverable` says for which definitions crash recovery works. Definitions with a group laid
  out by the builder in front of any Signal are not among them, if their groups can succeed at all
  (`BuiltGroupNotRecoverable`).
- Unless its signal has been sent, a Signal step fails every run that reaches it, so what stands behind the first
  one matters only if a resume can get there: if the outputs stored before the wait include one under the wait's
  own name. Recovery then fails (`OvertakenWaitFails`), unless the steps passed over lead to another wait for the
  same signal, where the run ends alike (`SameWaitAgain`). With signals that are waited for once, recovery asks for
  distinct names up to and including the wait (`RecoverableUpToSignal`).
- A Signal step is said to pause the workflow until it is resumed. It fails the workflow for good
  (`WaitingCannotBeResumed`).
- A parent is said to wait for its sub-workflow's completion. It does not look at the child's status, and takes
  the newest output of a failed child for its result (`ParentReadsChild`).
- `start_with_timeout` can add a failure after a completion; the workflow then counts as failed (`ReachableLogsLived`,
  `ResultTrichotomy`).
- Snapshots are meant for incremental recovery. They drop the completed steps, so a continued replay knows only
  later ones (`SnapshotForgets`, `SnapshotRoundTrip`).

Not a contradiction, but worth knowing: the compensation plan of a failed workflow lists compensations in the order
of completion (`PlanIsExact`), whereas a saga runs them in reverse (`SagaOrder`).

## Model

| member | source | states |
|---|---|---|
| RecoveryLimits.RecoversExactlyWhenRecoverable | moonflow/core_engine.mbt:97-259 | Crash recovery as promised, exactly: a definition in which no group in front of the first Signal is empty or asks for an unknown step recovers from every history of crashes under every program if and only if the steps in front of that Signal have distinct names, none of their outcomes can hang on an earlier step's stored output, and stored outputs never lead a resume past the wait |
| RecoveryLimits.OvertakenWaitFails | moonflow/core_engine.mbt:132-176 | When the outputs of the first k steps lead a resume past the first wait, a crash after k completions gives another result than the uninterrupted run |
| RecoveryLimits.PastTheWait | moonflow/core_engine.mbt:132-178 | A run that does not stop for the signal completes a step more or ends with something else than the report of that wait |
| RecoveryLimits.SameWaitAgain | moonflow/core_engine.mbt:132-176 | A wait that repeats the name of the step before it and is followed by the same wait under another name: the names in front are not distinct, and yet every crash is recovered from |
| CrashEquivalence.RecoverableUpToSignal | moonflow/core_engine.mbt:132-176 | If the first Signal is waited for only once, being recoverable is having distinct names up to and including it, and no consulting of earlier steps before it |
| CrashEquivalence.RecoverableWithoutSignals | moonflow/core_engine.mbt:132-259 | Without Signal steps it is having distinct names throughout and no consulting of earlier steps |
| CrashEquivalence.CrashRecovery | moonflow/core_engine.mbt:97-180 | For all five kinds of step, in every recoverable definition: after any crashes and resumes the log has the completions and the ending of the uninterrupted run, and replays to the same status and completed steps |
| CrashEquivalence.ResumeReaches | moonflow/core_engine.mbt:97-119 | One resume of any log on the way brings it to the interpreter's outline, whatever signals have been sent, and terminates where the uninterrupted run does |
| CrashEquivalence.HistoryReaches | moonflow/core_engine.mbt:97-180 | The same over every finite history of cuts and resumes |
| CrashEquivalence.EvalDepth | moonflow/core_engine.mbt:276-296 | The outline does not depend on how much nesting is allowed beyond what it needs |
| Interpreter.StartRefines | moonflow/core_engine.mbt:83-94 | A started run terminates exactly when the log-free interpreter does, its log reading as the interpreter's outline and giving back the carried value |
| Interpreter.RunRefines | moonflow/core_engine.mbt:121-180 | From any step, with stored outputs that the rest, up to the end or to a wait that halts it, does not ask for, the loop appends the completions and ending of the interpreter |
| Interpreter.NodeRefines | moonflow/core_engine.mbt:137-178 | A node's outcome is the interpreter's, for every kind of step, sub-workflows included |
| Interpreter.StepRefines | moonflow/core_engine.mbt:182-219 | A step's outcome is that of its first successful attempt, or the exhaustion of its attempts |
| Interpreter.StartKnows | moonflow/core_engine.mbt:90-90 | Adding a definition under a generated id at every start never changes what a sub-workflow name means |
| RecoveryLimits.RepeatedNameFails | moonflow/core_engine.mbt:132-136 | A step name repeated in front of the first Signal is skipped by a resume that the uninterrupted run would not have skipped |
| RecoveryLimits.ConsultingEarlierFails | moonflow/core_engine.mbt:225-257 | So is recovery lost for a branch or a group, in front of the first Signal, that names an earlier step, whichever of its names it is |
| RecoveryLimits.DifferentOutputFails | moonflow/core_engine.mbt:97-180 | One cut suffices: a step that comes out differently when resumed yields a crash history with another result |
| RecoveryLimits.CrashWith | moonflow/runtime_memory_storage.mbt:12-24 | Every number of completions short of the end is what some crash leaves |
| Progress.AtMostOnce | moonflow/core_engine.mbt:97-180 | For arbitrary handlers over every crash history: no two completions of one step, completed steps a prefix of the definition and all of it when completed, no attempt after a completion |
| Progress.HistoryTracks | moonflow/core_engine.mbt:97-180 | The invariant behind it, kept by every crash and every resume |
| Progress.RunTracks | moonflow/core_engine.mbt:121-180 | The loop moves the log down the definition step by step and ends it, at the latest at a wait that halts it |
| Progress.ResumeEntry | moonflow/core_engine.mbt:102-136 | A resume passes over exactly the stored steps and takes up the next with the log's newest value |
| Execution.StoppedRun | moonflow/core_engine.mbt:130-176 | A loop whose next step without a stored output waits for an unsent signal adds that failure and nothing else |
| Progress.SkipDone | moonflow/core_engine.mbt:132-136 | Steps with stored outputs are passed over, the last such output becoming the input of the next |
| Lifecycle.ReachableLogsLived | moonflow/core_engine.mbt:83-180 | In every reachable state, over starts, timed starts, resumes with any definition and crashes, each log has one start, at position 0, and nothing after its terminal event except one timeout failure |
| Lifecycle.RunLife | moonflow/core_engine.mbt:121-180 | The loop turns an open log into one that ends with its only terminal event, and so every log of a child |
| Lifecycle.MovePreserves | moonflow/core_timeout.mbt:8-29 | Every operation, timed starts included, keeps that shape |
| Lifecycle.ResumeAnswers | moonflow/core_engine.mbt:97-119 | Decided by the last event of any log the engine can leave: an unknown workflow is not found, a completed one answers Ok and a failed one an error naming the step that began last, all without any effect; any other one is taken up and, if that terminates, answers Ok |
| Lifecycle.ResumeTakesUp | moonflow/core_engine.mbt:116-118 | Taking up a workflow stores the given definition under its id and brings its log, which is only extended, to an end |
| Lifecycle.WaitingCannotBeResumed | moonflow/core_engine.mbt:166-176 | A started definition with a Signal step fails, and no later resume under any signals changes anything |
| Execution.StartFrame | moonflow/core_engine.mbt:83-94 | A start leaves every existing log as it was and adds one under a new id |
| Execution.StartRecords | moonflow/core_engine.mbt:83-94 | Afterwards the definition is stored under the new id, whatever was started inside, and the log opens with the workflow's name, input and time |
| Execution.StartKeepsDefs | moonflow/core_engine.mbt:83-94 | What is stored under any name but newly generated ids stays |
| Execution.FindsFirst | moonflow/core_engine.mbt:309-312 | A child's name means the first step of that name |
| Execution.RunStepsFrame | moonflow/core_engine.mbt:121-180 | A run only appends to its own log, and changes no other existing log |
| Execution.ExecNodeFrame | moonflow/core_engine.mbt:137-178 | A node adds only progress events about its own steps to the log |
| Nesting.StartTerminates | moonflow/core_engine.mbt:83-94 | If ranks decrease from a definition to the sub-workflows inside it, every start terminates, with any handlers, nesting no deeper than the rank |
| Nesting.SelfNestingDiverges | moonflow/core_engine.mbt:276-296 | A definition whose first step names itself never terminates |
| Nesting.StartDepth | moonflow/core_engine.mbt:83-94 | A run that terminates is the same run under every larger nesting bound |
| CarriedValue.StartCarries | moonflow/core_engine.mbt:121-180 | In every started run, at every loop head, the newest value in the log is the carried value; a completed run's output is that value |
| CarriedValue.ParentReadsChild | moonflow/core_engine.mbt:276-296 | A parent gets a completed child's true output, and the newest output, or the input, of a failed one |
| CarriedValue.HeadsCarry | moonflow/core_engine.mbt:130-178 | The invariant carried from each loop head to all later ones |
| Encoding.StartEncodes | moonflow/core_engine.mbt:121-219 | At every loop head of a Sequential run replay gives the executed steps, outputs, attempt counts and no failed step; a completed run ends with none; a failed one names the step that failed and, if that has a handler, knows it and no other as failed, with the reason reported last |
| Encoding.StepEncodes | moonflow/core_engine.mbt:182-219 | However a step ends, replay counts its attempts and touches no other step |
| Compensation.PlanIsExact | moonflow/core_compensation.mbt:9-27 | After any history of crashes and resumes of a Sequential workflow a plan exists exactly if it failed and names the step that failed; its entries are one by one the compensations of those earlier steps which have one, by position, in order of completion |
| Compensation.MappedAt | moonflow/core_compensation.mbt:16-21 | Mapping names gives the compensation of each name that has one, at increasing positions, and nothing else |
| Compensation.RunBlames | moonflow/core_engine.mbt:121-180 | From any step on, resumed or not, a run that fails leaves a log that replays to the step behind the completed ones as the current one |
| Compensation.StepIsCurrent | moonflow/state_replay.mbt:46-64 | However its attempts go, a step is the current one when they are over |
| Compensation.BuildCompensationPlan | moonflow/core_compensation.mbt:9-27 | The loop builds that plan from the replayed state |
| Invocations.RunMatches | moonflow/core_engine.mbt:121-207 | Without sub-workflows, the handlers called are exactly the attempts begun in the log, in order |
| Invocations.ResumeCallsNoDoneStep | moonflow/core_engine.mbt:97-180 | A resume calls no handler of a step whose completion is stored |
| Invocations.HistoryCallsNoDoneStep | moonflow/core_engine.mbt:97-180 | ... and so every resume in every history of crashes of a started run of an independent definition without sub-workflows |
| Invocations.FailingStepAttempts | moonflow/core_engine.mbt:182-207 | A step that keeps failing or timing out is attempted max(1, max_retry) times and reports that |
| Invocations.FailingStepLog | moonflow/core_engine.mbt:182-219 | Event by event, what a handler that always fails alike leaves: starts with their numbers, timeouts if it overruns, announcements with the step's delay, and at last the failure with the last error's message, each with its time |
| Invocations.StoredCondition | moonflow/core_engine.mbt:243-259 | With the condition's output stored, whatever it is, a branch goes the true way: the false target does not matter, a stored true target is not run, any other is called once |
| Invocations.UnstoredCondition | moonflow/core_engine.mbt:243-259 | Otherwise the condition is called once, for at most 30000 ms, and exactly its success makes the branch go the true way; the target taken gives its stored output or is called once |
| Invocations.BranchCalledOnce | moonflow/core_engine.mbt:298-300 | A branch's condition and target are each attempted once, whatever the steps of their names allow |
| Invocations.GroupSucceeds | moonflow/core_engine.mbt:221-241 | A group succeeds with exactly its children's outputs on its own input, under their names |
| Invocations.GroupFails | moonflow/core_engine.mbt:221-241 | A group fails with the error of its first failing child |
| Invocations.GroupOrderIrrelevant | moonflow/core_engine.mbt:221-241 | Order and repetition of the children do not change a group's success or output |
| Invocations.ResumedGroupSucceeds | moonflow/core_engine.mbt:221-241 | With outputs stored for some children a group gives those outputs and the others' own results |
| Invocations.GroupCallsOnly | moonflow/core_engine.mbt:221-241 | However it comes out, a group calls only handlers of children without a stored output, on its own input |
| Invocations.BatchModesAgree | moonflow/core_engine.mbt:42-72 | Failing fast or not, a batch succeeds alike with the same output, and has the same result when every name has a handler |
| Invocations.BatchCalls | moonflow/core_engine.mbt:42-72 | A batch, failing fast or not, succeeds exactly if each handler in turn does; it has then called each name once, in order, on the same input, and gives under each name what its last call answered |
| Invocations.BatchFails | moonflow/core_engine.mbt:42-72 | Failing fast, it calls no handler after the first that fails or is missing, and returns that error |
| Invocations.BatchOutput | moonflow/core_engine.mbt:42-72 | With stateless handlers the output is each name's own answer to the input |
| Invocations.BatchOrderIrrelevant | moonflow/core_engine.mbt:42-72 | With stateless handlers order and repetition of the names, and failing fast, do not change success or output |
| Replay.ReplayComposes | moonflow/state_replay.mbt:26-80 | Replaying a + b continues the replay of a over b |
| Replay.ReplayCompleted | moonflow/state_replay.mbt:52-56 | Replay's completed steps, and their order, are those of the StepCompleted events |
| Replay.ReplayStatus | moonflow/state_replay.mbt:65-72 | The status is Running without terminal events; a log ending with a terminal event has the status it says |
| Replay.LastTerminalDecides | moonflow/state_replay.mbt:37-80 | The last terminal event behind the first event decides the status, whatever other events there are and in whatever order |
| Replay.ReplayFailed | moonflow/state_replay.mbt:52-60 | For any log, by position: the failed steps are those whose newest failure no completion follows, with that failure's reason |
| Replay.ReplayOutputs | moonflow/state_replay.mbt:52-56 | For any log, by position: the completed steps, each with its newest output |
| Replay.ReplayOrder | moonflow/state_replay.mbt:52-56 | For any log, by position: the completed steps are listed once each, in the order of their first completions |
| Replay.ReplayAttempts | moonflow/state_replay.mbt:47-64 | For any log, by position: the attempt numbers begun or announced last |
| Replay.ReplayCurrent | moonflow/state_replay.mbt:47-51 | The current step is the one that began last; no log replays to a cancelled workflow |
| Replay.LastOutputMeaning | moonflow/core_engine.mbt:302-307 | The newest value of a log is its last completion's output, or the workflow input |
| Replay.ExecutionState.ApplyEvent | moonflow/state_replay.mbt:37-80 | Updating the state in place has the effect of applying the event |
| Replay.Rebuild | moonflow/state_replay.mbt:26-35 | The replay loop builds an object that shows the replayed state, or none for an empty log |
| Replay.GetLastOutput | moonflow/core_engine.mbt:302-307 | The backwards scan finds the newest value |
| WorkflowEngine.MemoryStorage.SaveEvent | moonflow/runtime_memory_storage.mbt:12-24 | Saving appends to one log, starting it if need be, and keeps the list of ids |
| WorkflowEngine.MemoryStorage.ListWorkflows | moonflow/runtime_memory_storage.mbt:43-49 | Every stored workflow is listed once |
| WorkflowEngine.Engine.SendSignal | moonflow/core_engine.mbt:23-37 | Afterwards this workflow has this signal, every other pair as before |
| WorkflowEngine.Engine.ExecuteStep | moonflow/core_engine.mbt:182-207 | The recursion of attempts has the specified effect on log, calls and clock |
| WorkflowEngine.Engine.ExecuteWithTimeout | moonflow/core_engine.mbt:190-219 | One attempt, an overrun recorded as a failure of attempt 1 |
| WorkflowEngine.Engine.ExecuteParallelGroup | moonflow/core_engine.mbt:221-241 | The loop over the children has the specified effect and result |
| WorkflowEngine.Engine.ExecuteConditional | moonflow/core_engine.mbt:243-259 | The branch has the specified effect and result |
| WorkflowEngine.Engine.ExecuteSubWorkflow | moonflow/core_engine.mbt:276-296 | Starts the child under a new id and takes its newest value |
| WorkflowEngine.Engine.ExecuteNode | moonflow/core_engine.mbt:137-178 | The dispatch on the kind of step has the specified effect and outcome |
| WorkflowEngine.Engine.ExecuteWorkflow | moonflow/core_engine.mbt:121-180 | The loop has the specified effect on the whole state |
| WorkflowEngine.Engine.Start | moonflow/core_engine.mbt:83-94 | Start has the specified effect on the whole state, and returns the new id |
| WorkflowEngine.Engine.ResumeWorkflow | moonflow/core_engine.mbt:97-119 | Resume refuses, agrees or runs on as specified |
| WorkflowEngine.Engine.StartWithTimeout | moonflow/core_timeout.mbt:8-29 | A timed start adds a failure exactly on an overrun of a positive limit |
| Queries.TimedStart | moonflow/core_timeout.mbt:8-29 | Against a plain start: within the limit, or without one, the same state and id; beyond it exactly one event more, after which the workflow counts as failed for the timeout with all its completions, and the caller gets the timeout error |
| WorkflowEngine.Engine.ExecuteBatch | moonflow/core_engine.mbt:42-72 | The batch loop has the specified calls and result |
| Protocol.StartAccepted | moonflow/core_engine.mbt:121-219 | Every started run's log obeys the protocol of attempts: each first attempt is numbered 1, each announced retry is the current attempt plus one and is taken up at once, failures name the current step and attempt, timeouts attempt 1 |
| Protocol.StepAccepted | moonflow/core_engine.mbt:182-219 | One step's attempts keep to that protocol from any point at which the attempt is due |
| Queries.ComputeStats | moonflow/api_event_query.mbt:73-92 | The loop computes the tally of the log |
| Queries.CountersMean | moonflow/api_event_query.mbt:60-92 | Each counter is the number of positions that hold an event of its kind |
| Queries.CountersSum | moonflow/api_event_query.mbt:60-92 | The seven counters account for every event |
| Queries.AttemptsBalance | moonflow/core_engine.mbt:121-207 | In every started Sequential run, started = retrying + completed + failed workflows |
| Queries.StepUnsettled | moonflow/core_engine.mbt:182-207 | However often it is retried, a step begins one more attempt than it answers by a retry |
| Queries.ResultTrichotomy | moonflow/api_result.mbt:15-40 | Of a result, an error and a running status exactly one is there, decided by the last event, with its payload |
| Queries.ReachableResults | moonflow/api_result.mbt:15-40 | ... in every reachable state of the store |
| Queries.CompletedResult | moonflow/api_result.mbt:15-28 | After any history of crashes the result of a completed workflow has its final output, its number of events, one executed step per step of the definition and the time between its first and last event |
| Queries.CountTotalSteps | moonflow/api_query.mbt:62-72 | Counts the distinct steps started or completed |
| Queries.SummaryBounded | moonflow/api_query.mbt:28-40 | A summary never has more completed steps than steps, for any events |
| Queries.FilterByTime | moonflow/api_event_query.mbt:45-58 | The loop keeps the events within the window, in order |
| Queries.WindowIsSlice | moonflow/api_event_query.mbt:45-58 | In a chronological log a window is one slice: everything before it earlier, everything after it later; an inverted window is empty |
| Timeliness.ReachableLogsTimely | moonflow/core_engine.mbt:83-180 | Under clocks that never run backwards and carry on from what is stored, every log of every reachable state, over starts, timed starts, resumes and crashes, is chronological, and no result has a negative elapsed time |
| Timeliness.StartedLogsTimely | moonflow/core_engine.mbt:83-94 | One start, whatever else is stored: the new logs, children's included, are chronological and no elapsed time is negative |
| Timeliness.StartWithTimeoutTimely | moonflow/core_timeout.mbt:8-29 | A timed start, with the failure it may add, keeps the logs chronological |
| Timeliness.ResumeTimely | moonflow/core_engine.mbt:97-119 | A resume whose clock is not behind what is stored keeps the logs chronological |
| Timeliness.RunTimely | moonflow/core_engine.mbt:121-180 | The loop does, from any step and with any stored outputs |
| StatusReport.CountByStatus | moonflow/api_query.mbt:46-60 | Under each of the five labels stands the number of stored workflows that replay to that status, there is no other key, and the counts sum to the workflows listed |
| Snapshots.SnapshotRoundTrip | moonflow/state_snapshot.mbt:10-101 | What of a snapshot survives JSON; all of it exactly when its creation time fits 32 bits and its state had no steps to lose |
| Snapshots.RestoreAccepts | moonflow/state_snapshot.mbt:22-80 | Which JSON is restored, to what, and with which message any other is rejected |
| Snapshots.NumbersKept | moonflow/state_snapshot.mbt:17-46 | Event counts lose their fraction towards zero and stay in range; creation times keep their low 32 bits |
| Snapshots.SnapshotRecovery | moonflow/state_snapshot.mbt:10-101 | Continuing from a restored snapshot agrees with full replay on status and current step, for every suffix |
| Snapshots.SnapshotForgets | moonflow/state_snapshot.mbt:55-80 | A continued replay knows a step as completed exactly if it completed after the snapshot |
| Definitions.ValidateWorkflow | moonflow/core_validator.mbt:10-70 | The loop finds exactly the specified errors and warnings; valid means no errors |
| Definitions.NoErrorsMeaning | moonflow/core_validator.mbt:21-68 | No errors means distinct names and no negative limits |
| Definitions.ErrorsMean | moonflow/core_validator.mbt:21-68 | The error messages are exactly those for a repeated name, a negative max_retry and a negative timeout_ms |
| Definitions.WarningsMean | moonflow/core_validator.mbt:28-58 | The warnings are exactly those for a Sequential step, group child, condition or target without a handler, and there are none exactly if all of them have one |
| Definitions.ValidMeansWellDefined | moonflow/core_validator.mbt:10-70 | A non-empty definition is valid exactly when it is well defined |
| Definitions.ValidIsRecoverable | moonflow/core_validator.mbt:10-70 | A definition that validation finds no error in, and whose branches and groups name no step in front of them, is recoverable and never attempts a completed step again |
| Definitions.WorkflowBuilder.AddParallel | moonflow/core_workflow.mbt:73-87 | Pushes every child as a step of its own, then the group |
| Definitions.DefaultStep | moonflow/core_step.mbt:18-20 | A step of the default configuration succeeds by one call within 30000 ms, and gives up after three failing or late ones |
| Definitions.DefaultStepLog | moonflow/core_step.mbt:18-20 | ... and announces 1000 ms before each new attempt: its six events |
| Definitions.BuiltGroupNotRecoverable | moonflow/core_workflow.mbt:73-87 | A definition with such a group in front of any Signal is not recoverable, and if no group is empty or asks for unknown steps some crash gives it another result |
| Sagas.Saga.Execute | moonflow/core_saga.mbt:104-139 | The forward loop with compensation has the specified effect, order and result |
| Sagas.Saga.ExecuteWithRetry | moonflow/core_saga.mbt:56-74 | The same with retries |
| Sagas.Saga.RetryUntil | moonflow/core_saga.mbt:76-84 | The attempt loop has the specified effect and result |
| Sagas.Saga.CompensateAll | moonflow/core_saga.mbt:144-166 | The countdown has the specified effect and message |
| Sagas.SagaRollsBack | moonflow/core_saga.mbt:56-166 | With reversing compensations, a failed saga, retried or not, ends in its initial world, each compensation given what the following forward had been given, and without retries returns the failed forward's error; a successful one has applied every forward once |
| Sagas.UnwindRestores | moonflow/core_saga.mbt:144-166 | Unwinding hands world and value back step by step to the start |
| Sagas.SagaOrder | moonflow/core_saga.mbt:104-166 | For arbitrary actions: forwards in order, each on the world and output of the one before, up to the failing one; then compensations downwards, each on the world and output of the one before, to step 0 unless one fails, and then no further; the failed forward's error is returned, or exactly if a compensation failed a storage error naming it |
| Sagas.UnwindOrder | moonflow/core_saga.mbt:144-166 | Compensation follows that chain of worlds and outputs to its end or to its first failure, which it reports |
| Sagas.NoRetryIsPlain | moonflow/core_saga.mbt:56-139 | With max_retry 0 worlds, effects and order are those of execute; a failed saga returns the failed forward's own error, so something else than execute only if a compensation failed |
| Retries.RetryingSaga | moonflow/core_saga.mbt:56-84 | With max_retry r, for arbitrary actions, a saga leaves the world of the plain saga each of whose forwards is wrapped for r + 1 attempts, and returns the same unless a compensation failed, and then the failed forward's own error |
| Retries.RetriedTrace | moonflow/core_saga.mbt:76-84 | The retries leave one forward per attempt, on the same input, up to the first success or the last allowed |
| Retries.NegativeRetries | moonflow/core_saga.mbt:76-84 | With max_retry below 0 it attempts nothing and says so |
| Retries.RetriesMultiply | moonflow/core_middleware.mbt:50-75 | Retrying m times what retries n times is retrying max(1,m) * max(1,n) times, in result and effects |
| Retries.RetryIsUpTo | moonflow/core_middleware.mbt:56-75 | The middleware makes up to max(1, max_attempts) attempts |
| Retries.RetryUntilAgrees | moonflow/core_saga.mbt:76-84 | retry_until(r) is r + 1 attempts of the middleware, and none at all below r = 0 |
| Retries.BackoffIsShorterRetry | moonflow/pattern_lib.mbt:19-37 | Backing off is retrying, cut short exactly at the first success, the first error not worth a retry or the last attempt allowed: all attempts before are errors worth one |
| Breakers.CircuitBreaker.Call | moonflow/core_middleware.mbt:123-154 | The three-state breaker's fields and answer as specified |
| Breakers.PatternCircuitBreaker.Call | moonflow/pattern_lib.mbt:70-91 | The two-state breaker's fields and answer as specified |
| Breakers.BreakersAgree | moonflow/core_middleware.mbt:123-154 | Both breakers admit and answer alike on every sequence of calls, and none leaves the circuit half-open |
| Breakers.RejectsExactlyWhen | moonflow/pattern_lib.mbt:70-91 | On every sequence of calls, for both breakers: a call is rejected, with the breaker's error, exactly if the newest admitted calls, at least threshold many, failed in a row and the reset time since has not passed; any other gets the inner answer |
| Breakers.RateBound | moonflow/pattern_lib.mbt:70-91 | n calls let through to a failing handler take at least (n - threshold) * (reset + 1) ms after the threshold-th failure, over every sequence |
| Breakers.Bulkhead.Call | moonflow/pattern_lib.mbt:105-115 | Exactly the calls within the limit's nesting depth are let through, the slots are given back, and the limit is never exceeded |
| Breakers.ChainAdmits | moonflow/pattern_lib.mbt:105-115 | Of n calls nested in one another min(n, limit) are let through |
| Breakers.RowAdmits | moonflow/pattern_lib.mbt:105-115 | Calls made in turn inside one call are all let through if the limit is above 1 |

## Left out

- RecoveryLimits.RecoversExactlyWhenRecoverable: the equivalence is for definitions whose groups in front of the first Signal are non-empty and of known children; an empty group forgets its input, so that a consulted output can coincide with a fresh one, and behind a group with an unknown child nothing is ever reached. `CrashRecovery`, its sufficient half, has no such restriction.
- RecoveryLimits.RepeatedNameFails: shares that restriction.
- RecoveryLimits.ConsultingEarlierFails: shares that restriction.
- RecoveryLimits.DifferentOutputFails: shares that restriction.
- RecoveryLimits.OvertakenWaitFails: shares that restriction.
- CrashEquivalence.CrashRecovery: signals are fixed across the crashes of a run; a signal that arrives between a crash and a resume can let the resumed run pass a step at which the uninterrupted one fails.
- Invocations.RunMatches: does not cover sub-workflows, whose calls appear between the parent's but are logged under the child's id.
- WorkflowEngine.Engine.Start: runs that do not terminate are outside its contract; the program overflows its stack on them.
- The aliasing of the array that `load_events` returns: logs are sequences, so a reader keeps what it loaded.
- The sharing of the builder's step array with the definitions it has built.
- Handlers that call the engine, signal it or register handlers while they run, other than nested calls through a bulkhead.
- Which errors are worth a retry (`classify_error`): a parameter of the backoff law, which holds for any choice.
- File storage, timers, metrics, priorities, policies, the scheduler type and message formatting of errors.
- Overflow of 64-bit timestamps and of counters; the 32-bit conversion of a snapshot's creation time is modelled. Numbers in JSON are reals, without NaN or infinities.
- The clock readings around a timed handler or a timed start: the elapsed time is given instead, not tied to the event timestamps.
- `filter_by_type`, `filter_by_step`, `execute_compensation`, `EventLog`, `step_by_name`, `pattern_fallback`, the timeout decorators and the storage of snapshots, which would add only easy members.
