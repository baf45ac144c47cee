/** The storage and the engine as the objects they are; every method is proved against Execution. */
module WorkflowEngine {
  import opened Types
  import opened Replay
  import opened Execution

  /** ids lists the keys of eventLogs in the order in which their first events were saved. */
  class MemoryStorage {
    var eventLogs: map<WorkflowId, seq<Event>>
    var ids: seq<WorkflowId>

    ghost predicate Valid()
      reads this
    {
      && NoDuplicates(ids)
      && (forall k :: k in ids <==> k in eventLogs)
      && (forall k :: k in eventLogs ==> eventLogs[k] != [])
    }

    constructor ()
      ensures Valid() && eventLogs == map[]
    {
      eventLogs, ids := map[], [];
    }

    method SaveEvent(id: WorkflowId, e: Event)
      requires Valid()
      modifies this
      ensures Valid()
      ensures eventLogs == old(eventLogs)[id := (if id in old(eventLogs) then old(eventLogs)[id] else []) + [e]]
      ensures ids == if id in old(eventLogs) then old(ids) else old(ids) + [id]
    {
      if id in eventLogs {
        eventLogs := eventLogs[id := eventLogs[id] + [e]];
      } else {
        NoDuplicatesSnoc(ids, id);
        assert [] + [e] == [e];
        eventLogs := eventLogs[id := [e]];
        ids := ids + [id];
        assert forall k :: k in ids <==> k in old(ids) || k == id;
      }
    }

    method LoadEvents(id: WorkflowId) returns (events: seq<Event>)
      ensures events == if id in eventLogs then eventLogs[id] else []
    {
      events := if id in eventLogs then eventLogs[id] else [];
    }

    method ListWorkflows() returns (found: seq<WorkflowId>)
      requires Valid()
      ensures found == ids && NoDuplicates(found)
      ensures forall id :: id in found <==> id in eventLogs
    {
      found := ids;
    }
  }

  class Engine {
    const storage: MemoryStorage
    const clock: nat -> int
    const freshId: nat -> WorkflowId
    const show: WorkflowError -> string
    var registry: map<string, Handler>
    var workflowDefs: map<string, WorkflowDef>
    var signals: map<WorkflowId, map<string, bool>>
    // the world outside: the calls handlers have seen, and how often the clock was read for an event
    var calls: seq<Call>
    var ticks: nat

    ghost function HostOf(): Host
      reads this
    {
      Host(registry, signals, clock, freshId, show)
    }

    ghost function State(): Sys
      reads this, storage
    {
      Sys(storage.eventLogs, workflowDefs, calls, ticks)
    }

    constructor (storage: MemoryStorage, clock: nat -> int, freshId: nat -> WorkflowId, show: WorkflowError -> string)
      ensures this.storage == storage
      ensures State() == Sys(storage.eventLogs, map[], [], 0)
      ensures HostOf() == Host(map[], map[], clock, freshId, show)
    {
      this.storage, this.clock, this.freshId, this.show := storage, clock, freshId, show;
      registry, workflowDefs, signals, calls, ticks := map[], map[], map[], [], 0;
    }

    method Register(name: string, handler: Handler)
      modifies this`registry
      ensures registry == old(registry)[name := handler]
    {
      registry := registry[name := handler];
    }

    /** Afterwards this workflow has this signal, and every other pair is as before. */
    method SendSignal(id: WorkflowId, name: string)
      modifies this`signals
      ensures forall o, n :: HasSignal(HostOf(), o, n) <==> (o == id && n == name) || HasSignal(old(HostOf()), o, n)
    {
      var mine := if id in signals then signals[id] else map[];
      signals := signals[id := mine[name := true]];
    }

    method HasSignalNow(id: WorkflowId, name: string) returns (found: bool)
      ensures found <==> HasSignal(HostOf(), id, name)
    {
      if id in signals && name in signals[id] {
        found := signals[id][name];
      } else {
        found := false;
      }
    }

    method StoreEvent(id: WorkflowId, e: Event)
      requires storage.Valid()
      modifies this`ticks, storage
      ensures storage.Valid() && State() == Save(old(State()), id, e)
    {
      storage.SaveEvent(id, e);
      ticks := ticks + 1;
    }

    method CallHandler(name: string, input: Json, attempt: int) returns (outcome: Outcome)
      requires name in registry
      modifies this`calls
      ensures (State(), outcome) == Invoke(HostOf(), old(State()), name, input, attempt)
    {
      outcome := registry[name](calls, input, attempt);
      calls := calls + [Call(name, input, attempt)];
    }

    method ExecuteWithTimeout(id: WorkflowId, node: StepNode, input: Json, attempt: int) returns (result: Result<Json>)
      requires storage.Valid() && node.name in registry
      modifies this`calls, this`ticks, storage
      ensures storage.Valid()
      ensures (State(), result) == Attempt(HostOf(), old(State()), id, node, input, attempt)
    {
      var outcome := CallHandler(node.name, input, attempt);
      if node.config.timeoutMs > 0 && outcome.elapsedMs > node.config.timeoutMs {
        StoreEvent(id, StepFailed(id, node.name, "timeout exceeded", 1, clock(ticks)));
        return Err(StepTimeout(node.name, node.config.timeoutMs));
      }
      return outcome.result;
    }

    method ExecuteStep(id: WorkflowId, node: StepNode, input: Json, attempt: int) returns (result: Result<Json>)
      requires storage.Valid()
      modifies this`calls, this`ticks, storage
      ensures storage.Valid()
      ensures (State(), result) == ExecStep(HostOf(), old(State()), id, node, input, attempt)
      decreases node.config.maxRetry - attempt
    {
      hide ExecStep, Attempt;
      StepTurn(HostOf(), State(), id, node, input, attempt);
      StoreEvent(id, StepStarted(id, node.name, attempt, clock(ticks)));
      if node.name !in registry {
        return Err(StepFailedError(node.name, "no handler registered"));
      }
      result := ExecuteWithTimeout(id, node, input, attempt);
      match result
      case Ok(_) =>
      case Err(error) =>
        if attempt < node.config.maxRetry {
          StoreEvent(id, StepRetrying(id, node.name, attempt + 1, node.config.retryDelayMs, clock(ticks)));
          result := ExecuteStep(id, node, input, attempt + 1);
        } else {
          StoreEvent(id, StepFailed(id, node.name, show(error), attempt, clock(ticks)));
          result := Err(StepMaxRetriesExceeded(node.name, attempt));
        }
    }

    method ExecuteParallelGroup(id: WorkflowId, def: WorkflowDef, children: seq<string>, input: Json,
                                done: map<string, Json>) returns (result: Result<Json>)
      requires storage.Valid()
      modifies this`calls, this`ticks, storage
      ensures storage.Valid()
      ensures (State(), result) == ExecGroup(HostOf(), old(State()), id, def, children, input, done, map[])
    {
      hide ExecStep;
      var merged: map<string, Json> := map[];
      ghost var h, s := HostOf(), State();
      for i := 0 to |children|
        invariant storage.Valid() && HostOf() == h
        invariant ExecGroup(h, s, id, def, children, input, done, map[]) ==
                  ExecGroup(h, State(), id, def, children[i..], input, done, merged)
      {
        var child := children[i];
        assert children[i..][0] == child && children[i..][1..] == children[i + 1..];
        if child in done {
          merged := merged[child := done[child]];
        } else {
          match FindStep(def.steps, child)
          case None =>
            return Err(StepFailedError(child, "child step not found"));
          case Some(node) =>
            result := ExecuteStep(id, node, input, 1);
            if result.Err? {
              return;
            }
            merged := merged[child := result.value];
        }
      }
      result := Ok(Object(merged));
    }

    method ExecuteConditional(id: WorkflowId, condition: string, onTrue: string, onFalse: string, input: Json,
                              done: map<string, Json>) returns (result: Result<Json>)
      requires storage.Valid()
      modifies this`calls, this`ticks, storage
      ensures storage.Valid()
      ensures (State(), result) == ExecConditional(HostOf(), old(State()), id, condition, onTrue, onFalse, input, done)
    {
      hide ExecStep;
      var cond: Result<Json> := Ok(Null);
      if condition !in done {
        cond := ExecuteStep(id, BranchNode(condition), input, 1);
      }
      var target := if cond.Ok? then onTrue else onFalse;
      if target in done {
        result := Ok(done[target]);
      } else {
        result := ExecuteStep(id, BranchNode(target), input, 1);
      }
    }

    /** Like every method below, callable when the run nests no deeper than `depth`. */
    method ExecuteSubWorkflow(node: StepNode, input: Json, ghost depth: nat) returns (result: Result<Json>)
      requires storage.Valid() && ExecSubWorkflow(HostOf(), State(), node, input, depth).Some?
      modifies this`calls, this`ticks, this`workflowDefs, storage
      ensures storage.Valid()
      ensures Some((State(), Verdict(HostOf(), result))) == ExecSubWorkflow(HostOf(), old(State()), node, input, depth)
      decreases depth, 0
    {
      if node.name !in workflowDefs {
        return Err(StepFailedError(node.name, "sub-workflow definition not found"));
      }
      var child := Start(workflowDefs[node.name], input, depth - 1);
      var events := storage.LoadEvents(child);
      var output := GetLastOutput(events);
      return Ok(output);
    }

    /** The dispatch on the kind of step inside the workflow loop. */
    method ExecuteNode(id: WorkflowId, def: WorkflowDef, node: StepNode, input: Json, done: map<string, Json>,
                       ghost depth: nat)
      returns (result: NodeResult)
      requires storage.Valid() && ExecNode(HostOf(), State(), id, def, node, input, done, depth).Some?
      modifies this`calls, this`ticks, this`workflowDefs, storage
      ensures storage.Valid()
      ensures Some((State(), result)) == ExecNode(HostOf(), old(State()), id, def, node, input, done, depth)
      decreases depth, 1
    {
      hide ExecStep, ExecGroup, ExecConditional, ExecSubWorkflow;
      var outcome: Result<Json>;
      match node.kind {
        case Sequential =>
          outcome := ExecuteStep(id, node, input, 1);
        case Parallel(children) =>
          outcome := ExecuteParallelGroup(id, def, children, input, done);
        case Conditional(condition, onTrue, onFalse) =>
          outcome := ExecuteConditional(id, condition, onTrue, onFalse, input, done);
        case SubWorkflow(_) =>
          outcome := ExecuteSubWorkflow(node, input, depth);
        case Signal(signal) =>
          var received := HasSignalNow(id, signal);
          if !received {
            return Broke("Waiting for signal: " + signal);
          }
          outcome := Ok(input);
      }
      match outcome {
        case Ok(output) => return Done(output);
        case Err(error) => return Broke(show(error));
      }
    }

    method ExecuteWorkflow(id: WorkflowId, def: WorkflowDef, initialInput: Json, done: map<string, Json>,
                           ghost depth: nat)
      requires storage.Valid() && RunSteps(HostOf(), State(), id, def, 0, initialInput, done, depth).Some?
      modifies this`calls, this`ticks, this`workflowDefs, storage
      ensures storage.Valid()
      ensures Some(State()) == RunSteps(HostOf(), old(State()), id, def, 0, initialInput, done, depth)
      decreases depth, 2
    {
      hide RunSteps, ExecNode, Save, MemoryStorage.Valid;
      var stepIndex, current := 0, initialInput;
      ghost var h, s := HostOf(), State();
      while stepIndex < |def.steps|
        invariant 0 <= stepIndex <= |def.steps|
        invariant storage.Valid() && HostOf() == h
        invariant RunSteps(h, s, id, def, 0, initialInput, done, depth) ==
                  RunSteps(h, State(), id, def, stepIndex, current, done, depth)
      {
        var node := def.steps[stepIndex];
        if node.name in done {
          RunSkip(h, State(), id, def, stepIndex, current, done, depth);
          current := done[node.name];
          stepIndex := stepIndex + 1;
        } else {
          RunTurn(h, State(), id, def, stepIndex, current, done, depth);
          var result := ExecuteNode(id, def, node, current, done, depth);
          match result {
            case Done(output) =>
              StoreEvent(id, StepCompleted(id, node.name, output, clock(ticks)));
              current := output;
              stepIndex := stepIndex + 1;
            case Broke(reason) =>
              StoreEvent(id, WorkflowFailed(id, reason, clock(ticks)));
              return;
          }
        }
      }
      RunEnd(h, State(), id, def, stepIndex, current, done, depth);
      StoreEvent(id, WorkflowCompleted(id, current, clock(ticks)));
    }

    method Start(def: WorkflowDef, input: Json, ghost depth: nat) returns (id: WorkflowId)
      requires storage.Valid() && Execution.Start(HostOf(), State(), def, input, depth).Some?
      modifies this`calls, this`ticks, this`workflowDefs, storage
      ensures storage.Valid()
      ensures Some((State(), id)) == Execution.Start(HostOf(), old(State()), def, input, depth)
      decreases depth, 3
    {
      hide RunSteps;
      id := freshId(ticks);
      workflowDefs := workflowDefs[id := def];
      StoreEvent(id, WorkflowStarted(id, def.name, input, clock(ticks)));
      ExecuteWorkflow(id, def, input, map[], depth);
    }

    method ResumeWorkflow(id: WorkflowId, def: WorkflowDef, ghost depth: nat) returns (result: Result<()>)
      requires storage.Valid() && Resume(HostOf(), State(), id, def, depth).Some?
      modifies this`calls, this`ticks, this`workflowDefs, storage
      ensures storage.Valid()
      ensures Some((State(), result)) == Resume(HostOf(), old(State()), id, def, depth)
    {
      hide RunSteps;
      var events := storage.LoadEvents(id);
      if events == [] {
        return Err(WorkflowNotFound(id));
      }
      var state := Rebuild(events);
      match state.status {
        case Completed => return Ok(());
        case Failed => return Err(StepFailedError(state.currentStep, "workflow previously failed"));
        case Cancelled => return Err(InvalidTransition("cancelled", "resume"));
        case _ =>
      }
      var done := state.completedSteps;
      workflowDefs := workflowDefs[id := def];
      var value := GetLastOutput(events);
      ExecuteWorkflow(id, def, value, done, depth);
      result := Ok(());
    }

    /** elapsedMs is the time between the clock readings around the start. */
    method StartWithTimeout(def: WorkflowDef, input: Json, limitMs: int, elapsedMs: int, ghost depth: nat)
      returns (result: Result<WorkflowId>)
      requires storage.Valid() && Execution.Start(HostOf(), State(), def, input, depth).Some?
      modifies this`calls, this`ticks, this`workflowDefs, storage
      ensures storage.Valid()
      ensures Some((State(), result)) ==
              Execution.StartWithTimeout(HostOf(), old(State()), def, input, limitMs, elapsedMs, depth)
    {
      var id := Start(def, input, depth);
      if limitMs > 0 && elapsedMs > limitMs {
        StoreEvent(id, WorkflowFailed(id, "workflow timeout exceeded", clock(ticks)));
        return Err(StepTimeout("workflow", limitMs));
      }
      return Ok(id);
    }

    method ExecuteBatch(names: seq<string>, input: Json, failFast: bool) returns (result: Result<Json>)
      modifies this`calls
      ensures (calls, result) == ExecBatch(HostOf(), old(calls), names, input, failFast, map[], None)
    {
      var merged: map<string, Json> := map[];
      var firstError: Option<WorkflowError> := None;
      ghost var h := HostOf();
      for i := 0 to |names|
        invariant HostOf() == h
        invariant ExecBatch(h, old(calls), names, input, failFast, map[], None) ==
                  ExecBatch(h, calls, names[i..], input, failFast, merged, firstError)
      {
        var name := names[i];
        assert names[i..][0] == name && names[i..][1..] == names[i + 1..];
        if name !in registry {
          return Err(StepFailedError(name, "handler not found"));
        }
        var outcome := CallHandler(name, input, 1);
        match outcome.result {
          case Ok(output) =>
            merged := merged[name := output];
          case Err(error) =>
            if failFast {
              return Err(error);
            }
            if firstError.None? {
              firstError := Some(error);
            }
        }
      }
      result := if firstError.Some? then Err(firstError.value) else Ok(Object(merged));
    }
  }
}
