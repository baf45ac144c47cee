/**
 * What the engine does, as a function of the state it starts from. Handlers are arbitrary stateful code:
 * a handler's outcome may depend on every call made before it. Clock readings and generated ids are
 * input streams indexed by the number of events stored so far.
 */
module Execution {
  import opened Types
  import opened Replay

  datatype Call = Call(step: string, input: Json, attempt: int)

  datatype Outcome = Outcome(result: Result<Json>, elapsedMs: int)

  type Handler = (seq<Call>, Json, int) -> Outcome

  datatype Host = Host(
    registry: map<string, Handler>,
    signals: map<WorkflowId, map<string, bool>>,
    clock: nat -> int,
    freshId: nat -> WorkflowId,
    show: WorkflowError -> string)

  datatype Sys = Sys(
    logs: map<WorkflowId, seq<Event>>,
    defs: map<string, WorkflowDef>,
    calls: seq<Call>,
    ticks: nat)

  /** How one step of the workflow loop ended: with an output, or with the message to record. */
  datatype NodeResult = Done(output: Json) | Broke(reason: string)

  function Load(s: Sys, id: WorkflowId): seq<Event> {
    if id in s.logs then s.logs[id] else []
  }

  function Save(s: Sys, id: WorkflowId, e: Event): Sys {
    s.(logs := s.logs[id := Load(s, id) + [e]], ticks := s.ticks + 1)
  }

  function Now(h: Host, s: Sys): int {
    h.clock(s.ticks)
  }

  predicate HasSignal(h: Host, id: WorkflowId, name: string) {
    id in h.signals && name in h.signals[id] && h.signals[id][name]
  }

  /** Calls a registered handler; the call becomes part of the history later calls can depend on. */
  function Invoke(h: Host, s: Sys, name: string, input: Json, attempt: int): (Sys, Outcome)
    requires name in h.registry
  {
    (s.(calls := s.calls + [Call(name, input, attempt)]), h.registry[name](s.calls, input, attempt))
  }

  /** One handler call, turned into an error when it overran the step's timeout. */
  function Attempt(h: Host, s: Sys, id: WorkflowId, node: StepNode, input: Json, attempt: int): (Sys, Result<Json>)
    requires node.name in h.registry
  {
    var (s1, outcome) := Invoke(h, s, node.name, input, attempt);
    if node.config.timeoutMs > 0 && outcome.elapsedMs > node.config.timeoutMs then
      (Save(s1, id, StepFailed(id, node.name, "timeout exceeded", 1, Now(h, s1))),
       Err(StepTimeout(node.name, node.config.timeoutMs)))
    else
      (s1, outcome.result)
  }

  function ExecStep(h: Host, s: Sys, id: WorkflowId, node: StepNode, input: Json, attempt: int): (Sys, Result<Json>)
    decreases node.config.maxRetry - attempt
  {
    var s1 := Save(s, id, StepStarted(id, node.name, attempt, Now(h, s)));
    if node.name !in h.registry then (s1, Err(StepFailedError(node.name, "no handler registered")))
    else
      var (s2, result) := Attempt(h, s1, id, node, input, attempt);
      match result
      case Ok(_) => (s2, result)
      case Err(error) =>
        if attempt < node.config.maxRetry then
          var s3 := Save(s2, id, StepRetrying(id, node.name, attempt + 1, node.config.retryDelayMs, Now(h, s2)));
          ExecStep(h, s3, id, node, input, attempt + 1)
        else
          (Save(s2, id, StepFailed(id, node.name, h.show(error), attempt, Now(h, s2))),
           Err(StepMaxRetriesExceeded(node.name, attempt)))
  }

  /** One attempt of a step, and what follows it. */
  lemma StepTurn(h: Host, s: Sys, id: WorkflowId, node: StepNode, input: Json, attempt: int)
    ensures var s1 := Save(s, id, StepStarted(id, node.name, attempt, Now(h, s)));
      var run := ExecStep(h, s, id, node, input, attempt);
      && (node.name !in h.registry ==> run == (s1, Err(StepFailedError(node.name, "no handler registered"))))
      && (node.name in h.registry ==>
            var (s2, result) := Attempt(h, s1, id, node, input, attempt);
            && (result.Ok? ==> run == (s2, result))
            && (result.Err? && attempt < node.config.maxRetry ==>
                  var e := StepRetrying(id, node.name, attempt + 1, node.config.retryDelayMs, Now(h, s2));
                  run == ExecStep(h, Save(s2, id, e), id, node, input, attempt + 1))
            && (result.Err? && attempt >= node.config.maxRetry ==>
                  var e := StepFailed(id, node.name, h.show(result.error), attempt, Now(h, s2));
                  run == (Save(s2, id, e), Err(StepMaxRetriesExceeded(node.name, attempt)))))
  {
    hide Attempt;
  }

  function FindStep(steps: seq<StepNode>, name: string): (r: Option<StepNode>)
    ensures r.Some? ==> r.value in steps && r.value.name == name
    ensures r.None? ==> forall n :: n in steps ==> n.name != name
  {
    if steps == [] then None
    else if steps[0].name == name then Some(steps[0])
    else FindStep(steps[1..], name)
  }

  /** What is found is the first step of that name. */
  lemma {:induction false} FindsFirst(steps: seq<StepNode>, name: string) returns (i: nat)
    ensures i <= |steps| && (forall j :: 0 <= j < i ==> steps[j].name != name)
    ensures FindStep(steps, name) == if i < |steps| then Some(steps[i]) else None
    ensures i < |steps| ==> steps[i].name == name
  {
    if steps == [] || steps[0].name == name {
      i := 0;
    } else {
      var rest := FindsFirst(steps[1..], name);
      i := rest + 1;
    }
  }

  /** The children of a parallel group, one after the other, all on the same input. */
  function ExecGroup(h: Host, s: Sys, id: WorkflowId, def: WorkflowDef, children: seq<string>, input: Json,
                     done: map<string, Json>, merged: map<string, Json>): (Sys, Result<Json>)
    decreases |children|
  {
    if children == [] then (s, Ok(Object(merged)))
    else
      var child := children[0];
      if child in done then
        ExecGroup(h, s, id, def, children[1..], input, done, merged[child := done[child]])
      else
        match FindStep(def.steps, child)
        case None => (s, Err(StepFailedError(child, "child step not found")))
        case Some(node) =>
          var (s1, result) := ExecStep(h, s, id, node, input, 1);
          match result
          case Ok(output) => ExecGroup(h, s1, id, def, children[1..], input, done, merged[child := output])
          case Err(_) => (s1, result)
  }

  /** A step made up for a branch: no retry, the default timeout. */
  function BranchNode(name: string): StepNode {
    StepNode(name, StepConfig(name, 1, 30000, 1000), Sequential)
  }

  function ExecConditional(h: Host, s: Sys, id: WorkflowId, condition: string, onTrue: string, onFalse: string,
                           input: Json, done: map<string, Json>): (Sys, Result<Json>)
  {
    var (s1, cond) := if condition in done then (s, Ok(Null)) else ExecStep(h, s, id, BranchNode(condition), input, 1);
    var target := if cond.Ok? then onTrue else onFalse;
    if target in done then (s1, Ok(done[target])) else ExecStep(h, s1, id, BranchNode(target), input, 1)
  }

  function Verdict(h: Host, result: Result<Json>): NodeResult {
    match result
    case Ok(output) => Done(output)
    case Err(error) => Broke(h.show(error))
  }

  function SignalWait(h: Host, id: WorkflowId, signal: string, input: Json): NodeResult {
    if HasSignal(h, id, signal) then Done(input) else Broke("Waiting for signal: " + signal)
  }

  /** A node that is carried out within the workflow's own log. */
  function ExecLocal(h: Host, s: Sys, id: WorkflowId, def: WorkflowDef, node: StepNode, input: Json,
                     done: map<string, Json>): (Sys, NodeResult)
    requires !node.kind.SubWorkflow?
  {
    match node.kind
    case Sequential =>
      var (s1, result) := ExecStep(h, s, id, node, input, 1);
      (s1, Verdict(h, result))
    case Parallel(children) =>
      var (s1, result) := ExecGroup(h, s, id, def, children, input, done, map[]);
      (s1, Verdict(h, result))
    case Conditional(condition, onTrue, onFalse) =>
      var (s1, result) := ExecConditional(h, s, id, condition, onTrue, onFalse, input, done);
      (s1, Verdict(h, result))
    case Signal(signal) => (s, SignalWait(h, id, signal, input))
  }

  /** The child's carried value, however the child ended; None when it nests deeper than `depth`. */
  function ExecSubWorkflow(h: Host, s: Sys, node: StepNode, input: Json, depth: nat): Option<(Sys, NodeResult)>
    decreases depth, 0
  {
    if node.name !in s.defs then
      Some((s, Verdict(h, Err(StepFailedError(node.name, "sub-workflow definition not found")))))
    else if depth == 0 then None
    else
      match Start(h, s, s.defs[node.name], input, depth - 1)
      case None => None
      case Some((s1, child)) => Some((s1, Done(LastOutput(Load(s1, child)))))
  }

  /** One node of the workflow loop. */
  function ExecNode(h: Host, s: Sys, id: WorkflowId, def: WorkflowDef, node: StepNode, input: Json,
                    done: map<string, Json>, depth: nat): Option<(Sys, NodeResult)>
    decreases depth, 1
  {
    if node.kind.SubWorkflow? then ExecSubWorkflow(h, s, node, input, depth)
    else Some(ExecLocal(h, s, id, def, node, input, done))
  }

  /** The workflow loop from step i on, with the outputs a resume found already stored. */
  function RunSteps(h: Host, s: Sys, id: WorkflowId, def: WorkflowDef, i: nat, current: Json, done: map<string, Json>,
                    depth: nat): Option<Sys>
    decreases depth, 2, |def.steps| - i
  {
    if i >= |def.steps| then Some(Save(s, id, WorkflowCompleted(id, current, Now(h, s))))
    else
      var node := def.steps[i];
      if node.name in done then RunSteps(h, s, id, def, i + 1, done[node.name], done, depth)
      else
        match ExecNode(h, s, id, def, node, current, done, depth)
        case None => None
        case Some((s1, Broke(reason))) => Some(Save(s1, id, WorkflowFailed(id, reason, Now(h, s1))))
        case Some((s1, Done(output))) =>
          var s2 := Save(s1, id, StepCompleted(id, node.name, output, Now(h, s1)));
          RunSteps(h, s2, id, def, i + 1, output, done, depth)
  }

  /** The event by which the loop reports how a node ended. */
  function Report(h: Host, s: Sys, id: WorkflowId, node: StepNode, result: NodeResult): Event {
    match result
    case Done(output) => StepCompleted(id, node.name, output, Now(h, s))
    case Broke(reason) => WorkflowFailed(id, reason, Now(h, s))
  }

  lemma RunEnd(h: Host, s: Sys, id: WorkflowId, def: WorkflowDef, i: nat, current: Json, done: map<string, Json>,
               depth: nat)
    requires i >= |def.steps|
    ensures RunSteps(h, s, id, def, i, current, done, depth) ==
            Some(Save(s, id, WorkflowCompleted(id, current, Now(h, s))))
  {
  }

  lemma RunSkip(h: Host, s: Sys, id: WorkflowId, def: WorkflowDef, i: nat, current: Json, done: map<string, Json>,
                depth: nat)
    requires i < |def.steps| && def.steps[i].name in done
    ensures RunSteps(h, s, id, def, i, current, done, depth) ==
            RunSteps(h, s, id, def, i + 1, done[def.steps[i].name], done, depth)
  {
  }

  /** One turn of the loop at a step without a stored output. */
  lemma RunTurn(h: Host, s: Sys, id: WorkflowId, def: WorkflowDef, i: nat, current: Json, done: map<string, Json>,
                depth: nat)
    requires i < |def.steps| && def.steps[i].name !in done
    ensures var turn := ExecNode(h, s, id, def, def.steps[i], current, done, depth);
      var run := RunSteps(h, s, id, def, i, current, done, depth);
      && (turn.None? ==> run.None?)
      && (turn.Some? ==>
            var (s1, result) := turn.value;
            var s2 := Save(s1, id, Report(h, s1, id, def.steps[i], result));
            && (result.Broke? ==> run == Some(s2))
            && (result.Done? ==> run == RunSteps(h, s2, id, def, i + 1, result.output, done, depth)))
  {
    hide ExecNode;
  }

  /** From step i on, passing over stored steps, the loop next comes to a wait for this signal. */
  predicate Stops(def: WorkflowDef, i: nat, stored: set<string>, signal: string)
    decreases |def.steps| - i
  {
    && i < |def.steps|
    && if def.steps[i].name in stored then Stops(def, i + 1, stored, signal) else def.steps[i].kind == Signal(signal)
  }

  /** b is the number of steps, or a wait for an unsent signal at which the loop stops despite what is stored. */
  predicate Halts(h: Host, id: WorkflowId, def: WorkflowDef, b: nat, stored: set<string>) {
    || b == |def.steps|
    || (&& b < |def.steps| && def.steps[b].kind.Signal?
        && !HasSignal(h, id, def.steps[b].kind.signal)
        && Stops(def, b, stored, def.steps[b].kind.signal))
  }

  lemma {:induction false} StoppedRun(h: Host, s: Sys, id: WorkflowId, def: WorkflowDef, i: nat, current: Json,
                                      done: map<string, Json>, depth: nat, signal: string)
    requires Stops(def, i, done.Keys, signal) && !HasSignal(h, id, signal)
    ensures RunSteps(h, s, id, def, i, current, done, depth) ==
            Some(Save(s, id, WorkflowFailed(id, "Waiting for signal: " + signal, Now(h, s))))
    decreases |def.steps| - i
  {
    hide RunSteps;
    if def.steps[i].name in done {
      RunSkip(h, s, id, def, i, current, done, depth);
      StoppedRun(h, s, id, def, i + 1, done[def.steps[i].name], done, depth, signal);
    } else {
      RunTurn(h, s, id, def, i, current, done, depth);
    }
  }

  /** The state in which `Start` enters the workflow loop. */
  function Opened(h: Host, s: Sys, def: WorkflowDef, input: Json): Sys {
    var id := h.freshId(s.ticks);
    Save(s.(defs := s.defs[id := def]), id, WorkflowStarted(id, def.name, input, Now(h, s)))
  }

  function Start(h: Host, s: Sys, def: WorkflowDef, input: Json, depth: nat): Option<(Sys, WorkflowId)>
    decreases depth, 3
  {
    var id := h.freshId(s.ticks);
    match RunSteps(h, Opened(h, s, def, input), id, def, 0, input, map[], depth)
    case None => None
    case Some(s1) => Some((s1, id))
  }

  /** Why a resume does not run anything, or None when it goes on. */
  function ResumeVerdict(log: seq<Event>, id: WorkflowId): Option<Result<()>> {
    if log == [] then Some(Err(WorkflowNotFound(id)))
    else
      match StateOf(log).status
      case Completed => Some(Ok(()))
      case Failed => Some(Err(StepFailedError(StateOf(log).currentStep, "workflow previously failed")))
      case Cancelled => Some(Err(InvalidTransition("cancelled", "resume")))
      case _ => None
  }

  function Resume(h: Host, s: Sys, id: WorkflowId, def: WorkflowDef, depth: nat): Option<(Sys, Result<()>)> {
    var log := Load(s, id);
    match ResumeVerdict(log, id)
    case Some(verdict) => Some((s, verdict))
    case None =>
      match RunSteps(h, s.(defs := s.defs[id := def]), id, def, 0, LastOutput(log), StateOf(log).completedSteps, depth)
      case None => None
      case Some(s1) => Some((s1, Ok(())))
  }

  /** `start` under a global limit: an overrun adds a failure after whatever the run has written. */
  function StartWithTimeout(h: Host, s: Sys, def: WorkflowDef, input: Json, limitMs: int, elapsedMs: int, depth: nat)
    : Option<(Sys, Result<WorkflowId>)>
  {
    match Start(h, s, def, input, depth)
    case None => None
    case Some((s1, id)) =>
      if limitMs > 0 && elapsedMs > limitMs then
        Some((Save(s1, id, WorkflowFailed(id, "workflow timeout exceeded", Now(h, s1))),
              Err(StepTimeout("workflow", limitMs))))
      else Some((s1, Ok(id)))
  }

  /** Handlers in turn on the same input; nothing is stored. */
  function ExecBatch(h: Host, calls: seq<Call>, names: seq<string>, input: Json, failFast: bool,
                     merged: map<string, Json>, firstError: Option<WorkflowError>): (seq<Call>, Result<Json>)
    decreases |names|
  {
    if names == [] then (calls, if firstError.Some? then Err(firstError.value) else Ok(Object(merged)))
    else
      var name := names[0];
      if name !in h.registry then (calls, Err(StepFailedError(name, "handler not found")))
      else
        var calls1 := calls + [Call(name, input, 1)];
        match h.registry[name](calls, input, 1).result
        case Ok(output) => ExecBatch(h, calls1, names[1..], input, failFast, merged[name := output], firstError)
        case Err(error) =>
          if failFast then (calls1, Err(error))
          else
            ExecBatch(h, calls1, names[1..], input, failFast, merged,
                      if firstError.None? then Some(error) else firstError)
  }

  // ---------------------------------------------------------------------------------------------
  // What a run leaves alone
  // ---------------------------------------------------------------------------------------------

  /** Generated ids repeat neither each other nor an id the store already holds. */
  ghost predicate Fresh(h: Host, s: Sys) {
    && (forall m: nat, n: nat :: m != n ==> h.freshId(m) != h.freshId(n))
    && (forall n: nat :: n >= s.ticks ==> h.freshId(n) !in s.logs)
  }

  /** Only the log of `id` may have changed among the logs of s; new logs may have appeared. */
  ghost predicate Frame(s: Sys, s': Sys, id: WorkflowId) {
    && s.ticks <= s'.ticks
    && id in s.logs && id in s'.logs
    && s.logs.Keys <= s'.logs.Keys
    && forall o :: o in s.logs && o != id ==> s'.logs[o] == s.logs[o]
  }

  /** The log of `id` has grown by events about the named steps, none of which completes a step. */
  ghost predicate Quietly(s: Sys, s': Sys, id: WorkflowId, names: set<string>) {
    && id in s.logs && id in s'.logs
    && s.logs[id] <= s'.logs[id]
    && forall k :: |s.logs[id]| <= k < |s'.logs[id]| ==>
         s'.logs[id][k].Quiet() && s'.logs[id][k].step in names && s'.logs[id][k].id == id
  }

  lemma FrameTransitive(s0: Sys, s1: Sys, s2: Sys, id: WorkflowId)
    requires Frame(s0, s1, id) && Frame(s1, s2, id)
    ensures Frame(s0, s2, id)
  {
    forall o | o in s0.logs && o != id
      ensures s2.logs[o] == s0.logs[o]
    {
      assert s1.logs[o] == s0.logs[o];
    }
  }

  lemma QuietlyTransitive(s0: Sys, s1: Sys, s2: Sys, id: WorkflowId, names: set<string>)
    requires Quietly(s0, s1, id, names) && Quietly(s1, s2, id, names)
    ensures Quietly(s0, s2, id, names)
  {
    forall k | |s0.logs[id]| <= k < |s2.logs[id]|
      ensures s2.logs[id][k].Quiet() && s2.logs[id][k].step in names && s2.logs[id][k].id == id
    {
      if k < |s1.logs[id]| {
        assert s2.logs[id][k] == s1.logs[id][k];
      }
    }
  }

  lemma SaveFrame(h: Host, s: Sys, id: WorkflowId, e: Event)
    requires Fresh(h, s) && id in s.logs
    ensures Frame(s, Save(s, id, e), id) && Fresh(h, Save(s, id, e))
  {
  }

  /** What a single step's attempts leave behind: progress events about that step in its own log, nothing else. */
  ghost predicate LocalStep(h: Host, s: Sys, s': Sys, id: WorkflowId, names: set<string>) {
    Frame(s, s', id) && Quietly(s, s', id, names) && Fresh(h, s') && s'.defs == s.defs && s'.logs.Keys == s.logs.Keys
  }

  lemma LocalTransitive(h: Host, s0: Sys, s1: Sys, s2: Sys, id: WorkflowId, names: set<string>)
    requires LocalStep(h, s0, s1, id, names) && LocalStep(h, s1, s2, id, names)
    ensures LocalStep(h, s0, s2, id, names)
  {
    FrameTransitive(s0, s1, s2, id);
    QuietlyTransitive(s0, s1, s2, id, names);
  }

  lemma LocalSave(h: Host, s: Sys, id: WorkflowId, e: Event, names: set<string>)
    requires Fresh(h, s) && id in s.logs && e.Quiet() && e.step in names && e.id == id
    ensures LocalStep(h, s, Save(s, id, e), id, names)
  {
  }

  lemma LocalAttempt(h: Host, s: Sys, id: WorkflowId, node: StepNode, input: Json, attempt: int)
    requires Fresh(h, s) && id in s.logs && node.name in h.registry
    ensures LocalStep(h, s, Attempt(h, s, id, node, input, attempt).0, id, {node.name})
  {
  }

  lemma {:induction false} ExecStepLocal(h: Host, s: Sys, id: WorkflowId, node: StepNode, input: Json, attempt: int)
    requires Fresh(h, s) && id in s.logs
    ensures LocalStep(h, s, ExecStep(h, s, id, node, input, attempt).0, id, {node.name})
    decreases node.config.maxRetry - attempt
  {
    var names := {node.name};
    var started := StepStarted(id, node.name, attempt, Now(h, s));
    var s1 := Save(s, id, started);
    LocalSave(h, s, id, started, names);
    if node.name in h.registry {
      var (s2, result) := Attempt(h, s1, id, node, input, attempt);
      LocalAttempt(h, s1, id, node, input, attempt);
      LocalTransitive(h, s, s1, s2, id, names);
      if result.Err? {
        if attempt < node.config.maxRetry {
          var retrying := StepRetrying(id, node.name, attempt + 1, node.config.retryDelayMs, Now(h, s2));
          var s3 := Save(s2, id, retrying);
          LocalSave(h, s2, id, retrying, names);
          LocalTransitive(h, s, s2, s3, id, names);
          ExecStepLocal(h, s3, id, node, input, attempt + 1);
          LocalTransitive(h, s, s3, ExecStep(h, s3, id, node, input, attempt + 1).0, id, names);
        } else {
          var failed := StepFailed(id, node.name, h.show(result.error), attempt, Now(h, s2));
          LocalSave(h, s2, id, failed, names);
          LocalTransitive(h, s, s2, Save(s2, id, failed), id, names);
        }
      }
    }
  }

  lemma QuietlyWiden(h: Host, s: Sys, s': Sys, id: WorkflowId, names: set<string>, wider: set<string>)
    requires LocalStep(h, s, s', id, names) && names <= wider
    ensures LocalStep(h, s, s', id, wider)
  {
  }

  lemma {:induction false} ExecGroupLocal(h: Host, s: Sys, id: WorkflowId, def: WorkflowDef, children: seq<string>,
                                          input: Json, done: map<string, Json>, merged: map<string, Json>,
                                          names: set<string>)
    requires Fresh(h, s) && id in s.logs
    requires forall c :: c in children ==> c in names
    ensures LocalStep(h, s, ExecGroup(h, s, id, def, children, input, done, merged).0, id, names)
    decreases |children|
  {
    if children != [] {
      var child := children[0];
      if child in done {
        ExecGroupLocal(h, s, id, def, children[1..], input, done, merged[child := done[child]], names);
      } else {
        match FindStep(def.steps, child)
        case None =>
        case Some(node) =>
          var (s1, result) := ExecStep(h, s, id, node, input, 1);
          ExecStepLocal(h, s, id, node, input, 1);
          QuietlyWiden(h, s, s1, id, {node.name}, names);
          if result.Ok? {
            var merged' := merged[child := result.value];
            ExecGroupLocal(h, s1, id, def, children[1..], input, done, merged', names);
            LocalTransitive(h, s, s1, ExecGroup(h, s1, id, def, children[1..], input, done, merged').0, id, names);
          }
      }
    }
  }

  lemma ExecConditionalLocal(h: Host, s: Sys, id: WorkflowId, condition: string, onTrue: string, onFalse: string,
                             input: Json, done: map<string, Json>)
    requires Fresh(h, s) && id in s.logs
    ensures LocalStep(h, s, ExecConditional(h, s, id, condition, onTrue, onFalse, input, done).0, id,
                      {condition, onTrue, onFalse})
  {
    var names := {condition, onTrue, onFalse};
    var (s1, cond) := if condition in done then (s, Ok(Null)) else ExecStep(h, s, id, BranchNode(condition), input, 1);
    if condition !in done {
      ExecStepLocal(h, s, id, BranchNode(condition), input, 1);
      QuietlyWiden(h, s, s1, id, {condition}, names);
    }
    var target := if cond.Ok? then onTrue else onFalse;
    if target !in done {
      var s2 := ExecStep(h, s1, id, BranchNode(target), input, 1).0;
      ExecStepLocal(h, s1, id, BranchNode(target), input, 1);
      QuietlyWiden(h, s1, s2, id, {target}, names);
      LocalTransitive(h, s, s1, s2, id, names);
    }
  }

  /** The names under which a step asks for stored outputs. */
  function Consulted(node: StepNode): set<string> {
    match node.kind
    case Parallel(children) => set c | c in children
    case Conditional(condition, onTrue, onFalse) => {condition, onTrue, onFalse}
    case _ => {}
  }

  /** The steps a node may write progress events about in its own workflow's log. */
  function Touched(node: StepNode): set<string> {
    if node.kind.Sequential? then {node.name} else Consulted(node)
  }

  lemma OpenedFrame(h: Host, s: Sys, def: WorkflowDef, input: Json)
    requires Fresh(h, s)
    ensures var id, s' := h.freshId(s.ticks), Opened(h, s, def, input);
      && id !in s.logs
      && Fresh(h, s')
      && s'.logs == s.logs[id := [WorkflowStarted(id, def.name, input, Now(h, s))]]
      && s'.defs == s.defs[id := def]
      && s'.ticks == s.ticks + 1
  {
    assert h.freshId(s.ticks) !in s.logs;
    assert [] + [WorkflowStarted(h.freshId(s.ticks), def.name, input, Now(h, s))]
        == [WorkflowStarted(h.freshId(s.ticks), def.name, input, Now(h, s))];
  }

  lemma ExecLocalFrame(h: Host, s: Sys, id: WorkflowId, def: WorkflowDef, node: StepNode, input: Json,
                       done: map<string, Json>)
    requires Fresh(h, s) && id in s.logs && !node.kind.SubWorkflow?
    ensures LocalStep(h, s, ExecLocal(h, s, id, def, node, input, done).0, id, Touched(node))
  {
    match node.kind
    case Sequential => ExecStepLocal(h, s, id, node, input, 1);
    case Parallel(children) => ExecGroupLocal(h, s, id, def, children, input, done, map[], Touched(node));
    case Conditional(c, t, f) => ExecConditionalLocal(h, s, id, c, t, f, input, done);
    case Signal(_) =>
  }

  lemma {:induction false} ExecNodeFrame(h: Host, s: Sys, id: WorkflowId, def: WorkflowDef, node: StepNode, input: Json,
                                         done: map<string, Json>, depth: nat)
    requires Fresh(h, s) && id in s.logs
    ensures var r := ExecNode(h, s, id, def, node, input, done, depth);
      r.Some? ==> Frame(s, r.value.0, id) && Quietly(s, r.value.0, id, Touched(node)) && Fresh(h, r.value.0)
    decreases depth, 0
  {
    hide ExecLocal, RunSteps;
    if !node.kind.SubWorkflow? {
      ExecLocalFrame(h, s, id, def, node, input, done);
    } else if node.name in s.defs && depth > 0 {
      StartFrame(h, s, s.defs[node.name], input, depth - 1);
    }
  }

  /** A node followed by the event that reports how it ended. */
  lemma NodeStored(h: Host, s: Sys, id: WorkflowId, def: WorkflowDef, node: StepNode, input: Json,
                   done: map<string, Json>, depth: nat, e: Event)
    requires Fresh(h, s) && id in s.logs
    requires ExecNode(h, s, id, def, node, input, done, depth).Some?
    ensures var s1 := ExecNode(h, s, id, def, node, input, done, depth).value.0;
      var s2 := Save(s1, id, e);
      && id in s1.logs && s.logs[id] <= s1.logs[id]
      && Quietly(s, s1, id, Touched(node))
      && s2.logs[id] == s1.logs[id] + [e]
      && Frame(s, s2, id) && Fresh(h, s2)
    decreases depth, 1
  {
    ExecNodeFrame(h, s, id, def, node, input, done, depth);
    var s1 := ExecNode(h, s, id, def, node, input, done, depth).value.0;
    SaveFrame(h, s1, id, e);
    FrameTransitive(s, s1, Save(s1, id, e), id);
  }

  lemma {:induction false} RunStepsFrame(h: Host, s: Sys, id: WorkflowId, def: WorkflowDef, i: nat, current: Json,
                                         done: map<string, Json>, depth: nat)
    requires Fresh(h, s) && id in s.logs
    ensures var r := RunSteps(h, s, id, def, i, current, done, depth);
      r.Some? ==> Frame(s, r.value, id) && Fresh(h, r.value) && s.logs[id] <= r.value.logs[id]
    decreases depth, 2, |def.steps| - i
  {
    hide RunSteps, ExecNode;
    if i >= |def.steps| {
      RunEnd(h, s, id, def, i, current, done, depth);
      SaveFrame(h, s, id, WorkflowCompleted(id, current, Now(h, s)));
    } else if def.steps[i].name in done {
      RunSkip(h, s, id, def, i, current, done, depth);
      RunStepsFrame(h, s, id, def, i + 1, done[def.steps[i].name], done, depth);
    } else {
      RunTurn(h, s, id, def, i, current, done, depth);
      var turn := ExecNode(h, s, id, def, def.steps[i], current, done, depth);
      if turn.Some? {
        var (s1, result) := turn.value;
        var e := Report(h, s1, id, def.steps[i], result);
        var s2 := Save(s1, id, e);
        NodeStored(h, s, id, def, def.steps[i], current, done, depth, e);
        if result.Done? {
          RunStepsFrame(h, s2, id, def, i + 1, result.output, done, depth);
          var run := RunSteps(h, s2, id, def, i + 1, result.output, done, depth);
          if run.Some? {
            FrameTransitive(s, s2, run.value, id);
          }
        }
      }
    }
  }

  /** Starting a workflow leaves every existing log as it was and adds the new one under a generated id. */
  lemma {:induction false} StartFrame(h: Host, s: Sys, def: WorkflowDef, input: Json, depth: nat)
    requires Fresh(h, s)
    ensures var r := Start(h, s, def, input, depth);
      r.Some? ==>
        && Fresh(h, r.value.0)
        && s.ticks <= r.value.0.ticks
        && r.value.1 == h.freshId(s.ticks) && r.value.1 !in s.logs && r.value.1 in r.value.0.logs
        && s.logs.Keys <= r.value.0.logs.Keys
        && forall o :: o in s.logs ==> r.value.0.logs[o] == s.logs[o]
    decreases depth, 3
  {
    var id := h.freshId(s.ticks);
    OpenedFrame(h, s, def, input);
    RunStepsFrame(h, Opened(h, s, def, input), id, def, 0, input, map[], depth);
  }

  // ---------------------------------------------------------------------------------------------
  // The stored definitions
  // ---------------------------------------------------------------------------------------------

  /** Either state holds the same definition under the name, or none. */
  predicate SameDef(s: Sys, s': Sys, name: string) {
    (name in s.defs <==> name in s'.defs) && (name in s.defs ==> s'.defs[name] == s.defs[name])
  }

  lemma {:induction false} NodeKeepsDefs(h: Host, s: Sys, id: WorkflowId, def: WorkflowDef, node: StepNode, input: Json,
                                         done: map<string, Json>, depth: nat, name: string)
    requires Fresh(h, s) && id in s.logs && (forall n: nat :: n >= s.ticks ==> h.freshId(n) != name)
    ensures var r := ExecNode(h, s, id, def, node, input, done, depth);
      r.Some? ==> SameDef(s, r.value.0, name)
    decreases depth, 0
  {
    hide ExecLocal, Start;
    if !node.kind.SubWorkflow? {
      ExecLocalFrame(h, s, id, def, node, input, done);
    } else if node.name in s.defs && depth > 0 {
      StartKeepsDefs(h, s, s.defs[node.name], input, depth - 1, name);
    }
  }

  lemma {:induction false} RunKeepsDefs(h: Host, s: Sys, id: WorkflowId, def: WorkflowDef, i: nat, current: Json,
                                        done: map<string, Json>, depth: nat, name: string)
    requires Fresh(h, s) && id in s.logs && (forall n: nat :: n >= s.ticks ==> h.freshId(n) != name)
    ensures var r := RunSteps(h, s, id, def, i, current, done, depth);
      r.Some? ==> SameDef(s, r.value, name)
    decreases depth, 1, |def.steps| - i
  {
    hide RunSteps, ExecNode;
    if i >= |def.steps| {
      RunEnd(h, s, id, def, i, current, done, depth);
    } else if def.steps[i].name in done {
      RunSkip(h, s, id, def, i, current, done, depth);
      RunKeepsDefs(h, s, id, def, i + 1, done[def.steps[i].name], done, depth, name);
    } else {
      RunTurn(h, s, id, def, i, current, done, depth);
      var turn := ExecNode(h, s, id, def, def.steps[i], current, done, depth);
      if turn.Some? {
        var (s1, result) := turn.value;
        var e := Report(h, s1, id, def.steps[i], result);
        NodeKeepsDefs(h, s, id, def, def.steps[i], current, done, depth, name);
        NodeStored(h, s, id, def, def.steps[i], current, done, depth, e);
        if result.Done? {
          RunKeepsDefs(h, Save(s1, id, e), id, def, i + 1, result.output, done, depth, name);
        }
      }
    }
  }

  /** A start leaves what is stored under any name but generated ones. */
  lemma {:induction false} StartKeepsDefs(h: Host, s: Sys, def: WorkflowDef, input: Json, depth: nat, name: string)
    requires Fresh(h, s) && forall n: nat :: n >= s.ticks ==> h.freshId(n) != name
    ensures var r := Start(h, s, def, input, depth);
      r.Some? ==> SameDef(s, r.value.0, name)
    decreases depth, 2
  {
    OpenedFrame(h, s, def, input);
    RunKeepsDefs(h, Opened(h, s, def, input), h.freshId(s.ticks), def, 0, input, map[], depth, name);
  }

  /** Afterwards a started workflow's definition is found under its id, and its log opens with its start. */
  lemma StartRecords(h: Host, s: Sys, def: WorkflowDef, input: Json, depth: nat)
    requires Fresh(h, s) && Start(h, s, def, input, depth).Some?
    ensures var (s', id) := Start(h, s, def, input, depth).value;
      && id in s'.defs && s'.defs[id] == def
      && id in s'.logs && s'.logs[id] != []
      && s'.logs[id][0] == WorkflowStarted(id, def.name, input, h.clock(s.ticks))
  {
    hide RunSteps;
    var id, s0 := h.freshId(s.ticks), Opened(h, s, def, input);
    OpenedFrame(h, s, def, input);
    RunKeepsDefs(h, s0, id, def, 0, input, map[], depth, id);
    RunStepsFrame(h, s0, id, def, 0, input, map[], depth);
  }
}
