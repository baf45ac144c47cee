/**
 * A log-free interpreter of definitions, and the engine as its refinement: a run, from whatever step and
 * with whatever stored outputs that the rest does not ask for, leaves the interpreter's completions and ending.
 */
module Interpreter {
  import opened Types
  import opened Replay
  import opened Execution
  import opened Lifecycle

  /** Handlers and definitions as an engine is set up with them, before anything has run. */
  datatype Program = Program(
    registry: map<string, Handler>,
    show: WorkflowError -> string,
    lib: map<string, WorkflowDef>)

  datatype Ending = Finished(output: Json) | Aborted(reason: string)

  datatype Outline = Outline(completions: seq<Completion>, ending: Ending)

  // ---------------------------------------------------------------------------------------------
  // The interpreter: no log, no ids, no clock, no crash
  // ---------------------------------------------------------------------------------------------

  function EvalAttempt(p: Program, node: StepNode, input: Json, attempt: int): Result<Json>
    requires node.name in p.registry
  {
    var outcome := p.registry[node.name]([], input, attempt);
    if node.config.timeoutMs > 0 && outcome.elapsedMs > node.config.timeoutMs
    then Err(StepTimeout(node.name, node.config.timeoutMs))
    else outcome.result
  }

  /** The first successful attempt from the given one on, or the error of the last. */
  function EvalStep(p: Program, node: StepNode, input: Json, attempt: int): Result<Json>
    decreases node.config.maxRetry - attempt
  {
    if node.name !in p.registry then Err(StepFailedError(node.name, "no handler registered"))
    else if EvalAttempt(p, node, input, attempt).Ok? then EvalAttempt(p, node, input, attempt)
    else if attempt < node.config.maxRetry then EvalStep(p, node, input, attempt + 1)
    else Err(StepMaxRetriesExceeded(node.name, attempt))
  }

  function EvalGroup(p: Program, def: WorkflowDef, children: seq<string>, input: Json, merged: map<string, Json>)
    : Result<Json>
    decreases |children|
  {
    if children == [] then Ok(Object(merged))
    else
      match FindStep(def.steps, children[0])
      case None => Err(StepFailedError(children[0], "child step not found"))
      case Some(node) =>
        match EvalStep(p, node, input, 1)
        case Ok(output) => EvalGroup(p, def, children[1..], input, merged[children[0] := output])
        case Err(error) => Err(error)
  }

  function EvalConditional(p: Program, condition: string, onTrue: string, onFalse: string, input: Json): Result<Json> {
    var cond := EvalStep(p, BranchNode(condition), input, 1);
    EvalStep(p, BranchNode(if cond.Ok? then onTrue else onFalse), input, 1)
  }

  function Settle(p: Program, result: Result<Json>): NodeResult {
    match result
    case Ok(output) => Done(output)
    case Err(error) => Broke(p.show(error))
  }

  function EvalLocal(p: Program, signals: map<string, bool>, def: WorkflowDef, node: StepNode, input: Json): NodeResult
    requires !node.kind.SubWorkflow?
  {
    match node.kind
    case Sequential => Settle(p, EvalStep(p, node, input, 1))
    case Parallel(children) => Settle(p, EvalGroup(p, def, children, input, map[]))
    case Conditional(c, t, f) => Settle(p, EvalConditional(p, c, t, f, input))
    case Signal(signal) =>
      if signal in signals && signals[signal] then Done(input) else Broke("Waiting for signal: " + signal)
  }

  function EvalNode(p: Program, signals: map<string, bool>, def: WorkflowDef, node: StepNode, input: Json, depth: nat)
    : Option<NodeResult>
    decreases depth, 0
  {
    if !node.kind.SubWorkflow? then Some(EvalLocal(p, signals, def, node, input))
    else if node.name !in p.lib then
      Some(Settle(p, Err(StepFailedError(node.name, "sub-workflow definition not found"))))
    else if depth == 0 then None
    else
      match Eval(p, map[], p.lib[node.name], 0, input, depth - 1)
      case None => None
      case Some(o) => Some(Done(Carried(o.completions, input)))
  }

  /** The steps from i on: what completes, with which output, and how it ends. */
  function Eval(p: Program, signals: map<string, bool>, def: WorkflowDef, i: nat, current: Json, depth: nat)
    : Option<Outline>
    decreases depth, 1, |def.steps| - i
  {
    if i >= |def.steps| then Some(Outline([], Finished(current)))
    else
      match EvalNode(p, signals, def, def.steps[i], current, depth)
      case None => None
      case Some(Broke(reason)) => Some(Outline([], Aborted(reason)))
      case Some(Done(output)) =>
        match Eval(p, signals, def, i + 1, output, depth)
        case None => None
        case Some(rest) =>
          Some(Outline([Completion(def.steps[i].name, output)] + rest.completions, rest.ending))
  }

  lemma EvalTurn(p: Program, signals: map<string, bool>, def: WorkflowDef, i: nat, current: Json, depth: nat)
    requires i < |def.steps|
    ensures var turn := EvalNode(p, signals, def, def.steps[i], current, depth);
      var outline := Eval(p, signals, def, i, current, depth);
      && (turn.None? ==> outline.None?)
      && (turn.Some? && turn.value.Broke? ==> outline == Some(Outline([], Aborted(turn.value.reason))))
      && (turn.Some? && turn.value.Done? ==>
            var rest := Eval(p, signals, def, i + 1, turn.value.output, depth);
            && (rest.None? ==> outline.None?)
            && (rest.Some? ==>
                  outline == Some(Outline([Completion(def.steps[i].name, turn.value.output)] + rest.value.completions,
                                          rest.value.ending))))
  {
    hide EvalNode;
  }

  /** The value carried past the given completions. */
  function Carried(completions: seq<Completion>, input: Json): Json {
    if completions == [] then input else completions[|completions| - 1].output
  }

  // ---------------------------------------------------------------------------------------------
  // The engine refines the interpreter
  // ---------------------------------------------------------------------------------------------

  /** An outcome depends only on the step, its input and the attempt, not on earlier calls. */
  ghost predicate Stateless(registry: map<string, Handler>) {
    forall n, calls, input, attempt :: n in registry ==>
      registry[n](calls, input, attempt) == registry[n]([], input, attempt)
  }

  function SignalsOf(h: Host, id: WorkflowId): map<string, bool> {
    if id in h.signals then h.signals[id] else map[]
  }

  /** The names under which a definition looks for sub-workflows. */
  function SubNames(def: WorkflowDef): set<string> {
    set i | 0 <= i < |def.steps| && def.steps[i].kind.SubWorkflow? :: def.steps[i].name
  }

  /** `names` holds every sub-workflow name that def and the definitions it can reach use. */
  ghost predicate Closed(p: Program, def: WorkflowDef, names: set<string>) {
    && SubNames(def) <= names
    && forall n :: n in names && n in p.lib ==> SubNames(p.lib[n]) <= names
  }

  /** Nothing refers to a generated id: neither a definition nor a signal. */
  ghost predicate Unnamed(h: Host, names: set<string>) {
    forall n: nat :: h.freshId(n) !in names && h.freshId(n) !in h.signals
  }

  /** The host runs the program: same handlers, no state, generated ids that nothing refers to. */
  ghost predicate Hosts(h: Host, p: Program, names: set<string>) {
    && h.registry == p.registry && h.show == p.show && Stateless(p.registry)
    && Unnamed(h, names)
  }

  /** Under the given names, the engine holds the program's definitions. */
  ghost predicate Knows(s: Sys, p: Program, names: set<string>) {
    forall n :: n in names ==> (n in s.defs <==> n in p.lib) && (n in s.defs ==> s.defs[n] == p.lib[n])
  }

  lemma {:induction false} StepRefines(h: Host, p: Program, s: Sys, id: WorkflowId, node: StepNode, input: Json,
                                       attempt: int)
    requires h.registry == p.registry && Stateless(p.registry)
    ensures ExecStep(h, s, id, node, input, attempt).1 == EvalStep(p, node, input, attempt)
    decreases node.config.maxRetry - attempt
  {
    if node.name in h.registry {
      var s1 := Save(s, id, StepStarted(id, node.name, attempt, Now(h, s)));
      var (s2, result) := Attempt(h, s1, id, node, input, attempt);
      assert result == EvalAttempt(p, node, input, attempt);
      if result.Err? && attempt < node.config.maxRetry {
        var e := StepRetrying(id, node.name, attempt + 1, node.config.retryDelayMs, Now(h, s2));
        StepRefines(h, p, Save(s2, id, e), id, node, input, attempt + 1);
      }
    }
  }

  lemma {:induction false} GroupRefines(h: Host, p: Program, s: Sys, id: WorkflowId, def: WorkflowDef,
                                        children: seq<string>, input: Json, done: map<string, Json>,
                                        merged: map<string, Json>)
    requires h.registry == p.registry && Stateless(p.registry)
    requires forall c :: c in children ==> c !in done
    ensures ExecGroup(h, s, id, def, children, input, done, merged).1 == EvalGroup(p, def, children, input, merged)
    decreases |children|
  {
    if children != [] {
      match FindStep(def.steps, children[0])
      case None =>
      case Some(node) =>
        StepRefines(h, p, s, id, node, input, 1);
        var (s1, result) := ExecStep(h, s, id, node, input, 1);
        if result.Ok? {
          GroupRefines(h, p, s1, id, def, children[1..], input, done, merged[children[0] := result.value]);
        }
    }
  }

  lemma ConditionalRefines(h: Host, p: Program, s: Sys, id: WorkflowId, c: string, t: string, f: string, input: Json,
                           done: map<string, Json>)
    requires h.registry == p.registry && Stateless(p.registry)
    requires t !in done && f !in done && (c !in done || t == f)
    ensures ExecConditional(h, s, id, c, t, f, input, done).1 == EvalConditional(p, c, t, f, input)
  {
    StepRefines(h, p, s, id, BranchNode(c), input, 1);
    var (s1, cond) := ExecStep(h, s, id, BranchNode(c), input, 1);
    StepRefines(h, p, s1, id, BranchNode(if cond.Ok? then t else f), input, 1);
  }

  /** The engine's definitions after a node still are the program's. */
  lemma {:induction false} NodeKnows(h: Host, p: Program, names: set<string>, s: Sys, id: WorkflowId, def: WorkflowDef,
                                     node: StepNode, input: Json, done: map<string, Json>, depth: nat)
    requires Fresh(h, s) && id in s.logs && Unnamed(h, names) && Knows(s, p, names)
    ensures var r := ExecNode(h, s, id, def, node, input, done, depth);
      r.Some? ==> Knows(r.value.0, p, names)
    decreases depth, 0
  {
    hide ExecLocal;
    if !node.kind.SubWorkflow? {
      ExecLocalFrame(h, s, id, def, node, input, done);
    } else if node.name in s.defs && depth > 0 {
      StartKnows(h, p, names, s, s.defs[node.name], input, depth - 1);
    }
  }

  lemma {:induction false} StartKnows(h: Host, p: Program, names: set<string>, s: Sys, def: WorkflowDef, input: Json,
                                      depth: nat)
    requires Fresh(h, s) && Unnamed(h, names) && Knows(s, p, names)
    ensures var r := Start(h, s, def, input, depth);
      r.Some? ==> Knows(r.value.0, p, names)
    decreases depth, 2
  {
    OpenedFrame(h, s, def, input);
    RunKnows(h, p, names, Opened(h, s, def, input), h.freshId(s.ticks), def, 0, input, map[], depth);
  }

  lemma {:induction false} RunKnows(h: Host, p: Program, names: set<string>, s: Sys, id: WorkflowId, def: WorkflowDef,
                                    i: nat, current: Json, done: map<string, Json>, depth: nat)
    requires Fresh(h, s) && id in s.logs && Unnamed(h, names) && Knows(s, p, names)
    ensures var r := RunSteps(h, s, id, def, i, current, done, depth);
      r.Some? ==> Knows(r.value, p, names)
    decreases depth, 1, |def.steps| - i
  {
    hide RunSteps, ExecNode;
    if i >= |def.steps| {
      RunEnd(h, s, id, def, i, current, done, depth);
    } else if def.steps[i].name in done {
      RunSkip(h, s, id, def, i, current, done, depth);
      RunKnows(h, p, names, s, id, def, i + 1, done[def.steps[i].name], done, depth);
    } else {
      RunTurn(h, s, id, def, i, current, done, depth);
      var turn := ExecNode(h, s, id, def, def.steps[i], current, done, depth);
      if turn.Some? {
        var (s1, result) := turn.value;
        NodeKnows(h, p, names, s, id, def, def.steps[i], current, done, depth);
        if result.Done? {
          var e := Report(h, s1, id, def.steps[i], result);
          NodeStored(h, s, id, def, def.steps[i], current, done, depth, e);
          RunKnows(h, p, names, Save(s1, id, e), id, def, i + 1, result.output, done, depth);
        }
      }
    }
  }

  /** The last event of a log says how the run ended. */
  predicate EndsAs(log: seq<Event>, ending: Ending) {
    && log != []
    && match log[|log| - 1]
       case WorkflowCompleted(_, output, _) => ending == Finished(output)
       case WorkflowFailed(_, reason, _) => ending == Aborted(reason)
       case _ => false
  }

  /** The names whose stored outputs can change what a step does. */
  function Decisive(node: StepNode): set<string> {
    match node.kind
    case Conditional(condition, onTrue, onFalse) =>
      if onTrue == onFalse then {onTrue} else {condition, onTrue, onFalse}
    case _ => Consulted(node)
  }

  /** The stored outputs play no part in the steps from i up to b. */
  ghost predicate Unaffected(def: WorkflowDef, i: nat, b: nat, done: map<string, Json>) {
    forall j :: i <= j < b && j < |def.steps| ==> def.steps[j].name !in done && Decisive(def.steps[j]) !! done.Keys
  }

  lemma LocalRefines(h: Host, p: Program, s: Sys, id: WorkflowId, def: WorkflowDef, node: StepNode, input: Json,
                     done: map<string, Json>)
    requires h.registry == p.registry && h.show == p.show && Stateless(p.registry)
    requires !node.kind.SubWorkflow? && Decisive(node) !! done.Keys
    ensures ExecLocal(h, s, id, def, node, input, done).1 == EvalLocal(p, SignalsOf(h, id), def, node, input)
  {
    hide ExecStep, ExecGroup, ExecConditional, EvalStep, EvalGroup, EvalConditional, Stateless;
    match node.kind
    case Sequential => StepRefines(h, p, s, id, node, input, 1);
    case Parallel(children) => GroupRefines(h, p, s, id, def, children, input, done, map[]);
    case Conditional(c, t, f) => ConditionalRefines(h, p, s, id, c, t, f, input, done);
    case Signal(_) =>
  }

  /** A node has the outcome the interpreter gives it; it nests too deep exactly when the interpreter does. */
  lemma {:induction false} NodeRefines(h: Host, p: Program, names: set<string>, s: Sys, id: WorkflowId,
                                       def: WorkflowDef, node: StepNode, input: Json, done: map<string, Json>,
                                       depth: nat)
    requires Fresh(h, s) && id in s.logs && Hosts(h, p, names) && Knows(s, p, names) && Closed(p, def, names)
    requires node in def.steps && Decisive(node) !! done.Keys
    ensures var r := ExecNode(h, s, id, def, node, input, done, depth);
      var o := EvalNode(p, SignalsOf(h, id), def, node, input, depth);
      && (r.Some? <==> o.Some?)
      && (r.Some? ==> r.value.1 == o.value)
    decreases depth, 0
  {
    hide ExecLocal, EvalLocal, Start, Eval, Stateless;
    if !node.kind.SubWorkflow? {
      LocalRefines(h, p, s, id, def, node, input, done);
    } else {
      assert node.name in SubNames(def);
      if node.name in s.defs && depth > 0 {
        StartRefines(h, p, names, s, s.defs[node.name], input, depth - 1);
      }
    }
  }

  lemma UnaffectedStep(def: WorkflowDef, i: nat, b: nat, done: map<string, Json>)
    requires i < b <= |def.steps| && Unaffected(def, i, b, done)
    ensures def.steps[i].name !in done && Decisive(def.steps[i]) !! done.Keys && Unaffected(def, i + 1, b, done)
  {
  }

  lemma EndRefines(h: Host, p: Program, s: Sys, id: WorkflowId, def: WorkflowDef, i: nat, current: Json,
                   done: map<string, Json>, depth: nat)
    requires id in s.logs && i >= |def.steps|
    ensures var r := RunSteps(h, s, id, def, i, current, done, depth);
      var o := Eval(p, SignalsOf(h, id), def, i, current, depth);
      && r.Some? && o.Some?
      && id in r.value.logs
      && Completions(r.value.logs[id]) == Completions(s.logs[id]) + o.value.completions
      && EndsAs(r.value.logs[id], o.value.ending)
  {
    CompletionsSnoc(s.logs[id], WorkflowCompleted(id, current, Now(h, s)));
  }

  /** One turn of the loop: the interpreter's outcome for the node, and its report in the log. */
  lemma TurnRefines(h: Host, p: Program, names: set<string>, s: Sys, id: WorkflowId, def: WorkflowDef, i: nat,
                    current: Json, done: map<string, Json>, depth: nat)
    requires Fresh(h, s) && id in s.logs && Hosts(h, p, names) && Knows(s, p, names) && Closed(p, def, names)
    requires i < |def.steps| && Decisive(def.steps[i]) !! done.Keys
    ensures var r := ExecNode(h, s, id, def, def.steps[i], current, done, depth);
      var o := EvalNode(p, SignalsOf(h, id), def, def.steps[i], current, depth);
      && (r.Some? <==> o.Some?)
      && (r.Some? ==>
            var s2 := Save(r.value.0, id, Report(h, r.value.0, id, def.steps[i], o.value));
            && r.value.1 == o.value
            && Fresh(h, s2) && id in s2.logs && Knows(s2, p, names)
            && Completions(s2.logs[id]) == Completions(s.logs[id]) +
                 (if o.value.Done? then [Completion(def.steps[i].name, o.value.output)] else [])
            && (o.value.Broke? ==> EndsAs(s2.logs[id], Aborted(o.value.reason))))
    decreases depth, 1
  {
    hide ExecNode, EvalNode;
    var node := def.steps[i];
    NodeRefines(h, p, names, s, id, def, node, current, done, depth);
    NodeKnows(h, p, names, s, id, def, node, current, done, depth);
    if ExecNode(h, s, id, def, node, current, done, depth).Some? {
      var (s1, result) := ExecNode(h, s, id, def, node, current, done, depth).value;
      var e := Report(h, s1, id, node, result);
      NodeStored(h, s, id, def, node, current, done, depth, e);
      CompletionsQuiet(s.logs[id], s1.logs[id]);
      CompletionsSnoc(s1.logs[id], e);
    }
  }

  /** At the wait for an unsent signal the loop stops, whatever is stored for the steps behind it. */
  lemma HaltRefines(h: Host, p: Program, s: Sys, id: WorkflowId, def: WorkflowDef, b: nat, current: Json,
                    done: map<string, Json>, depth: nat)
    requires id in s.logs && b < |def.steps| && Halts(h, id, def, b, done.Keys)
    ensures var r := RunSteps(h, s, id, def, b, current, done, depth);
      var o := Eval(p, SignalsOf(h, id), def, b, current, depth);
      && r.Some? && o.Some?
      && id in r.value.logs
      && Completions(r.value.logs[id]) == Completions(s.logs[id]) + o.value.completions
      && EndsAs(r.value.logs[id], o.value.ending)
  {
    hide RunSteps, Eval, Stops;
    var signal := def.steps[b].kind.signal;
    StoppedRun(h, s, id, def, b, current, done, depth, signal);
    EvalTurn(p, SignalsOf(h, id), def, b, current, depth);
    CompletionsSnoc(s.logs[id], WorkflowFailed(id, "Waiting for signal: " + signal, Now(h, s)));
  }

  lemma {:induction false} RunRefines(h: Host, p: Program, names: set<string>, s: Sys, id: WorkflowId, def: WorkflowDef,
                                      b: nat, i: nat, current: Json, done: map<string, Json>, depth: nat)
    requires Fresh(h, s) && id in s.logs && Hosts(h, p, names) && Knows(s, p, names) && Closed(p, def, names)
    requires i <= b <= |def.steps| && Unaffected(def, i, b, done) && Halts(h, id, def, b, done.Keys)
    ensures var r := RunSteps(h, s, id, def, i, current, done, depth);
      var o := Eval(p, SignalsOf(h, id), def, i, current, depth);
      && (r.Some? <==> o.Some?)
      && (r.Some? ==>
            && id in r.value.logs
            && Completions(r.value.logs[id]) == Completions(s.logs[id]) + o.value.completions
            && EndsAs(r.value.logs[id], o.value.ending))
    decreases depth, 2, |def.steps| - i
  {
    hide *;
    if i >= |def.steps| {
      EndRefines(h, p, s, id, def, i, current, done, depth);
    } else if i == b {
      HaltRefines(h, p, s, id, def, b, current, done, depth);
    } else {
      UnaffectedStep(def, i, b, done);
      TurnRefines(h, p, names, s, id, def, i, current, done, depth);
      RunTurn(h, s, id, def, i, current, done, depth);
      EvalTurn(p, SignalsOf(h, id), def, i, current, depth);
      var o := EvalNode(p, SignalsOf(h, id), def, def.steps[i], current, depth);
      if o.Some? && o.value.Done? {
        var s1 := ExecNode(h, s, id, def, def.steps[i], current, done, depth).value.0;
        var s2 := Save(s1, id, Report(h, s1, id, def.steps[i], o.value));
        RunRefines(h, p, names, s2, id, def, b, i + 1, o.value.output, done, depth);
        var rest := Eval(p, SignalsOf(h, id), def, i + 1, o.value.output, depth);
        if rest.Some? {
          ConcatAssociative(Completions(s.logs[id]), [Completion(def.steps[i].name, o.value.output)],
                            rest.value.completions);
        }
      }
    }
  }

  /** Started under a generated id, a workflow's log reads as the interpreter's outline of it. */
  lemma {:induction false} StartRefines(h: Host, p: Program, names: set<string>, s: Sys, def: WorkflowDef, input: Json,
                                        depth: nat)
    requires Fresh(h, s) && Hosts(h, p, names) && Knows(s, p, names) && Closed(p, def, names)
    ensures var r, o := Start(h, s, def, input, depth), Eval(p, map[], def, 0, input, depth);
      && (r.Some? <==> o.Some?)
      && (r.Some? ==>
            var (s', id) := r.value;
            && id in s'.logs
            && Completions(s'.logs[id]) == o.value.completions
            && EndsAs(s'.logs[id], o.value.ending)
            && s'.logs[id][0].WorkflowStarted? && s'.logs[id][0].input == input
            && LastOutput(s'.logs[id]) == Carried(o.value.completions, input))
    decreases depth, 3
  {
    hide RunSteps, Eval;
    var id := h.freshId(s.ticks);
    var s0 := Opened(h, s, def, input);
    OpenedFrame(h, s, def, input);
    assert Completions(s0.logs[id][..0]) == [];
    assert Completions(s0.logs[id]) == [];
    RunRefines(h, p, names, s0, id, def, |def.steps|, 0, input, map[], depth);
    RunLife(h, s0, id, def, 0, input, map[], depth);
    RunStepsFrame(h, s0, id, def, 0, input, map[], depth);
    if Start(h, s, def, input, depth).Some? {
      LastOutputMeaning(Start(h, s, def, input, depth).value.0.logs[id]);
    }
  }
}
