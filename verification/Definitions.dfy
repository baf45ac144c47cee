/** Building and validating workflow definitions. */
module Definitions {
  import opened Types
  import opened Execution
  import opened Progress
  import opened Interpreter
  import opened CrashEquivalence
  import opened RecoveryLimits
  import opened Invocations

  // ---------------------------------------------------------------------------------------------
  // Validation
  // ---------------------------------------------------------------------------------------------

  datatype ValidationResult = ValidationResult(valid: bool, errors: seq<string>, warnings: seq<string>)

  /** What validation is for: steps with distinct names and no negative limits. */
  predicate WellDefined(def: WorkflowDef) {
    && def.steps != []
    && NoDuplicates(def.Names())
    && forall i :: 0 <= i < |def.steps| ==> def.steps[i].config.maxRetry >= 0 && def.steps[i].config.timeoutMs >= 0
  }

  function Missing(name: string, registry: set<string>, what: string): seq<string> {
    if name in registry then [] else [what + " '" + name + "' has no registered handler"]
  }

  function MissingAll(names: seq<string>, registry: set<string>, what: string): seq<string> {
    if names == [] then []
    else MissingAll(names[..|names| - 1], registry, what) + Missing(names[|names| - 1], registry, what)
  }

  function StepWarnings(node: StepNode, registry: set<string>): seq<string> {
    match node.kind
    case Sequential => Missing(node.name, registry, "Step")
    case Parallel(children) => MissingAll(children, registry, "Parallel child")
    case Conditional(c, t, f) =>
      Missing(c, registry, "Condition step")
      + Missing(t, registry, "Branch target") + Missing(f, registry, "Branch target")
    case _ => []
  }

  function StepErrors(node: StepNode, seen: set<string>): seq<string> {
    (if node.name in seen then ["Duplicate step name: " + node.name] else [])
    + (if node.config.maxRetry < 0 then ["Step '" + node.name + "': max_retry cannot be negative"] else [])
    + (if node.config.timeoutMs < 0 then ["Step '" + node.name + "': timeout_ms cannot be negative"] else [])
  }

  function NamesBefore(steps: seq<StepNode>, i: nat): set<string>
    requires i <= |steps|
  {
    set j | 0 <= j < i :: steps[j].name
  }

  /** What is wrong with the first i steps, and what is only worth a warning. */
  function ErrorsUpTo(steps: seq<StepNode>, i: nat): seq<string>
    requires i <= |steps|
  {
    if i == 0 then [] else ErrorsUpTo(steps, i - 1) + StepErrors(steps[i - 1], NamesBefore(steps, i - 1))
  }

  function WarningsUpTo(steps: seq<StepNode>, registry: set<string>, i: nat): seq<string>
    requires i <= |steps|
  {
    if i == 0 then [] else WarningsUpTo(steps, registry, i - 1) + StepWarnings(steps[i - 1], registry)
  }

  method ValidateWorkflow(registry: set<string>, def: WorkflowDef) returns (r: ValidationResult)
    ensures r.errors == if def.steps == [] then ["Workflow has no steps"] else ErrorsUpTo(def.steps, |def.steps|)
    ensures r.warnings == WarningsUpTo(def.steps, registry, |def.steps|)
    ensures r.valid <==> r.errors == []
  {
    if def.steps == [] {
      return ValidationResult(false, ["Workflow has no steps"], []);
    }
    var errors: seq<string>, warnings: seq<string>, names: set<string> := [], [], {};
    for i := 0 to |def.steps|
      invariant names == NamesBefore(def.steps, i)
      invariant errors == ErrorsUpTo(def.steps, i)
      invariant warnings == WarningsUpTo(def.steps, registry, i)
    {
      var node := def.steps[i];
      errors := errors + StepErrors(node, names);
      names := names + {node.name};
      warnings := warnings + StepWarnings(node, registry);
    }
    r := ValidationResult(errors == [], errors, warnings);
  }

  /** Validation finds no error exactly in definitions with distinct names and no negative limits. */
  lemma {:induction false} NoErrorsMeaning(steps: seq<StepNode>, i: nat)
    requires i <= |steps|
    ensures ErrorsUpTo(steps, i) == [] <==>
            && (forall j, k :: 0 <= j < k < i ==> steps[j].name != steps[k].name)
            && (forall j :: 0 <= j < i ==> steps[j].config.maxRetry >= 0 && steps[j].config.timeoutMs >= 0)
    decreases i
  {
    if i > 0 {
      NoErrorsMeaning(steps, i - 1);
    }
  }

  lemma ValidMeansWellDefined(def: WorkflowDef)
    requires def.steps != []
    ensures ErrorsUpTo(def.steps, |def.steps|) == [] <==> WellDefined(def)
  {
    NoErrorsMeaning(def.steps, |def.steps|);
    assert forall j, k :: 0 <= j < k < |def.steps| ==>
      (def.steps[j].name == def.steps[k].name <==> def.Names()[j] == def.Names()[k]);
  }

  /** What there is to say against step j: a name that an earlier step has, or a negative limit. */
  ghost predicate Objection(steps: seq<StepNode>, j: int, message: string)
    requires 0 <= j < |steps|
  {
    var name, config := steps[j].name, steps[j].config;
    || (message == "Duplicate step name: " + name && exists i :: 0 <= i < j && steps[i].name == name)
    || (message == "Step '" + name + "': max_retry cannot be negative" && config.maxRetry < 0)
    || (message == "Step '" + name + "': timeout_ms cannot be negative" && config.timeoutMs < 0)
  }

  /** The errors of a definition are exactly what there is to say against its steps. */
  lemma {:induction false} ErrorsMean(steps: seq<StepNode>, n: nat, message: string)
    requires n <= |steps|
    ensures message in ErrorsUpTo(steps, n) <==> exists j :: 0 <= j < n && Objection(steps, j, message)
    decreases n
  {
    if n > 0 {
      ErrorsMean(steps, n - 1, message);
      ObjectionMeans(steps, n - 1, message);
    }
  }

  lemma ObjectionMeans(steps: seq<StepNode>, j: nat, message: string)
    requires j < |steps|
    ensures message in StepErrors(steps[j], NamesBefore(steps, j)) <==> Objection(steps, j, message)
  {
  }

  /** The handlers a step calls by name: its own, its children's, or those of its condition and targets. */
  function Calls(node: StepNode): set<string> {
    if node.kind.Sequential? then {node.name} else Consulted(node)
  }

  /** What there is to warn of in a step: a handler that it calls and nobody has registered. */
  ghost predicate Caveat(node: StepNode, registry: set<string>, message: string) {
    match node.kind
    case Sequential =>
      node.name !in registry && message == "Step '" + node.name + "' has no registered handler"
    case Parallel(children) =>
      exists c :: c in children && c !in registry && message == "Parallel child '" + c + "' has no registered handler"
    case Conditional(c, t, f) =>
      || (c !in registry && message == "Condition step '" + c + "' has no registered handler")
      || (t !in registry && message == "Branch target '" + t + "' has no registered handler")
      || (f !in registry && message == "Branch target '" + f + "' has no registered handler")
    case _ => false
  }

  lemma {:induction false} MissingMeans(names: seq<string>, registry: set<string>, what: string, message: string)
    ensures message in MissingAll(names, registry, what) <==>
            exists n :: n in names && n !in registry && message == what + " '" + n + "' has no registered handler"
    ensures MissingAll(names, registry, what) == [] <==> forall n :: n in names ==> n in registry
  {
    if names != [] {
      var init, last := names[..|names| - 1], names[|names| - 1];
      assert forall n :: n in names <==> n in init || n == last;
      MissingMeans(init, registry, what, message);
    }
  }

  lemma CaveatMeans(node: StepNode, registry: set<string>, message: string)
    ensures message in StepWarnings(node, registry) <==> Caveat(node, registry, message)
    ensures StepWarnings(node, registry) == [] <==> Calls(node) <= registry
  {
    assert "Step" + " '" == "Step '" && "Parallel child" + " '" == "Parallel child '";
    assert "Condition step" + " '" == "Condition step '" && "Branch target" + " '" == "Branch target '";
    match node.kind
    case Parallel(children) => MissingMeans(children, registry, "Parallel child", message);
    case _ =>
  }

  /**
   * The warnings of a definition are exactly what there is to warn of in its steps; there are none exactly if
   * every Sequential step, group child, condition and branch target has a handler.
   */
  lemma {:induction false} WarningsMean(steps: seq<StepNode>, registry: set<string>, n: nat, message: string)
    requires n <= |steps|
    ensures message in WarningsUpTo(steps, registry, n) <==>
            exists j :: 0 <= j < n && Caveat(steps[j], registry, message)
    ensures WarningsUpTo(steps, registry, n) == [] <==> forall j :: 0 <= j < n ==> Calls(steps[j]) <= registry
    decreases n
  {
    hide StepWarnings, Caveat, Calls;
    if n > 0 {
      WarningsMean(steps, registry, n - 1, message);
      CaveatMeans(steps[n - 1], registry, message);
    }
  }

  /**
   * A definition without errors, in which no branch and no group names a step in front of it, can be recovered
   * after any crash; whether it waits for signals does not matter.
   */
  lemma ValidIsRecoverable(def: WorkflowDef)
    requires ErrorsUpTo(def.steps, |def.steps|) == []
    requires forall i, j :: 0 <= i < j < |def.steps| ==>
      match def.steps[j].kind
      case Conditional(c, t, f) => def.steps[i].name != c && def.steps[i].name != t && def.steps[i].name != f
      case Parallel(children) => def.steps[i].name !in children
      case _ => true
    ensures Recoverable(def) && Independent(def)
  {
    NoErrorsMeaning(def.steps, |def.steps|);
    DistinctNames(def);
  }

  // ---------------------------------------------------------------------------------------------
  // The builder
  // ---------------------------------------------------------------------------------------------

  function DefaultConfig(name: string): StepConfig {
    StepConfig(name, 3, 30000, 1000)
  }

  function ChildStep(name: string): StepNode {
    StepNode(name, DefaultConfig(name), Sequential)
  }

  /**
   * What a step of the default configuration does: a first call that succeeds within half a minute is all it
   * takes; a handler that always fails or takes longer is called three times, and never again.
   */
  lemma DefaultStep(h: Host, s: Sys, id: WorkflowId, name: string, input: Json)
    requires name in h.registry
    ensures var (s', r) := ExecStep(h, s, id, ChildStep(name), input, 1);
      var outcome := h.registry[name](s.calls, input, 1);
      && (outcome.result.Ok? && outcome.elapsedMs <= 30000 ==>
            s'.calls == s.calls + [Call(name, input, 1)] && r == outcome.result)
      && ((forall calls, x, attempt ::
             var o := h.registry[name](calls, x, attempt); o.result.Err? || o.elapsedMs > 30000) ==>
            |s'.calls| == |s.calls| + 3 && r == Err(StepMaxRetriesExceeded(name, 3)))
  {
    if KeepsFailing(h, ChildStep(name)) {
      FailingStepAttempts(h, s, id, ChildStep(name), input, 1);
    }
  }

  /** ... with a second between the attempts, as the log announces. */
  lemma DefaultStepLog(h: Host, s: Sys, id: WorkflowId, name: string, input: Json, error: WorkflowError, elapsedMs: int)
    requires AlwaysAnswers(h, name, error, elapsedMs) && elapsedMs <= 30000 && id in s.logs
    ensures var log, log', now := s.logs[id], Load(ExecStep(h, s, id, ChildStep(name), input, 1).0, id), s.ticks;
      log' == log + [StepStarted(id, name, 1, h.clock(now)), StepRetrying(id, name, 2, 1000, h.clock(now + 1)),
                     StepStarted(id, name, 2, h.clock(now + 2)), StepRetrying(id, name, 3, 1000, h.clock(now + 3)),
                     StepStarted(id, name, 3, h.clock(now + 4)),
                     StepFailed(id, name, h.show(error), 3, h.clock(now + 5))]
  {
    hide ExecStep, FailureEvent;
    var node, log := ChildStep(name), s.logs[id];
    FailingStepLog(h, s, id, node, input, 1, error, elapsedMs);
    DefaultEvents(h, id, name, error, s.ticks);
    var log' := ExecStep(h, s, id, node, input, 1).0.logs[id];
    forall k: nat | k < 6
      ensures log'[|log| + k] == FailureEvent(h, id, node, error, false, 1, s.ticks, 3, k)
    {
    }
    assert log' == log + [log'[|log| + 0], log'[|log| + 1], log'[|log| + 2],
                          log'[|log| + 3], log'[|log| + 4], log'[|log| + 5]];
  }

  lemma DefaultEvents(h: Host, id: WorkflowId, name: string, error: WorkflowError, now: nat)
    ensures var node := ChildStep(name);
      && FailureEvent(h, id, node, error, false, 1, now, 3, 0) == StepStarted(id, name, 1, h.clock(now))
      && FailureEvent(h, id, node, error, false, 1, now, 3, 1) == StepRetrying(id, name, 2, 1000, h.clock(now + 1))
      && FailureEvent(h, id, node, error, false, 1, now, 3, 2) == StepStarted(id, name, 2, h.clock(now + 2))
      && FailureEvent(h, id, node, error, false, 1, now, 3, 3) == StepRetrying(id, name, 3, 1000, h.clock(now + 3))
      && FailureEvent(h, id, node, error, false, 1, now, 3, 4) == StepStarted(id, name, 3, h.clock(now + 4))
      && FailureEvent(h, id, node, error, false, 1, now, 3, 5) ==
         StepFailed(id, name, h.show(error), 3, h.clock(now + 5))
  {
  }

  class WorkflowBuilder {
    const name: string
    var steps: seq<StepNode>
    const deps: map<string, seq<string>>

    constructor (name: string)
      ensures this.name == name && steps == [] && deps == map[]
    {
      this.name, steps, deps := name, [], map[];
    }

    method Then(name: string, config: StepConfig)
      modifies this
      ensures steps == old(steps) + [StepNode(name, config, Sequential)]
    {
      steps := steps + [StepNode(name, config, Sequential)];
    }

    /** Adds every child as a step of its own before the group that runs them again. */
    method AddParallel(group: string, children: seq<string>)
      modifies this
      ensures |steps| == |old(steps)| + |children| + 1 && old(steps) <= steps
      ensures forall i :: 0 <= i < |children| ==> steps[|old(steps)| + i] == ChildStep(children[i])
      ensures steps[|steps| - 1] == StepNode(group, DefaultConfig(group), Parallel(children))
    {
      for i := 0 to |children|
        invariant |steps| == |old(steps)| + i && old(steps) <= steps
        invariant forall j :: 0 <= j < i ==> steps[|old(steps)| + j] == ChildStep(children[j])
      {
        steps := steps + [ChildStep(children[i])];
      }
      steps := steps + [StepNode(group, DefaultConfig(group), Parallel(children))];
    }

    method Branch(name: string, condition: string, onTrue: string, onFalse: string)
      modifies this
      ensures steps == old(steps) + [StepNode(name, DefaultConfig(name), Conditional(condition, onTrue, onFalse))]
    {
      steps := steps + [StepNode(name, DefaultConfig(name), Conditional(condition, onTrue, onFalse))];
    }

    method WaitSignal(name: string, signal: string)
      modifies this
      ensures steps == old(steps) + [StepNode(name, DefaultConfig(name), Signal(signal))]
    {
      steps := steps + [StepNode(name, DefaultConfig(name), Signal(signal))];
    }

    method AddSubWorkflow(name: string, target: string)
      modifies this
      ensures steps == old(steps) + [StepNode(name, DefaultConfig(name), SubWorkflow(target))]
    {
      steps := steps + [StepNode(name, DefaultConfig(name), SubWorkflow(target))];
    }

    method Build() returns (def: WorkflowDef)
      ensures def == WorkflowDef(name, steps, deps)
    {
      def := WorkflowDef(name, steps, deps);
    }
  }

  /**
   * A non-empty group as the builder lays it out, in front of any Signal, is never recoverable: the group
   * consults its own children. If no other group is empty or asks for unknown steps, some program loses
   * by a crash.
   */
  lemma BuiltGroupNotRecoverable(def: WorkflowDef, at: nat, children: seq<string>)
    requires children != [] && at + |children| < |def.steps|
    requires forall i :: 0 <= i < at ==> !def.steps[i].kind.Signal?
    requires forall i :: 0 <= i < |children| ==> def.steps[at + i] == ChildStep(children[i])
    requires def.steps[at + |children|].kind == Parallel(children)
    ensures !Recoverable(def)
    ensures Passable(def) ==> !AlwaysRecovers(def)
  {
    var group := at + |children|;
    assert forall i :: at <= i < group ==> def.steps[i] == ChildStep(children[i - at]);
    assert group < Reach(def);
    assert def.steps[at + 0].name == children[0];
    assert children[0] in Decisive(def.steps[group]);
    if Passable(def) {
      RecoversExactlyWhenRecoverable(def);
    }
  }
}
