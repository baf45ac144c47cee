/** The compensation plan of a failed workflow, read off its log, over every history of crashes and resumes. */
module Compensation {
  import opened Types
  import opened Replay
  import opened Execution
  import opened Lifecycle
  import opened Progress
  import opened Encoding

  datatype CompensationPlan = CompensationPlan(
    workflowId: WorkflowId, failedStep: string, stepsToCompensate: seq<string>)

  /** The images of the names that have one, in order. */
  function Mapped(names: seq<string>, compensations: map<string, string>): seq<string> {
    if names == [] then []
    else
      var n := names[|names| - 1];
      Mapped(names[..|names| - 1], compensations) + if n in compensations then [compensations[n]] else []
  }

  /** The positions, in order, at which a name that has a compensation stands. */
  ghost predicate Positions(at: seq<nat>, names: seq<string>, compensations: map<string, string>) {
    && (forall m, n :: 0 <= m < n < |at| ==> at[m] < at[n])
    && (forall m :: 0 <= m < |at| ==> at[m] < |names| && names[at[m]] in compensations)
    && forall i :: 0 <= i < |names| && names[i] in compensations ==> i in at
  }

  /** The mapped names are the compensations of the names at these positions, one by one. */
  lemma {:induction false} MappedAt(names: seq<string>, compensations: map<string, string>) returns (at: seq<nat>)
    ensures Positions(at, names, compensations)
    ensures var mapped := Mapped(names, compensations);
      |mapped| == |at| && forall m :: 0 <= m < |at| ==> mapped[m] == compensations[names[at[m]]]
  {
    at := [];
    if names != [] {
      var n := |names| - 1;
      at := MappedAt(names[..n], compensations);
      assert forall i :: 0 <= i < n ==> names[..n][i] == names[i];
      if names[n] in compensations {
        at := at + [n];
      }
    }
  }

  /** Nothing to compensate unless the workflow failed. */
  function Plan(events: seq<Event>, id: WorkflowId, compensations: map<string, string>): Option<CompensationPlan> {
    if events == [] || StateOf(events).status != Failed then None
    else
      Some(CompensationPlan(id, StateOf(events).currentStep, Mapped(StateOf(events).completedOrder, compensations)))
  }

  method BuildCompensationPlan(events: seq<Event>, id: WorkflowId, compensations: map<string, string>)
    returns (plan: Option<CompensationPlan>)
    ensures plan == Plan(events, id, compensations)
  {
    if events == [] {
      return None;
    }
    var state := Rebuild(events);
    if state.status != Failed {
      return None;
    }
    var steps: seq<string>, keys := [], state.completedOrder;
    for i := 0 to |keys|
      invariant steps == Mapped(keys[..i], compensations)
    {
      assert keys[..i + 1][..i] == keys[..i];
      if keys[i] in compensations {
        steps := steps + [compensations[keys[i]]];
      }
    }
    assert keys[..|keys|] == keys;
    return Some(CompensationPlan(id, state.currentStep, steps));
  }

  // ---------------------------------------------------------------------------------------------
  // The step that replay blames
  // ---------------------------------------------------------------------------------------------

  lemma CurrentAfter(log: seq<Event>, e: Event)
    requires log != [] && !e.StepStarted?
    ensures StateOf(log + [e]).currentStep == StateOf(log).currentStep
  {
    ReplaySnoc(log, e);
  }

  lemma CurrentStarted(log: seq<Event>, e: Event)
    requires log != [] && e.StepStarted?
    ensures StateOf(log + [e]).currentStep == e.step
  {
    ReplaySnoc(log, e);
  }

  /** However its attempts go, replay takes the step for the current one. */
  lemma {:induction false} StepIsCurrent(h: Host, s: Sys, id: WorkflowId, node: StepNode, input: Json, attempt: int)
    requires id in s.logs && s.logs[id] != []
    ensures var s' := ExecStep(h, s, id, node, input, attempt).0;
      id in s'.logs && s'.logs[id] != [] && StateOf(s'.logs[id]).currentStep == node.name
    decreases node.config.maxRetry - attempt
  {
    hide Attempt, ExecStep, StateOf;
    StepTurn(h, s, id, node, input, attempt);
    var started := StepStarted(id, node.name, attempt, Now(h, s));
    var s1 := Save(s, id, started);
    CurrentStarted(s.logs[id], started);
    if node.name in h.registry {
      AttemptKeepsCurrent(h, s1, id, node, input, attempt);
      var (s2, result) := Attempt(h, s1, id, node, input, attempt);
      if result.Err? {
        if attempt < node.config.maxRetry {
          var e := StepRetrying(id, node.name, attempt + 1, node.config.retryDelayMs, Now(h, s2));
          StepIsCurrent(h, Save(s2, id, e), id, node, input, attempt + 1);
        } else {
          CurrentAfter(s2.logs[id], StepFailed(id, node.name, h.show(result.error), attempt, Now(h, s2)));
        }
      }
    }
  }

  lemma AttemptKeepsCurrent(h: Host, s: Sys, id: WorkflowId, node: StepNode, input: Json, attempt: int)
    requires id in s.logs && s.logs[id] != [] && node.name in h.registry
    ensures var s' := Attempt(h, s, id, node, input, attempt).0;
      id in s'.logs && s'.logs[id] != [] && StateOf(s'.logs[id]).currentStep == StateOf(s.logs[id]).currentStep
  {
    var (s1, outcome) := Invoke(h, s, node.name, input, attempt);
    CurrentAfter(s.logs[id], StepFailed(id, node.name, "timeout exceeded", 1, Now(h, s1)));
  }

  /** A log that says the workflow failed blames the step behind the completed ones. */
  ghost predicate Blames(def: WorkflowDef, log: seq<Event>) {
    log != [] && log[|log| - 1].WorkflowFailed? ==>
      && |Completions(log)| < |def.steps|
      && StateOf(log).currentStep == def.steps[|Completions(log)|].name
  }

  lemma {:induction false} RunBlames(h: Host, s: Sys, id: WorkflowId, def: WorkflowDef, i: nat, current: Json,
                                     done: map<string, Json>, depth: nat)
    requires Fresh(h, s) && AllSequential(def) && id in s.logs && AtStep(def, s.logs[id], i)
    requires forall j :: i <= j < |def.steps| ==> def.steps[j].name !in done
    ensures var r := RunSteps(h, s, id, def, i, current, done, depth);
      r.Some? && id in r.value.logs && Blames(def, r.value.logs[id])
    decreases |def.steps| - i
  {
    hide RunSteps, ExecStep, StateOf;
    if i == |def.steps| {
      RunEnd(h, s, id, def, i, current, done, depth);
    } else {
      RunTurn(h, s, id, def, i, current, done, depth);
      var node := def.steps[i];
      StepIsCurrent(h, s, id, node, current, 1);
      NodeTracks(h, s, id, def, i, current, done, depth);
      var (s1, result) := ExecNode(h, s, id, def, node, current, done, depth).value;
      var e := Report(h, s1, id, node, result);
      CurrentAfter(s1.logs[id], e);
      if result.Done? {
        RunBlames(h, Save(s1, id, e), id, def, i + 1, result.output, done, depth);
      }
    }
  }

  lemma StartBlames(h: Host, s: Sys, def: WorkflowDef, input: Json, depth: nat)
    requires Fresh(h, s) && AllSequential(def)
    ensures var r := Start(h, s, def, input, depth);
      && r.Some?
      && var log := Load(r.value.0, r.value.1);
         r.value.1 in r.value.0.logs && Tracks(def, log) && Ended(log) && Blames(def, log)
  {
    hide RunSteps, Stops;
    OpenedFrame(h, s, def, input);
    var id, s0 := h.freshId(s.ticks), Opened(h, s, def, input);
    assert Completions(s0.logs[id][..0]) == [] && Completions(s0.logs[id]) == [];
    assert DoneNames(s0.logs[id]) == def.Names()[..0];
    RunBlames(h, s0, id, def, 0, input, map[], depth);
    StartTracks(h, s, def, |def.steps|, input, depth);
  }

  lemma ResumeBlames(h: Host, s: Sys, id: WorkflowId, def: WorkflowDef, depth: nat)
    requires Fresh(h, s) && AllSequential(def) && NoDuplicates(def.Names())
    requires id in s.logs && Tracks(def, s.logs[id]) && Blames(def, s.logs[id])
    ensures var r := Resume(h, s, id, def, depth);
      && r.Some?
      && var log := Load(r.value.0, id);
         id in r.value.0.logs && Tracks(def, log) && Ended(log) && Blames(def, log)
  {
    hide RunSteps, Stops, StateOf, Blames;
    var log := s.logs[id];
    DistinctNames(def);
    ResumeRunsOpenLog(log, id);
    ResumeTracks(h, s, id, def, |def.steps|, depth);
    if !Ended(log) {
      ResumeEntry(h, s, id, def, |def.steps|, depth);
      RunBlames(h, s.(defs := s.defs[id := def]), id, def, |Completions(log)|, LastOutput(log),
                StateOf(log).completedSteps, depth);
    }
  }

  lemma CutBlames(def: WorkflowDef, log: seq<Event>, k: nat)
    requires Tracks(def, log) && Blames(def, log) && 0 < k <= |log|
    ensures Tracks(def, log[..k]) && Blames(def, log[..k])
  {
    hide StateOf;
    TracksPrefix(def, log, k);
    if k == |log| {
      assert log[..k] == log;
    }
  }

  lemma {:induction false} HistoryBlames(first: Sys, id: WorkflowId, def: WorkflowDef, recoveries: seq<Recovery>)
    requires AllSequential(def) && NoDuplicates(def.Names()) && History(first, id, def, recoveries)
    requires id in first.logs && Tracks(def, first.logs[id]) && Ended(first.logs[id]) && Blames(def, first.logs[id])
    ensures var last := Latest(first, recoveries);
      id in last.logs && Tracks(def, last.logs[id]) && Ended(last.logs[id]) && Blames(def, last.logs[id])
    decreases |recoveries|
  {
    if recoveries != [] {
      hide Resume, StateOf, Blames, Tracks, Fresh;
      var n := |recoveries| - 1;
      var last := recoveries[n];
      HistoryBlames(first, id, def, recoveries[..n]);
      var log, cut := Latest(first, recoveries[..n]).logs[id], last.crashed.logs[id];
      assert log[..|cut|] == cut;
      CutBlames(def, log, |cut|);
      ResumeBlames(last.host, last.crashed, id, def, last.depth);
    }
  }

  lemma BlamedPlan(def: WorkflowDef, log: seq<Event>, id: WorkflowId, compensations: map<string, string>)
    requires NoDuplicates(def.Names()) && Tracks(def, log) && Ended(log) && Blames(def, log)
    ensures var k, plan, last := |Completions(log)|, Plan(log, id, compensations), log[|log| - 1];
      && k <= |def.steps|
      && (last.WorkflowCompleted? ==> plan == None)
      && (!last.WorkflowCompleted? ==>
            && k < |def.steps|
            && plan == Some(CompensationPlan(id, def.steps[k].name, Mapped(def.Names()[..k], compensations)))
            && def.steps[k].name !in StateOf(log).completedSteps)
  {
    hide StateOf;
    var k := |Completions(log)|;
    assert DoneNames(log) == def.Names()[..k];
    ReplayStatus(log);
    ReplayCompleted(log);
    OutputMapKeys(Completions(log));
    if k < |def.steps| {
      NameNotBefore(def, k);
    }
  }

  /**
   * A Sequential workflow, crashed and resumed in any way, has a plan exactly when it has failed. The plan
   * names the step that failed, which has not completed. Its entries are, one by one, the compensations of the
   * steps before that one which have any, in the order in which they completed (not the reverse).
   */
  lemma PlanIsExact(h: Host, s: Sys, def: WorkflowDef, input: Json, depth: nat, recoveries: seq<Recovery>,
                    compensations: map<string, string>)
    returns (at: seq<nat>)
    requires Fresh(h, s) && AllSequential(def) && NoDuplicates(def.Names())
    requires var r := Start(h, s, def, input, depth);
      r.Some? ==> History(r.value.0, r.value.1, def, recoveries)
    ensures var r := Start(h, s, def, input, depth);
      && r.Some?
      && var (first, id) := r.value;
         var log := Load(Latest(first, recoveries), id);
         var plan, k := Plan(log, id, compensations), |Completions(log)|;
         && log != []
         && (log[|log| - 1].WorkflowCompleted? ==> plan == None)
         && (!log[|log| - 1].WorkflowCompleted? ==>
               && k < |def.steps|
               && plan.Some? && plan.value.workflowId == id && plan.value.failedStep == def.steps[k].name
               && Positions(at, def.Names()[..k], compensations)
               && |plan.value.stepsToCompensate| == |at|
               && (forall m :: 0 <= m < |at| ==>
                     at[m] < k && plan.value.stepsToCompensate[m] == compensations[def.steps[at[m]].name])
               && def.steps[k].name !in StateOf(log).completedSteps)
  {
    hide Start, History, Mapped, Blames, Tracks;
    StartBlames(h, s, def, input, depth);
    var (first, id) := Start(h, s, def, input, depth).value;
    HistoryBlames(first, id, def, recoveries);
    var log := Latest(first, recoveries).logs[id];
    var k := |Completions(log)|;
    BlamedPlan(def, log, id, compensations);
    at := MappedAt(def.Names()[..k], compensations);
  }
}
