/** Event times: under clocks that never run backwards, every log the engine writes is in time order. */
module Timeliness {
  import opened Types
  import opened Replay
  import opened Execution
  import opened Lifecycle
  import opened Queries

  ghost predicate Monotone(clock: nat -> int) {
    forall m: nat, n: nat :: m <= n ==> clock(m) <= clock(n)
  }

  ghost predicate InOrder(s: Sys) {
    forall o :: o in s.logs ==> Chronological(s.logs[o])
  }

  /** No stored event is later than the next clock reading. */
  ghost predicate Past(h: Host, s: Sys) {
    forall o, i :: o in s.logs && 0 <= i < |s.logs[o]| ==> s.logs[o][i].ts <= Now(h, s)
  }

  /** All logs but the others are in time order and no later than the next clock reading. */
  ghost predicate Timely(h: Host, s: Sys, others: set<WorkflowId>) {
    && (forall o :: o in s.logs && o !in others ==> Chronological(s.logs[o]))
    && forall o, i :: o in s.logs && o !in others && 0 <= i < |s.logs[o]| ==> s.logs[o][i].ts <= Now(h, s)
  }

  lemma SaveTimely(h: Host, s: Sys, others: set<WorkflowId>, id: WorkflowId, e: Event)
    requires Monotone(h.clock) && Timely(h, s, others) && e.ts == Now(h, s)
    ensures Timely(h, Save(s, id, e), others)
  {
    assert Now(h, s) <= Now(h, Save(s, id, e));
  }

  lemma AttemptTimely(h: Host, s: Sys, others: set<WorkflowId>, id: WorkflowId, node: StepNode, input: Json,
                      attempt: int)
    requires Monotone(h.clock) && Timely(h, s, others) && node.name in h.registry
    ensures Timely(h, Attempt(h, s, id, node, input, attempt).0, others)
  {
    var (s1, outcome) := Invoke(h, s, node.name, input, attempt);
    if node.config.timeoutMs > 0 && outcome.elapsedMs > node.config.timeoutMs {
      SaveTimely(h, s1, others, id, StepFailed(id, node.name, "timeout exceeded", 1, Now(h, s1)));
    }
  }

  lemma {:induction false} StepTimely(h: Host, s: Sys, others: set<WorkflowId>, id: WorkflowId, node: StepNode,
                                      input: Json, attempt: int)
    requires Monotone(h.clock) && Timely(h, s, others)
    ensures Timely(h, ExecStep(h, s, id, node, input, attempt).0, others)
    decreases node.config.maxRetry - attempt
  {
    hide Timely, Monotone;
    var started := StepStarted(id, node.name, attempt, Now(h, s));
    var s1 := Save(s, id, started);
    SaveTimely(h, s, others, id, started);
    if node.name in h.registry {
      AttemptTimely(h, s1, others, id, node, input, attempt);
      var (s2, result) := Attempt(h, s1, id, node, input, attempt);
      if result.Err? {
        var e := if attempt < node.config.maxRetry
                 then StepRetrying(id, node.name, attempt + 1, node.config.retryDelayMs, Now(h, s2))
                 else StepFailed(id, node.name, h.show(result.error), attempt, Now(h, s2));
        SaveTimely(h, s2, others, id, e);
        if attempt < node.config.maxRetry {
          StepTimely(h, Save(s2, id, e), others, id, node, input, attempt + 1);
        }
      }
    }
  }

  lemma {:induction false} GroupTimely(h: Host, s: Sys, others: set<WorkflowId>, id: WorkflowId, def: WorkflowDef,
                                       children: seq<string>, input: Json, done: map<string, Json>,
                                       merged: map<string, Json>)
    requires Monotone(h.clock) && Timely(h, s, others)
    ensures Timely(h, ExecGroup(h, s, id, def, children, input, done, merged).0, others)
    decreases |children|
  {
    hide Timely, Monotone, ExecStep;
    if children != [] {
      var child := children[0];
      if child in done {
        GroupTimely(h, s, others, id, def, children[1..], input, done, merged[child := done[child]]);
      } else if FindStep(def.steps, child).Some? {
        var node := FindStep(def.steps, child).value;
        StepTimely(h, s, others, id, node, input, 1);
        var (s1, result) := ExecStep(h, s, id, node, input, 1);
        if result.Ok? {
          GroupTimely(h, s1, others, id, def, children[1..], input, done, merged[child := result.value]);
        }
      }
    }
  }

  lemma LocalTimely(h: Host, s: Sys, others: set<WorkflowId>, id: WorkflowId, def: WorkflowDef, node: StepNode,
                    input: Json, done: map<string, Json>)
    requires Monotone(h.clock) && Timely(h, s, others) && !node.kind.SubWorkflow?
    ensures Timely(h, ExecLocal(h, s, id, def, node, input, done).0, others)
  {
    hide Timely, Monotone, ExecStep;
    match node.kind
    case Sequential => StepTimely(h, s, others, id, node, input, 1);
    case Parallel(children) => GroupTimely(h, s, others, id, def, children, input, done, map[]);
    case Conditional(c, t, f) =>
      StepTimely(h, s, others, id, BranchNode(c), input, 1);
      var (s1, cond) := if c in done then (s, Ok(Null)) else ExecStep(h, s, id, BranchNode(c), input, 1);
      StepTimely(h, s1, others, id, BranchNode(if cond.Ok? then t else f), input, 1);
    case Signal(_) =>
  }

  /** A node keeps all logs in order: its workflow's, and those of the children it starts. */
  lemma {:induction false} NodeTimely(h: Host, s: Sys, others: set<WorkflowId>, id: WorkflowId, def: WorkflowDef,
                                      node: StepNode, input: Json, done: map<string, Json>, depth: nat)
    requires Monotone(h.clock) && Timely(h, s, others)
    ensures var r := ExecNode(h, s, id, def, node, input, done, depth);
      r.Some? ==> Timely(h, r.value.0, others)
    decreases depth, 0
  {
    hide ExecLocal, Start, Timely, Monotone;
    if !node.kind.SubWorkflow? {
      LocalTimely(h, s, others, id, def, node, input, done);
    } else if node.name in s.defs && depth > 0 {
      StartTimely(h, s, others, s.defs[node.name], input, depth - 1);
    }
  }

  lemma {:induction false} RunTimely(h: Host, s: Sys, others: set<WorkflowId>, id: WorkflowId, def: WorkflowDef, i: nat,
                                     current: Json, done: map<string, Json>, depth: nat)
    requires Monotone(h.clock) && Timely(h, s, others)
    ensures var r := RunSteps(h, s, id, def, i, current, done, depth);
      r.Some? ==> Timely(h, r.value, others)
    decreases depth, 1, |def.steps| - i
  {
    hide RunSteps, ExecNode, Timely, Monotone;
    if i >= |def.steps| {
      RunEnd(h, s, id, def, i, current, done, depth);
      SaveTimely(h, s, others, id, WorkflowCompleted(id, current, Now(h, s)));
    } else if def.steps[i].name in done {
      RunSkip(h, s, id, def, i, current, done, depth);
      RunTimely(h, s, others, id, def, i + 1, done[def.steps[i].name], done, depth);
    } else {
      RunTurn(h, s, id, def, i, current, done, depth);
      var turn := ExecNode(h, s, id, def, def.steps[i], current, done, depth);
      if turn.Some? {
        var (s1, result) := turn.value;
        var e := Report(h, s1, id, def.steps[i], result);
        NodeTimely(h, s, others, id, def, def.steps[i], current, done, depth);
        SaveTimely(h, s1, others, id, e);
        if result.Done? {
          RunTimely(h, Save(s1, id, e), others, id, def, i + 1, result.output, done, depth);
        }
      }
    }
  }

  /** A start keeps every log in time order, its own and those of its children included. */
  lemma {:induction false} StartTimely(h: Host, s: Sys, others: set<WorkflowId>, def: WorkflowDef, input: Json,
                                       depth: nat)
    requires Monotone(h.clock) && Timely(h, s, others)
    ensures var r := Start(h, s, def, input, depth);
      r.Some? ==> Timely(h, r.value.0, others)
    decreases depth, 2
  {
    hide RunSteps, Timely, Monotone;
    var id := h.freshId(s.ticks);
    TimelyDefs(h, s, others, id, def);
    SaveTimely(h, s.(defs := s.defs[id := def]), others, id, WorkflowStarted(id, def.name, input, Now(h, s)));
    RunTimely(h, Opened(h, s, def, input), others, id, def, 0, input, map[], depth);
  }

  lemma TimelyDefs(h: Host, s: Sys, others: set<WorkflowId>, id: WorkflowId, def: WorkflowDef)
    requires Timely(h, s, others)
    ensures Timely(h, s.(defs := s.defs[id := def]), others)
  {
  }

  /** A start under a time limit does so too, with the failure it may add. */
  lemma StartWithTimeoutTimely(h: Host, s: Sys, others: set<WorkflowId>, def: WorkflowDef, input: Json, limitMs: int,
                               elapsedMs: int, depth: nat)
    requires Monotone(h.clock) && Timely(h, s, others)
    ensures var r := StartWithTimeout(h, s, def, input, limitMs, elapsedMs, depth);
      r.Some? ==> Timely(h, r.value.0, others)
  {
    hide Start, Timely, Monotone;
    StartTimely(h, s, others, def, input, depth);
    if Start(h, s, def, input, depth).Some? {
      var (s1, id) := Start(h, s, def, input, depth).value;
      SaveTimely(h, s1, others, id, WorkflowFailed(id, "workflow timeout exceeded", Now(h, s1)));
    }
  }

  /** A resume, too, when the clock has not fallen behind what is stored. */
  lemma ResumeTimely(h: Host, s: Sys, others: set<WorkflowId>, id: WorkflowId, def: WorkflowDef, depth: nat)
    requires Monotone(h.clock) && Timely(h, s, others)
    ensures var r := Resume(h, s, id, def, depth);
      r.Some? ==> Timely(h, r.value.0, others)
  {
    hide RunSteps, Timely, Monotone;
    var log := Load(s, id);
    TimelyDefs(h, s, others, id, def);
    if ResumeVerdict(log, id).None? {
      var s0, done := s.(defs := s.defs[id := def]), StateOf(log).completedSteps;
      RunTimely(h, s0, others, id, def, 0, LastOutput(log), done, depth);
    }
  }

  /**
   * Whatever else is stored: the logs a start leaves, its children's included, are in order, and no result's
   * time is negative.
   */
  lemma StartedLogsTimely(h: Host, s: Sys, def: WorkflowDef, input: Json, depth: nat, o: WorkflowId)
    requires Monotone(h.clock) && Fresh(h, s)
    requires Start(h, s, def, input, depth).Some?
    requires o in Start(h, s, def, input, depth).value.0.logs && o !in s.logs
    ensures var log := Start(h, s, def, input, depth).value.0.logs[o];
      && Chronological(log)
      && (GetResult(log, o).Some? ==> GetResult(log, o).value.elapsedMs >= 0)
  {
    hide Start;
    StartTimely(h, s, s.logs.Keys, def, input, depth);
    StartLife(h, s, def, input, depth);
    ResultTrichotomy(Start(h, s, def, input, depth).value.0.logs[o], o);
  }

  // ---------------------------------------------------------------------------------------------
  // Every reachable state of the store
  // ---------------------------------------------------------------------------------------------

  /** A move made under a clock that runs forwards and starts no earlier than anything stored. */
  ghost predicate TimedNext(s: Sys, s': Sys) {
    exists h: Host, depth: nat, op: Op :: Moves(h, depth, s, op, s') && Monotone(h.clock) && Past(h, s)
  }

  /** A run of the whole system from an empty store, with clocks that carry on from one operation to the next. */
  ghost predicate TimedBehaviour(trace: seq<Sys>) {
    && trace != []
    && trace[0].logs == map[]
    && forall i :: 0 <= i < |trace| - 1 ==> TimedNext(trace[i], trace[i + 1])
  }

  lemma MoveKeepsOrder(h: Host, depth: nat, s: Sys, op: Op, s': Sys)
    requires Moves(h, depth, s, op, s') && Monotone(h.clock) && InOrder(s) && Past(h, s)
    ensures InOrder(s')
  {
    hide Start, StartWithTimeout, Resume;
    match op
    case Begin(def, input) => StartTimely(h, s, {}, def, input, depth);
    case BeginTimed(def, input, limitMs, elapsedMs) =>
      StartWithTimeoutTimely(h, s, {}, def, input, limitMs, elapsedMs, depth);
    case Continue(id, def) => ResumeTimely(h, s, {}, id, def, depth);
    case Crash(survivor) =>
  }

  lemma {:induction false} ReachableInOrder(trace: seq<Sys>)
    requires TimedBehaviour(trace)
    ensures Behaviour(trace) && InOrder(trace[|trace| - 1])
  {
    hide Moves, InOrder;
    if |trace| > 1 {
      var n := |trace| - 1;
      var before := trace[..n];
      forall i | 0 <= i < n - 1
        ensures TimedNext(before[i], before[i + 1])
      {
        assert TimedNext(trace[i], trace[i + 1]);
      }
      ReachableInOrder(before);
      assert TimedNext(trace[n - 1], trace[n - 1 + 1]);
      var h: Host, depth: nat, op: Op :|
        Moves(h, depth, trace[n - 1], op, trace[n]) && Monotone(h.clock) && Past(h, trace[n - 1]);
      MoveKeepsOrder(h, depth, trace[n - 1], op, trace[n]);
      forall i | 0 <= i < n
        ensures Next(trace[i], trace[i + 1])
      {
        assert TimedNext(trace[i], trace[i + 1]);
      }
    } else {
      EmptyInOrder(trace[0]);
    }
  }

  lemma EmptyInOrder(s: Sys)
    requires s.logs == map[]
    ensures InOrder(s)
  {
  }

  /**
   * In every reachable state, over starts, timed starts, resumes and crashes, every log is in time order,
   * children's logs included, and no result reports a negative time.
   */
  lemma ReachableLogsTimely(trace: seq<Sys>, id: WorkflowId)
    requires TimedBehaviour(trace) && id in trace[|trace| - 1].logs
    ensures var log := trace[|trace| - 1].logs[id];
      && Chronological(log)
      && (GetResult(log, id).Some? ==> GetResult(log, id).value.elapsedMs >= 0)
  {
    ReachableInOrder(trace);
    ReachableLogsLived(trace);
    ResultTrichotomy(trace[|trace| - 1].logs[id], id);
  }
}
