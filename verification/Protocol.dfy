/** The order in which a run writes events about attempts, as an automaton that accepts every started run's log. */
module Protocol {
  import opened Types
  import opened Execution

  /** The step and number of the newest attempt begun. */
  function Current(log: seq<Event>): Option<(string, int)> {
    if log == [] then None
    else if log[|log| - 1].StepStarted? then Some((log[|log| - 1].step, log[|log| - 1].attempt))
    else Current(log[..|log| - 1])
  }

  predicate Announced(log: seq<Event>) {
    log != [] && log[|log| - 1].StepRetrying?
  }

  /**
   * The event may follow the log: an announced retry is taken up at once, under its number, and any other
   * attempt is a first one; a retry is announced for the current attempt plus one; a failure names the current
   * step, and its attempt unless it is a timeout, which is always put down to attempt 1.
   */
  predicate MayFollow(log: seq<Event>, e: Event) {
    match e
    case StepStarted(_, step, attempt, _) =>
      if Announced(log) then log[|log| - 1].step == step && log[|log| - 1].attempt == attempt else attempt == 1
    case StepRetrying(_, step, attempt, _, _) => !Announced(log) && Current(log) == Some((step, attempt - 1))
    case StepFailed(_, step, reason, attempt, _) =>
      && !Announced(log) && Current(log).Some? && Current(log).value.0 == step
      && ((reason == "timeout exceeded" && attempt == 1) || attempt == Current(log).value.1)
    case _ => !Announced(log)
  }

  /** Every event of the log may follow the events before it. */
  predicate Accepted(log: seq<Event>) {
    log == [] || (Accepted(log[..|log| - 1]) && MayFollow(log[..|log| - 1], log[|log| - 1]))
  }

  lemma AcceptedSnoc(log: seq<Event>, e: Event)
    ensures Accepted(log + [e]) <==> Accepted(log) && MayFollow(log, e)
    ensures Current(log + [e]) == if e.StepStarted? then Some((e.step, e.attempt)) else Current(log)
    ensures Announced(log + [e]) <==> e.StepRetrying?
  {
    assert (log + [e])[..|log|] == log;
  }

  /** The log is accepted and no retry is pending. */
  predicate Settled(s: Sys, id: WorkflowId) {
    id in s.logs && Accepted(s.logs[id]) && !Announced(s.logs[id])
  }

  /** The log is accepted up to here, and the next attempt at the step is the one with this number. */
  predicate Due(s: Sys, id: WorkflowId, step: string, attempt: int) {
    && id in s.logs && Accepted(s.logs[id])
    && var log := s.logs[id];
       if Announced(log) then log[|log| - 1].step == step && log[|log| - 1].attempt == attempt else attempt == 1
  }

  lemma AttemptAccepted(h: Host, s: Sys, id: WorkflowId, node: StepNode, input: Json, attempt: int)
    requires Due(s, id, node.name, attempt) && node.name in h.registry
    ensures var s1 := Save(s, id, StepStarted(id, node.name, attempt, Now(h, s)));
      var s2 := Attempt(h, s1, id, node, input, attempt).0;
      Settled(s2, id) && Current(s2.logs[id]) == Some((node.name, attempt))
  {
    var e := StepStarted(id, node.name, attempt, Now(h, s));
    AcceptedSnoc(s.logs[id], e);
    var s1 := Save(s, id, e);
    var (s2, outcome) := Invoke(h, s1, node.name, input, attempt);
    AcceptedSnoc(s2.logs[id], StepFailed(id, node.name, "timeout exceeded", 1, Now(h, s2)));
  }

  lemma {:induction false} StepAccepted(h: Host, s: Sys, id: WorkflowId, node: StepNode, input: Json, attempt: int)
    requires Due(s, id, node.name, attempt)
    ensures Settled(ExecStep(h, s, id, node, input, attempt).0, id)
    decreases node.config.maxRetry - attempt
  {
    hide Attempt, ExecStep, Accepted, Current;
    StepTurn(h, s, id, node, input, attempt);
    var started := StepStarted(id, node.name, attempt, Now(h, s));
    AcceptedSnoc(s.logs[id], started);
    if node.name in h.registry {
      AttemptAccepted(h, s, id, node, input, attempt);
      var (s2, result) := Attempt(h, Save(s, id, started), id, node, input, attempt);
      if result.Err? {
        var e := if attempt < node.config.maxRetry
                 then StepRetrying(id, node.name, attempt + 1, node.config.retryDelayMs, Now(h, s2))
                 else StepFailed(id, node.name, h.show(result.error), attempt, Now(h, s2));
        AcceptedSnoc(s2.logs[id], e);
        if attempt < node.config.maxRetry {
          StepAccepted(h, Save(s2, id, e), id, node, input, attempt + 1);
        }
      }
    }
  }

  lemma {:induction false} GroupAccepted(h: Host, s: Sys, id: WorkflowId, def: WorkflowDef, children: seq<string>,
                                         input: Json, done: map<string, Json>, merged: map<string, Json>)
    requires Settled(s, id)
    ensures Settled(ExecGroup(h, s, id, def, children, input, done, merged).0, id)
    decreases |children|
  {
    hide ExecStep, Accepted;
    if children != [] {
      var child := children[0];
      if child in done {
        GroupAccepted(h, s, id, def, children[1..], input, done, merged[child := done[child]]);
      } else if FindStep(def.steps, child).Some? {
        var node := FindStep(def.steps, child).value;
        StepAccepted(h, s, id, node, input, 1);
        var (s1, result) := ExecStep(h, s, id, node, input, 1);
        if result.Ok? {
          GroupAccepted(h, s1, id, def, children[1..], input, done, merged[child := result.value]);
        }
      }
    }
  }

  lemma NodeAccepted(h: Host, s: Sys, id: WorkflowId, def: WorkflowDef, node: StepNode, input: Json,
                     done: map<string, Json>, depth: nat)
    requires Fresh(h, s) && Settled(s, id)
    ensures var r := ExecNode(h, s, id, def, node, input, done, depth);
      r.Some? ==> Settled(r.value.0, id)
  {
    hide ExecStep, ExecGroup, Accepted, Announced;
    match node.kind
    case Sequential => StepDue(s, id, node.name); StepAccepted(h, s, id, node, input, 1);
    case Parallel(children) => GroupAccepted(h, s, id, def, children, input, done, map[]);
    case Conditional(c, t, f) =>
      StepDue(s, id, c);
      StepAccepted(h, s, id, BranchNode(c), input, 1);
      var (s1, cond) := if c in done then (s, Ok(Null)) else ExecStep(h, s, id, BranchNode(c), input, 1);
      var target := if cond.Ok? then t else f;
      StepDue(s1, id, target);
      StepAccepted(h, s1, id, BranchNode(target), input, 1);
    case Signal(_) =>
    case SubWorkflow(_) =>
      if node.name in s.defs && depth > 0 {
        StartFrame(h, s, s.defs[node.name], input, depth - 1);
      }
  }

  lemma StepDue(s: Sys, id: WorkflowId, step: string)
    requires Settled(s, id)
    ensures Due(s, id, step, 1)
  {
  }

  lemma {:induction false} RunAccepted(h: Host, s: Sys, id: WorkflowId, def: WorkflowDef, i: nat, current: Json,
                                       done: map<string, Json>, depth: nat)
    requires Fresh(h, s) && Settled(s, id)
    ensures var r := RunSteps(h, s, id, def, i, current, done, depth);
      r.Some? ==> Settled(r.value, id)
    decreases |def.steps| - i
  {
    hide RunSteps, ExecNode, Accepted, Announced;
    if i >= |def.steps| {
      RunEnd(h, s, id, def, i, current, done, depth);
      AcceptedSnoc(s.logs[id], WorkflowCompleted(id, current, Now(h, s)));
    } else if def.steps[i].name in done {
      RunSkip(h, s, id, def, i, current, done, depth);
      RunAccepted(h, s, id, def, i + 1, done[def.steps[i].name], done, depth);
    } else {
      RunTurn(h, s, id, def, i, current, done, depth);
      var turn := ExecNode(h, s, id, def, def.steps[i], current, done, depth);
      if turn.Some? {
        var (s1, result) := turn.value;
        var e := Report(h, s1, id, def.steps[i], result);
        NodeAccepted(h, s, id, def, def.steps[i], current, done, depth);
        NodeStored(h, s, id, def, def.steps[i], current, done, depth, e);
        AcceptedSnoc(s1.logs[id], e);
        if result.Done? {
          RunAccepted(h, Save(s1, id, e), id, def, i + 1, result.output, done, depth);
        }
      }
    }
  }

  /** The log of every started run is accepted, for all kinds of step and arbitrary handlers. */
  lemma StartAccepted(h: Host, s: Sys, def: WorkflowDef, input: Json, depth: nat)
    requires Fresh(h, s)
    ensures var r := Start(h, s, def, input, depth);
      r.Some? ==> Settled(r.value.0, r.value.1)
  {
    hide RunSteps;
    OpenedFrame(h, s, def, input);
    var s0 := Opened(h, s, def, input);
    var e := WorkflowStarted(h.freshId(s.ticks), def.name, input, Now(h, s));
    AcceptedSnoc([], e);
    assert [] + [e] == [e];
    RunAccepted(h, s0, h.freshId(s.ticks), def, 0, input, map[], depth);
  }
}
