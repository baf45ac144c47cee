/** The value the loop carries from step to step is the one the log can give back. */
module CarriedValue {
  import opened Types
  import opened Replay
  import opened Execution
  import opened Lifecycle

  /** The loop before it looks at step `index`. */
  datatype LoopHead = LoopHead(sys: Sys, index: nat, current: Json)

  /** Every loop head of a run, in order. */
  function LoopHeads(h: Host, s: Sys, id: WorkflowId, def: WorkflowDef, i: nat, current: Json, done: map<string, Json>,
                     depth: nat): seq<LoopHead>
    decreases |def.steps| - i
  {
    [LoopHead(s, i, current)] +
    if i >= |def.steps| then []
    else if def.steps[i].name in done then LoopHeads(h, s, id, def, i + 1, done[def.steps[i].name], done, depth)
    else
      match ExecNode(h, s, id, def, def.steps[i], current, done, depth)
      case Some((s1, Done(output))) =>
        LoopHeads(h, Save(s1, id, Report(h, s1, id, def.steps[i], Done(output))), id, def, i + 1, output, done, depth)
      case _ => []
  }

  /** A node and the report of its output leave that output as the newest value in the log. */
  lemma TurnCarries(h: Host, s: Sys, id: WorkflowId, def: WorkflowDef, node: StepNode, current: Json,
                    done: map<string, Json>, depth: nat)
    requires Fresh(h, s) && id in s.logs && ExecNode(h, s, id, def, node, current, done, depth).Some?
    ensures var (s1, result) := ExecNode(h, s, id, def, node, current, done, depth).value;
      var s2 := Save(s1, id, Report(h, s1, id, node, result));
      && Fresh(h, s2) && id in s2.logs
      && LastOutput(s2.logs[id]) == if result.Done? then result.output else LastOutput(s.logs[id])
  {
    hide ExecNode;
    var (s1, result) := ExecNode(h, s, id, def, node, current, done, depth).value;
    var e := Report(h, s1, id, node, result);
    NodeStored(h, s, id, def, node, current, done, depth, e);
    LastOutputQuiet(s.logs[id], s1.logs[id]);
    LastOutputSnoc(s1.logs[id], e);
  }

  /** From any loop head where the carried value is the log's, so it is at every later one. */
  lemma {:induction false} HeadsCarry(h: Host, s: Sys, id: WorkflowId, def: WorkflowDef, i: nat, current: Json,
                                      depth: nat, k: nat)
    requires Fresh(h, s) && id in s.logs && LastOutput(s.logs[id]) == current
    requires k < |LoopHeads(h, s, id, def, i, current, map[], depth)|
    ensures var head := LoopHeads(h, s, id, def, i, current, map[], depth)[k];
      LastOutput(Load(head.sys, id)) == head.current
    decreases k
  {
    hide ExecNode;
    if k > 0 {
      TurnCarries(h, s, id, def, def.steps[i], current, map[], depth);
      var (s1, result) := ExecNode(h, s, id, def, def.steps[i], current, map[], depth).value;
      var s2 := Save(s1, id, Report(h, s1, id, def.steps[i], result));
      HeadsCarry(h, s2, id, def, i + 1, result.output, depth, k - 1);
    }
  }

  lemma {:induction false} RunCarries(h: Host, s: Sys, id: WorkflowId, def: WorkflowDef, i: nat, current: Json,
                                      depth: nat)
    requires Fresh(h, s) && id in s.logs && LastOutput(s.logs[id]) == current
    ensures var r := RunSteps(h, s, id, def, i, current, map[], depth);
      r.Some? ==>
        && id in r.value.logs && r.value.logs[id] != []
        && var log := r.value.logs[id];
           log[|log| - 1].WorkflowCompleted? ==> log[|log| - 1].output == LastOutput(log)
    decreases |def.steps| - i
  {
    hide RunSteps, ExecNode;
    if i >= |def.steps| {
      RunEnd(h, s, id, def, i, current, map[], depth);
      LastOutputSnoc(s.logs[id], WorkflowCompleted(id, current, Now(h, s)));
    } else {
      RunTurn(h, s, id, def, i, current, map[], depth);
      var turn := ExecNode(h, s, id, def, def.steps[i], current, map[], depth);
      if turn.Some? {
        TurnCarries(h, s, id, def, def.steps[i], current, map[], depth);
        var (s1, result) := turn.value;
        if result.Done? {
          RunCarries(h, Save(s1, id, Report(h, s1, id, def.steps[i], result)), id, def, i + 1, result.output, depth);
        }
      }
    }
  }

  /**
   * In every started run, over all five kinds of step, the newest value in the log is the carried value at
   * every loop head, and the output of the workflow when it completes.
   */
  lemma StartCarries(h: Host, s: Sys, def: WorkflowDef, input: Json, depth: nat)
    requires Fresh(h, s)
    ensures var id := h.freshId(s.ticks);
      forall k :: 0 <= k < |LoopHeads(h, Opened(h, s, def, input), id, def, 0, input, map[], depth)| ==>
        var head := LoopHeads(h, Opened(h, s, def, input), id, def, 0, input, map[], depth)[k];
        LastOutput(Load(head.sys, id)) == head.current
    ensures var r := Start(h, s, def, input, depth);
      r.Some? ==>
        && Load(r.value.0, r.value.1) != []
        && var log := Load(r.value.0, r.value.1);
           log[|log| - 1].WorkflowCompleted? ==> log[|log| - 1].output == LastOutput(log)
  {
    hide RunSteps, LoopHeads;
    var id, s0 := h.freshId(s.ticks), Opened(h, s, def, input);
    OpenedFrame(h, s, def, input);
    forall k | 0 <= k < |LoopHeads(h, s0, id, def, 0, input, map[], depth)|
      ensures var head := LoopHeads(h, s0, id, def, 0, input, map[], depth)[k];
        LastOutput(Load(head.sys, id)) == head.current
    {
      HeadsCarry(h, s0, id, def, 0, input, depth, k);
    }
    RunCarries(h, s0, id, def, 0, input, depth);
  }

  /**
   * What a parent step gets from a sub-workflow: the child's output when the child completed, and, since
   * the child's status is not looked at, the child's newest step output (or its input) when the child failed.
   */
  lemma ParentReadsChild(h: Host, s: Sys, node: StepNode, input: Json, depth: nat)
    requires Fresh(h, s) && node.name in s.defs && depth > 0
    requires Start(h, s, s.defs[node.name], input, depth - 1).Some?
    ensures var (s1, child) := Start(h, s, s.defs[node.name], input, depth - 1).value;
      var r := ExecSubWorkflow(h, s, node, input, depth);
      && r.Some? && r.value.0 == s1 && r.value.1.Done?
      && var log := Load(s1, child);
         && log != []
         && (log[|log| - 1].WorkflowCompleted? || log[|log| - 1].WorkflowFailed?)
         && (log[|log| - 1].WorkflowCompleted? ==> r.value.1 == Done(log[|log| - 1].output))
         && (log[|log| - 1].WorkflowFailed? ==>
               r.value.1 == Done(if Completions(log) == [] then input
                                 else Completions(log)[|Completions(log)| - 1].output))
  {
    hide RunSteps;
    var def := s.defs[node.name];
    var id, s0 := h.freshId(s.ticks), Opened(h, s, def, input);
    StartCarries(h, s, def, input, depth - 1);
    OpenedFrame(h, s, def, input);
    RunLife(h, s0, id, def, 0, input, map[], depth - 1);
    RunStepsFrame(h, s0, id, def, 0, input, map[], depth - 1);
    var (s1, child) := Start(h, s, def, input, depth - 1).value;
    LastOutputMeaning(s1.logs[child]);
  }
}
