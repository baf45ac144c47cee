/** When starting a workflow terminates, and that `depth` only says how far it may nest. */
module Nesting {
  import opened Types
  import opened Execution
  import opened Interpreter

  /** Among the named definitions, every sub-workflow has a smaller rank than the definition that uses it. */
  ghost predicate Ranked(p: Program, names: set<string>, rank: string -> nat) {
    forall n, m :: n in names && n in p.lib && m in SubNames(p.lib[n]) ==> rank(m) < rank(n)
  }

  lemma {:induction false} NodeTerminates(h: Host, p: Program, names: set<string>, rank: string -> nat, s: Sys,
                                          id: WorkflowId, def: WorkflowDef, node: StepNode, input: Json,
                                          done: map<string, Json>, depth: nat)
    requires Fresh(h, s) && id in s.logs && Unnamed(h, names) && Knows(s, p, names)
    requires Closed(p, def, names) && Ranked(p, names, rank)
    requires node in def.steps && (node.kind.SubWorkflow? ==> rank(node.name) < depth)
    ensures ExecNode(h, s, id, def, node, input, done, depth).Some?
    decreases depth, 0
  {
    if node.kind.SubWorkflow? && node.name in s.defs {
      assert node.name in SubNames(def);
      StartTerminates(h, p, names, rank, s, s.defs[node.name], input, depth - 1);
    }
  }

  lemma {:induction false} RunTerminates(h: Host, p: Program, names: set<string>, rank: string -> nat, s: Sys,
                                         id: WorkflowId, def: WorkflowDef, i: nat, current: Json,
                                         done: map<string, Json>, depth: nat)
    requires Fresh(h, s) && id in s.logs && Unnamed(h, names) && Knows(s, p, names)
    requires Closed(p, def, names) && Ranked(p, names, rank)
    requires forall m :: m in SubNames(def) ==> rank(m) < depth
    ensures RunSteps(h, s, id, def, i, current, done, depth).Some?
    decreases depth, 1, |def.steps| - i
  {
    hide RunSteps, ExecNode, Unnamed, Knows, Closed, Ranked;
    if i >= |def.steps| {
      RunEnd(h, s, id, def, i, current, done, depth);
    } else if def.steps[i].name in done {
      RunSkip(h, s, id, def, i, current, done, depth);
      RunTerminates(h, p, names, rank, s, id, def, i + 1, done[def.steps[i].name], done, depth);
    } else {
      RunTurn(h, s, id, def, i, current, done, depth);
      var node := def.steps[i];
      assert node.kind.SubWorkflow? ==> node.name in SubNames(def);
      NodeTerminates(h, p, names, rank, s, id, def, node, current, done, depth);
      NodeKnows(h, p, names, s, id, def, node, current, done, depth);
      var (s1, result) := ExecNode(h, s, id, def, node, current, done, depth).value;
      if result.Done? {
        var e := Report(h, s1, id, node, result);
        NodeStored(h, s, id, def, node, current, done, depth, e);
        SaveKnows(p, names, s1, id, e);
        RunTerminates(h, p, names, rank, Save(s1, id, e), id, def, i + 1, result.output, done, depth);
      }
    }
  }

  lemma SaveKnows(p: Program, names: set<string>, s: Sys, id: WorkflowId, e: Event)
    requires Knows(s, p, names)
    ensures Knows(Save(s, id, e), p, names)
  {
  }

  /**
   * Ranked definitions terminate, with any handlers, although every start adds a definition under a
   * generated id: nesting never goes deeper than the largest rank the definition uses.
   */
  lemma {:induction false} StartTerminates(h: Host, p: Program, names: set<string>, rank: string -> nat, s: Sys,
                                           def: WorkflowDef, input: Json, depth: nat)
    requires Fresh(h, s) && Unnamed(h, names) && Knows(s, p, names)
    requires Closed(p, def, names) && Ranked(p, names, rank)
    requires forall m :: m in SubNames(def) ==> rank(m) < depth
    ensures Start(h, s, def, input, depth).Some?
    decreases depth, 2
  {
    OpenedFrame(h, s, def, input);
    RunTerminates(h, p, names, rank, Opened(h, s, def, input), h.freshId(s.ticks), def, 0, input, map[], depth);
  }

  /** A definition whose first step names itself never terminates, however deep it may nest. */
  lemma {:induction false} SelfNestingDiverges(h: Host, s: Sys, def: WorkflowDef, input: Json, depth: nat)
    requires def.steps != [] && def.steps[0].kind.SubWorkflow?
    requires def.steps[0].name in s.defs && s.defs[def.steps[0].name] == def
    requires forall n: nat :: h.freshId(n) != def.steps[0].name
    ensures Start(h, s, def, input, depth).None?
    decreases depth
  {
    var id, s0, node := h.freshId(s.ticks), Opened(h, s, def, input), def.steps[0];
    RunTurn(h, s0, id, def, 0, input, map[], depth);
    if depth > 0 {
      assert s0.defs[node.name] == def;
      SelfNestingDiverges(h, s0, def, input, depth - 1);
    }
    assert ExecNode(h, s0, id, def, node, input, map[], depth) == ExecSubWorkflow(h, s0, node, input, depth);
  }

  // ---------------------------------------------------------------------------------------------
  // Depth to spare changes nothing
  // ---------------------------------------------------------------------------------------------

  lemma {:induction false} NodeDepth(h: Host, s: Sys, id: WorkflowId, def: WorkflowDef, node: StepNode, input: Json,
                                     done: map<string, Json>, d: nat, d': nat)
    requires d <= d' && ExecNode(h, s, id, def, node, input, done, d).Some?
    ensures ExecNode(h, s, id, def, node, input, done, d') == ExecNode(h, s, id, def, node, input, done, d)
    decreases d, 0
  {
    hide ExecLocal;
    if node.kind.SubWorkflow? && node.name in s.defs {
      StartDepth(h, s, s.defs[node.name], input, d - 1, d' - 1);
    }
  }

  lemma {:induction false} RunDepth(h: Host, s: Sys, id: WorkflowId, def: WorkflowDef, i: nat, current: Json,
                                    done: map<string, Json>, d: nat, d': nat)
    requires d <= d' && RunSteps(h, s, id, def, i, current, done, d).Some?
    ensures RunSteps(h, s, id, def, i, current, done, d') == RunSteps(h, s, id, def, i, current, done, d)
    decreases d, 1, |def.steps| - i
  {
    hide RunSteps, ExecNode;
    if i >= |def.steps| {
      RunEnd(h, s, id, def, i, current, done, d);
      RunEnd(h, s, id, def, i, current, done, d');
    } else if def.steps[i].name in done {
      RunSkip(h, s, id, def, i, current, done, d);
      RunSkip(h, s, id, def, i, current, done, d');
      RunDepth(h, s, id, def, i + 1, done[def.steps[i].name], done, d, d');
    } else {
      RunTurn(h, s, id, def, i, current, done, d);
      RunTurn(h, s, id, def, i, current, done, d');
      NodeDepth(h, s, id, def, def.steps[i], current, done, d, d');
      var (s1, result) := ExecNode(h, s, id, def, def.steps[i], current, done, d).value;
      if result.Done? {
        RunDepth(h, Save(s1, id, Report(h, s1, id, def.steps[i], result)), id, def, i + 1, result.output, done, d, d');
      }
    }
  }

  /** A run that terminates is the same run under every larger bound on nesting. */
  lemma {:induction false} StartDepth(h: Host, s: Sys, def: WorkflowDef, input: Json, d: nat, d': nat)
    requires d <= d' && Start(h, s, def, input, d).Some?
    ensures Start(h, s, def, input, d') == Start(h, s, def, input, d)
    decreases d, 2
  {
    RunDepth(h, Opened(h, s, def, input), h.freshId(s.ticks), def, 0, input, map[], d, d');
  }
}
