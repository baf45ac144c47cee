/** For Sequential definitions, replaying the log tells exactly what has been executed and what failed. */
module Encoding {
  import opened Types
  import opened Replay
  import opened Execution
  import opened CarriedValue

  /** How often the log says an attempt at the step began. */
  function Attempts(log: seq<Event>, step: string): nat {
    if log == [] then 0
    else
      var e := log[|log| - 1];
      Attempts(log[..|log| - 1], step) + if e.StepStarted? && e.step == step then 1 else 0
  }

  lemma AttemptsSnoc(log: seq<Event>, e: Event, step: string)
    ensures Attempts(log + [e], step) == Attempts(log, step) + if e.StepStarted? && e.step == step then 1 else 0
  {
    assert (log + [e])[..|log|] == log;
  }

  /** What the attempts at one step may change in the replayed state, and what they leave as it was. */
  ghost predicate OnlyTouches(before: seq<Event>, after: seq<Event>, name: string) {
    && before != [] && after != []
    && var st, st' := StateOf(before), StateOf(after);
       && st'.status == st.status
       && st'.completedSteps == st.completedSteps && st'.completedOrder == st.completedOrder
       && st'.failedSteps - {name} == st.failedSteps - {name}
       && st'.stepAttempts - {name} == st.stepAttempts - {name}
       && forall n :: n != name ==> Attempts(after, n) == Attempts(before, n)
  }

  lemma EventTouches(log: seq<Event>, e: Event)
    requires log != [] && e.Quiet()
    ensures OnlyTouches(log, log + [e], e.step)
    ensures var st, st' := StateOf(log), StateOf(log + [e]);
      && (e.StepStarted? ==> st'.currentStep == e.step)
      && (!e.StepStarted? ==> st'.currentStep == st.currentStep)
      && (e.StepStarted? || e.StepRetrying? ==> e.step in st'.stepAttempts && st'.stepAttempts[e.step] == e.attempt)
      && (e.StepFailed? ==> st'.stepAttempts == st.stepAttempts)
  {
    ReplaySnoc(log, e);
    forall n { AttemptsSnoc(log, e, n); }
  }

  lemma TouchesTransitive(a: seq<Event>, b: seq<Event>, c: seq<Event>, name: string)
    requires OnlyTouches(a, b, name) && OnlyTouches(b, c, name)
    ensures OnlyTouches(a, c, name)
  {
  }

  /** The replayed state names the step as current, with as many attempts as the log holds for it. */
  ghost predicate CountsAttempts(log: seq<Event>, name: string) {
    && log != []
    && var st := StateOf(log);
       && st.currentStep == name
       && name in st.stepAttempts && st.stepAttempts[name] == Attempts(log, name)
  }

  lemma AttemptEncodes(h: Host, s: Sys, id: WorkflowId, node: StepNode, input: Json, attempt: int)
    requires id in s.logs && s.logs[id] != [] && node.name in h.registry
    requires Attempts(s.logs[id], node.name) == attempt - 1
    ensures var started := Save(s, id, StepStarted(id, node.name, attempt, Now(h, s)));
      var s2 := Attempt(h, started, id, node, input, attempt).0;
      && id in s2.logs
      && OnlyTouches(s.logs[id], s2.logs[id], node.name)
      && CountsAttempts(s2.logs[id], node.name)
      && Attempts(s2.logs[id], node.name) == attempt
  {
    var e := StepStarted(id, node.name, attempt, Now(h, s));
    var log1 := s.logs[id] + [e];
    EventTouches(s.logs[id], e);
    AttemptsSnoc(s.logs[id], e, node.name);
    var s2 := Attempt(h, Save(s, id, e), id, node, input, attempt).0;
    if s2.logs[id] != log1 {
      var f := s2.logs[id][|log1|];
      assert s2.logs[id] == log1 + [f];
      EventTouches(log1, f);
      AttemptsSnoc(log1, f, node.name);
      TouchesTransitive(s.logs[id], log1, s2.logs[id], node.name);
    }
  }

  lemma {:induction false} StepEncodes(h: Host, s: Sys, id: WorkflowId, node: StepNode, input: Json, attempt: int)
    requires id in s.logs && s.logs[id] != []
    requires Attempts(s.logs[id], node.name) == attempt - 1
    ensures var s' := ExecStep(h, s, id, node, input, attempt).0;
      && id in s'.logs
      && OnlyTouches(s.logs[id], s'.logs[id], node.name)
      && CountsAttempts(s'.logs[id], node.name)
    decreases node.config.maxRetry - attempt
  {
    hide Attempt, ExecStep, OnlyTouches, Attempts;
    StepTurn(h, s, id, node, input, attempt);
    var name := node.name;
    var started := StepStarted(id, name, attempt, Now(h, s));
    var s1 := Save(s, id, started);
    if name !in h.registry {
      EventTouches(s.logs[id], started);
      AttemptsSnoc(s.logs[id], started, name);
    } else {
      AttemptEncodes(h, s, id, node, input, attempt);
      var (s2, result) := Attempt(h, s1, id, node, input, attempt);
      if result.Err? {
        var e := if attempt < node.config.maxRetry
                 then StepRetrying(id, name, attempt + 1, node.config.retryDelayMs, Now(h, s2))
                 else StepFailed(id, name, h.show(result.error), attempt, Now(h, s2));
        var s3 := Save(s2, id, e);
        EventTouches(s2.logs[id], e);
        AttemptsSnoc(s2.logs[id], e, name);
        TouchesTransitive(s.logs[id], s2.logs[id], s3.logs[id], name);
        if attempt < node.config.maxRetry {
          StepEncodes(h, s3, id, node, input, attempt + 1);
          TouchesTransitive(s.logs[id], s3.logs[id], ExecStep(h, s3, id, node, input, attempt + 1).0.logs[id], name);
        }
      }
    }
  }

  // ---------------------------------------------------------------------------------------------
  // Loop heads
  // ---------------------------------------------------------------------------------------------

  predicate AllSequential(def: WorkflowDef) {
    forall i :: 0 <= i < |def.steps| ==> def.steps[i].kind.Sequential?
  }

  /** The log as the loop leaves it before step i: what ran, with which outputs, in how many attempts. */
  ghost predicate Encodes(def: WorkflowDef, log: seq<Event>, i: nat) {
    && i <= |def.steps| && log != [] && log[0].WorkflowStarted?
    && var st, names := StateOf(log), def.Names()[..i];
       && st.status == Running
       && st.completedOrder == names
       && CompletedNames(Completions(log)) == names
       && st.completedSteps == OutputMap(Completions(log))
       && st.failedSteps == map[]
       && (forall n :: n in st.stepAttempts <==> n in names)
       && (forall n :: n in names ==> st.stepAttempts[n] == Attempts(log, n))
       && (forall n :: n !in names ==> Attempts(log, n) == 0)
  }

  lemma CompletionEncodes(def: WorkflowDef, i: nat, before: seq<Event>, middle: seq<Event>, e: Event)
    requires NoDuplicates(def.Names()) && i < |def.steps| && Encodes(def, before, i)
    requires before <= middle && OnlyTouches(before, middle, def.steps[i].name)
    requires CountsAttempts(middle, def.steps[i].name)
    requires Completions(middle) == Completions(before)
    requires e.StepCompleted? && e.step == def.steps[i].name
    ensures Encodes(def, middle + [e], i + 1)
  {
    var name, names := def.steps[i].name, def.Names()[..i];
    ReplaySnoc(middle, e);
    CompletionsSnoc(middle, e);
    CompletedNamesSnoc(Completions(middle), Completion(e.step, e.output));
    OutputMapSnoc(Completions(middle), Completion(e.step, e.output));
    OutputMapKeys(Completions(before));
    NameNotBefore(def, i);
    assert def.Names()[..i + 1] == names + [name];
    var st, st' := StateOf(middle), StateOf(middle + [e]);
    assert st'.failedSteps == map[];
    assert st'.completedOrder == names + [name];
    forall n
      ensures Attempts(middle + [e], n) == Attempts(middle, n)
    {
      AttemptsSnoc(middle, e, n);
    }
    AttemptsCarry(def, i, before, middle, e);
  }

  lemma AttemptsCarry(def: WorkflowDef, i: nat, before: seq<Event>, middle: seq<Event>, e: Event)
    requires i < |def.steps| && Encodes(def, before, i)
    requires OnlyTouches(before, middle, def.steps[i].name) && CountsAttempts(middle, def.steps[i].name)
    ensures var st, names := StateOf(middle), def.Names()[..i] + [def.steps[i].name];
      && (forall n :: n in st.stepAttempts <==> n in names)
      && (forall n :: n in names ==> st.stepAttempts[n] == Attempts(middle, n))
      && (forall n :: n !in names ==> Attempts(middle, n) == 0)
  {
    var name := def.steps[i].name;
    var st, st' := StateOf(before), StateOf(middle);
    forall n | n != name
      ensures (n in st'.stepAttempts <==> n in st.stepAttempts)
      ensures n in st.stepAttempts ==> st'.stepAttempts[n] == st.stepAttempts[n]
    {
      assert n in st'.stepAttempts - {name} <==> n in st.stepAttempts - {name};
      if n in st.stepAttempts {
        assert (st'.stepAttempts - {name})[n] == (st.stepAttempts - {name})[n];
      }
    }
  }

  lemma NameNotBefore(def: WorkflowDef, i: nat)
    requires NoDuplicates(def.Names()) && i < |def.steps|
    ensures def.steps[i].name !in def.Names()[..i]
  {
    var names := def.Names();
    assert forall j :: 0 <= j < i ==> names[j] != names[i];
  }

  lemma TurnEncodes(h: Host, s: Sys, id: WorkflowId, def: WorkflowDef, i: nat, current: Json, depth: nat)
    requires Fresh(h, s) && id in s.logs
    requires AllSequential(def) && NoDuplicates(def.Names()) && i < |def.steps| && Encodes(def, s.logs[id], i)
    ensures var turn := ExecNode(h, s, id, def, def.steps[i], current, map[], depth);
      && turn.Some?
      && var (s1, result) := turn.value;
         var s2 := Save(s1, id, Report(h, s1, id, def.steps[i], result));
         && Fresh(h, s2) && id in s1.logs && id in s2.logs && s2.logs[id] != []
         && (result.Done? ==> Encodes(def, s2.logs[id], i + 1))
         && (result.Broke? ==> FailsAt(h, def, s2.logs[id], i))
  {
    hide ExecStep, Encodes, OnlyTouches;
    var node := def.steps[i];
    var (s1, result) := ExecNode(h, s, id, def, node, current, map[], depth).value;
    var e := Report(h, s1, id, node, result);
    NoAttemptsYet(def, s.logs[id], i);
    StepEncodes(h, s, id, node, current, 1);
    NodeStored(h, s, id, def, node, current, map[], depth, e);
    CompletionsQuiet(s.logs[id], s1.logs[id]);
    if result.Done? {
      CompletionEncodes(def, i, s.logs[id], s1.logs[id], e);
    } else {
      StepReports(h, s, id, node, current, 1);
      FailureEncodes(h, def, i, s.logs[id], s1.logs[id], e);
    }
  }

  lemma NoAttemptsYet(def: WorkflowDef, log: seq<Event>, i: nat)
    requires NoDuplicates(def.Names()) && i < |def.steps| && Encodes(def, log, i)
    ensures log != [] && Attempts(log, def.steps[i].name) == 0
  {
    NameNotBefore(def, i);
  }

  /** The log of a run that failed at step i: replay knows that step as failed, if it had a handler, and no other. */
  ghost predicate FailsAt(h: Host, def: WorkflowDef, log: seq<Event>, i: nat) {
    && i < |def.steps| && log != [] && log[|log| - 1].WorkflowFailed?
    && var st, names := StateOf(log), def.Names()[..i];
       && st.status == Failed
       && st.currentStep == def.steps[i].name && st.currentStep !in st.completedSteps
       && st.completedOrder == names && st.completedSteps.Keys == set n | n in names
       && if st.currentStep !in h.registry then st.failedSteps == map[]
          else
            && |log| > 1 && log[|log| - 2].StepFailed? && log[|log| - 2].step == st.currentStep
            && st.failedSteps == map[st.currentStep := StepFailedError(st.currentStep, log[|log| - 2].reason)]
  }

  /** A registered handler's step that fails ends its attempts with the report of that. */
  lemma {:induction false} StepReports(h: Host, s: Sys, id: WorkflowId, node: StepNode, input: Json, attempt: int)
    requires id in s.logs && ExecStep(h, s, id, node, input, attempt).1.Err?
    ensures var log := Load(ExecStep(h, s, id, node, input, attempt).0, id);
      if node.name in h.registry then
        log != [] && log[|log| - 1].StepFailed? && log[|log| - 1].step == node.name
      else
        log == s.logs[id] + [StepStarted(id, node.name, attempt, Now(h, s))]
    decreases node.config.maxRetry - attempt
  {
    hide Attempt, ExecStep;
    StepTurn(h, s, id, node, input, attempt);
    var s1 := Save(s, id, StepStarted(id, node.name, attempt, Now(h, s)));
    if node.name in h.registry {
      var (s2, result) := Attempt(h, s1, id, node, input, attempt);
      if attempt < node.config.maxRetry {
        var e := StepRetrying(id, node.name, attempt + 1, node.config.retryDelayMs, Now(h, s2));
        StepReports(h, Save(s2, id, e), id, node, input, attempt + 1);
      }
    }
  }

  /** The log of a run that completed: every step, in order, and no failed step is left. */
  ghost predicate FinishesAll(def: WorkflowDef, log: seq<Event>) {
    && log != [] && log[|log| - 1].WorkflowCompleted?
    && StateOf(log).status == Completed && StateOf(log).failedSteps == map[]
    && StateOf(log).completedOrder == def.Names()
  }

  lemma EndEncodes(def: WorkflowDef, log: seq<Event>, e: Event)
    requires Encodes(def, log, |def.steps|) && e.WorkflowCompleted?
    ensures FinishesAll(def, log + [e])
  {
    ReplaySnoc(log, e);
    assert def.Names()[..|def.steps|] == def.Names();
  }

  lemma FailureEncodes(h: Host, def: WorkflowDef, i: nat, before: seq<Event>, middle: seq<Event>, e: Event)
    requires NoDuplicates(def.Names()) && i < |def.steps| && Encodes(def, before, i)
    requires before <= middle && OnlyTouches(before, middle, def.steps[i].name)
    requires CountsAttempts(middle, def.steps[i].name)
    requires e.WorkflowFailed? && middle != []
    requires var name, last := def.steps[i].name, middle[|middle| - 1];
      if name in h.registry then last.StepFailed? && last.step == name
      else last.StepStarted? && middle == before + [last]
    ensures FailsAt(h, def, middle + [e], i)
  {
    hide Encodes, OnlyTouches, CountsAttempts;
    ReplaySnoc(middle, e);
    NameNotBefore(def, i);
    FailedAlone(h, def, i, before, middle);
    assert (middle + [e])[..|middle|] == middle;
    assert |middle| > 0 && (middle + [e])[|middle| - 1] == middle[|middle| - 1];
  }

  lemma FailedAlone(h: Host, def: WorkflowDef, i: nat, before: seq<Event>, middle: seq<Event>)
    requires NoDuplicates(def.Names()) && i < |def.steps| && Encodes(def, before, i) && middle != []
    requires OnlyTouches(before, middle, def.steps[i].name) && CountsAttempts(middle, def.steps[i].name)
    requires var name, last := def.steps[i].name, middle[|middle| - 1];
      if name in h.registry then last.StepFailed? && last.step == name
      else last.StepStarted? && middle == before + [last]
    ensures var st, name, names := StateOf(middle), def.steps[i].name, def.Names()[..i];
      && st.currentStep == name && name !in st.completedSteps
      && st.completedOrder == names && st.completedSteps.Keys == (set n | n in names)
      && if name in h.registry then st.failedSteps == map[name := StepFailedError(name, middle[|middle| - 1].reason)]
         else st.failedSteps == map[]
  {
    NameNotBefore(def, i);
    OutputMapKeys(Completions(before));
    var name, last, st := def.steps[i].name, middle[|middle| - 1], StateOf(middle);
    ReplaySnoc(middle[..|middle| - 1], last);
    assert middle[..|middle| - 1] + [last] == middle;
    if name in h.registry {
      forall n | n in st.failedSteps
        ensures n == name
      {
        assert n != name ==> n in st.failedSteps - {name};
      }
    } else {
      assert middle[..|middle| - 1] == before;
    }
  }

  lemma {:induction false} HeadsEncode(h: Host, s: Sys, id: WorkflowId, def: WorkflowDef, i: nat, current: Json,
                                       depth: nat, k: nat)
    requires Fresh(h, s) && id in s.logs
    requires AllSequential(def) && NoDuplicates(def.Names()) && Encodes(def, s.logs[id], i)
    requires k < |LoopHeads(h, s, id, def, i, current, map[], depth)|
    ensures var head := LoopHeads(h, s, id, def, i, current, map[], depth)[k];
      head.index == i + k && Encodes(def, Load(head.sys, id), head.index)
    decreases k
  {
    hide ExecNode, Encodes;
    if k > 0 {
      TurnEncodes(h, s, id, def, i, current, depth);
      var (s1, result) := ExecNode(h, s, id, def, def.steps[i], current, map[], depth).value;
      var s2 := Save(s1, id, Report(h, s1, id, def.steps[i], result));
      HeadsEncode(h, s2, id, def, i + 1, result.output, depth, k - 1);
    }
  }

  lemma {:induction false} RunEncodes(h: Host, s: Sys, id: WorkflowId, def: WorkflowDef, i: nat, current: Json,
                                      depth: nat)
    requires Fresh(h, s) && id in s.logs
    requires AllSequential(def) && NoDuplicates(def.Names()) && i <= |def.steps| && Encodes(def, s.logs[id], i)
    ensures var r := RunSteps(h, s, id, def, i, current, map[], depth);
      && r.Some? && id in r.value.logs
      && var log := r.value.logs[id];
         || FinishesAll(def, log)
         || exists k :: i <= k && FailsAt(h, def, log, k)
    decreases |def.steps| - i
  {
    hide RunSteps, ExecNode, FailsAt, Encodes, FinishesAll;
    if i >= |def.steps| {
      RunEnd(h, s, id, def, i, current, map[], depth);
      EndEncodes(def, s.logs[id], WorkflowCompleted(id, current, Now(h, s)));
    } else {
      RunTurn(h, s, id, def, i, current, map[], depth);
      TurnEncodes(h, s, id, def, i, current, depth);
      var (s1, result) := ExecNode(h, s, id, def, def.steps[i], current, map[], depth).value;
      if result.Done? {
        RunEncodes(h, Save(s1, id, Report(h, s1, id, def.steps[i], result)), id, def, i + 1, result.output, depth);
      }
    }
  }

  lemma OpenedEncodes(h: Host, s: Sys, def: WorkflowDef, input: Json)
    requires Fresh(h, s)
    ensures Encodes(def, Load(Opened(h, s, def, input), h.freshId(s.ticks)), 0)
  {
    OpenedFrame(h, s, def, input);
    var log := Load(Opened(h, s, def, input), h.freshId(s.ticks));
    assert Completions(log[..0]) == [] && Completions(log) == [];
    assert ReplayFrom(None, log[..0]) == None;
    assert OutputMap(Completions(log)) == map[];
    forall n
      ensures Attempts(log, n) == 0
    {
      assert Attempts(log[..0], n) == 0;
    }
  }

  /**
   * At every loop head of a started Sequential run, replay gives the executed steps with their outputs in
   * order, the number of attempts of each, and no failed step; it ends completed with no failed step left
   * (whatever timeouts were recorded on the way), or failed at the step it names.
   */
  lemma StartEncodes(h: Host, s: Sys, def: WorkflowDef, input: Json, depth: nat)
    requires Fresh(h, s) && AllSequential(def) && NoDuplicates(def.Names())
    ensures var id := h.freshId(s.ticks);
      forall k :: 0 <= k < |LoopHeads(h, Opened(h, s, def, input), id, def, 0, input, map[], depth)| ==>
        var head := LoopHeads(h, Opened(h, s, def, input), id, def, 0, input, map[], depth)[k];
        head.index == k && Encodes(def, Load(head.sys, id), k)
    ensures var r := Start(h, s, def, input, depth);
      && r.Some?
      && var log := Load(r.value.0, r.value.1);
         || FinishesAll(def, log)
         || exists k: nat :: FailsAt(h, def, log, k)
  {
    hide RunSteps, LoopHeads, Encodes, FailsAt, FinishesAll;
    var id, s0 := h.freshId(s.ticks), Opened(h, s, def, input);
    OpenedFrame(h, s, def, input);
    OpenedEncodes(h, s, def, input);
    forall k | 0 <= k < |LoopHeads(h, s0, id, def, 0, input, map[], depth)|
      ensures var head := LoopHeads(h, s0, id, def, 0, input, map[], depth)[k];
        head.index == k && Encodes(def, Load(head.sys, id), k)
    {
      HeadsEncode(h, s0, id, def, 0, input, depth, k);
    }
    RunEncodes(h, s0, id, def, 0, input, depth);
  }
}
