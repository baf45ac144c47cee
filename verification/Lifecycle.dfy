/** The shape of every log, whatever the handlers do and wherever a crash cuts it. */
module Lifecycle {
  import opened Types
  import opened Replay
  import opened Execution

  /** Started exactly once, at position 0, and nothing after a terminal event. */
  ghost predicate OneLife(log: seq<Event>) {
    && log != []
    && log[0].WorkflowStarted?
    && (forall i :: 0 < i < |log| ==> !log[i].WorkflowStarted?)
    && (forall i :: 0 <= i < |log| - 1 ==> !log[i].Terminal())
  }

  predicate Ended(log: seq<Event>) {
    log != [] && log[|log| - 1].Terminal()
  }

  /** A log that `start_with_timeout` may have given one more failure after its terminal event. */
  ghost predicate TimedOut(log: seq<Event>) {
    && |log| >= 2
    && OneLife(log[..|log| - 1]) && Ended(log[..|log| - 1])
    && log[|log| - 1].WorkflowFailed? && log[|log| - 1].reason == "workflow timeout exceeded"
  }

  ghost predicate Lived(log: seq<Event>) {
    OneLife(log) || TimedOut(log)
  }

  lemma LivedPrefix(log: seq<Event>, k: nat)
    requires Lived(log) && 0 < k <= |log|
    ensures Lived(log[..k])
  {
    if TimedOut(log) && k < |log| {
      assert log[..k] == log[..|log| - 1][..k];
    } else if k == |log| {
      assert log[..k] == log;
    }
  }

  lemma OneLifeQuiet(before: seq<Event>, after: seq<Event>)
    requires OneLife(before) && !Ended(before) && before <= after
    requires forall k :: |before| <= k < |after| ==> after[k].Quiet()
    ensures OneLife(after) && !Ended(after)
  {
    forall i | 0 <= i < |after|
      ensures !after[i].Terminal() && (i > 0 ==> !after[i].WorkflowStarted?)
    {
      if i < |before| {
        assert after[i] == before[i];
      }
    }
  }

  lemma OneLifeSnoc(log: seq<Event>, e: Event)
    requires OneLife(log) && !Ended(log) && !e.WorkflowStarted?
    ensures OneLife(log + [e]) && (Ended(log + [e]) <==> e.Terminal())
  {
  }

  /** The logs of s' that s does not have all ran to a terminal event. */
  ghost predicate NewLogsEnded(s: Sys, s': Sys) {
    forall o :: o in s'.logs && o !in s.logs ==> OneLife(s'.logs[o]) && Ended(s'.logs[o])
  }

  lemma NewLogsTransitive(s0: Sys, s1: Sys, s2: Sys)
    requires NewLogsEnded(s0, s1) && NewLogsEnded(s1, s2)
    requires forall o :: o in s1.logs && o !in s0.logs ==> o in s2.logs && s2.logs[o] == s1.logs[o]
    ensures NewLogsEnded(s0, s2)
  {
  }

  lemma SaveAddsNoLog(s: Sys, s1: Sys, id: WorkflowId, e: Event)
    requires id in s.logs && (s1 == s || NewLogsEnded(s, s1))
    ensures NewLogsEnded(s, Save(s1, id, e))
  {
  }

  lemma {:induction false} NodeLife(h: Host, s: Sys, id: WorkflowId, def: WorkflowDef, node: StepNode, input: Json,
                                    done: map<string, Json>, depth: nat)
    requires Fresh(h, s) && id in s.logs
    ensures var r := ExecNode(h, s, id, def, node, input, done, depth);
      r.Some? ==> NewLogsEnded(s, r.value.0)
    decreases depth, 1
  {
    hide ExecLocal, RunSteps;
    if !node.kind.SubWorkflow? {
      ExecLocalFrame(h, s, id, def, node, input, done);
    } else if node.name in s.defs && depth > 0 {
      StartLife(h, s, s.defs[node.name], input, depth - 1);
    }
  }

  /** The loop turns an unfinished log into one that ends with its only terminal event. */
  lemma {:induction false} RunLife(h: Host, s: Sys, id: WorkflowId, def: WorkflowDef, i: nat, current: Json,
                                   done: map<string, Json>, depth: nat)
    requires Fresh(h, s) && id in s.logs && OneLife(s.logs[id]) && !Ended(s.logs[id])
    ensures var r := RunSteps(h, s, id, def, i, current, done, depth);
      r.Some? ==>
        && Frame(s, r.value, id)
        && OneLife(r.value.logs[id]) && Ended(r.value.logs[id])
        && NewLogsEnded(s, r.value)
    decreases depth, 2, |def.steps| - i
  {
    hide RunSteps, ExecNode, Fresh, OneLife, Ended, NewLogsEnded;
    RunStepsFrame(h, s, id, def, i, current, done, depth);
    if i >= |def.steps| {
      RunEnd(h, s, id, def, i, current, done, depth);
      SaveAddsNoLog(s, s, id, WorkflowCompleted(id, current, Now(h, s)));
      OneLifeSnoc(s.logs[id], WorkflowCompleted(id, current, Now(h, s)));
    } else if def.steps[i].name in done {
      RunSkip(h, s, id, def, i, current, done, depth);
      RunLife(h, s, id, def, i + 1, done[def.steps[i].name], done, depth);
    } else {
      RunTurn(h, s, id, def, i, current, done, depth);
      var turn := ExecNode(h, s, id, def, def.steps[i], current, done, depth);
      if turn.Some? {
        var (s1, result) := turn.value;
        var e := Report(h, s1, id, def.steps[i], result);
        var s2 := Save(s1, id, e);
        NodeLife(h, s, id, def, def.steps[i], current, done, depth);
        SaveAddsNoLog(s, s1, id, e);
        NodeStored(h, s, id, def, def.steps[i], current, done, depth, e);
        OneLifeQuiet(s.logs[id], s1.logs[id]);
        OneLifeSnoc(s1.logs[id], e);
        if result.Done? {
          RunLife(h, s2, id, def, i + 1, result.output, done, depth);
          var run := RunSteps(h, s2, id, def, i + 1, result.output, done, depth);
          if run.Some? {
            RunStepsFrame(h, s2, id, def, i + 1, result.output, done, depth);
            NewLogsTransitive(s, s2, run.value);
          }
        }
      }
    }
  }

  lemma {:induction false} StartLife(h: Host, s: Sys, def: WorkflowDef, input: Json, depth: nat)
    requires Fresh(h, s)
    ensures var r := Start(h, s, def, input, depth);
      r.Some? ==> NewLogsEnded(s, r.value.0)
    decreases depth, 3
  {
    var id := h.freshId(s.ticks);
    OpenedFrame(h, s, def, input);
    RunLife(h, Opened(h, s, def, input), id, def, 0, input, map[], depth);
  }

  // ---------------------------------------------------------------------------------------------
  // Every reachable state of the store
  // ---------------------------------------------------------------------------------------------

  /**
   * What can happen to the store. Each operation brings its own host, so handlers, signals and the
   * clock may change between operations; a resume may be given any definition.
   */
  datatype Op =
    | Begin(def: WorkflowDef, input: Json)
    | BeginTimed(def: WorkflowDef, input: Json, limitMs: int, elapsedMs: int)
    | Continue(id: WorkflowId, def: WorkflowDef)
    | Crash(survivor: Sys)

  /** A crash loses a suffix of any logs, and everything held in memory. */
  ghost predicate Survives(s: Sys, s': Sys) {
    forall o :: o in s'.logs ==> o in s.logs && s'.logs[o] != [] && s'.logs[o] <= s.logs[o]
  }

  ghost predicate Moves(h: Host, depth: nat, s: Sys, op: Op, s': Sys) {
    && Fresh(h, s)
    && match op
       case Begin(def, input) =>
         var r := Start(h, s, def, input, depth);
         r.Some? && s' == r.value.0
       case BeginTimed(def, input, limitMs, elapsedMs) =>
         var r := StartWithTimeout(h, s, def, input, limitMs, elapsedMs, depth);
         r.Some? && s' == r.value.0
       case Continue(id, def) =>
         var r := Resume(h, s, id, def, depth);
         r.Some? && s' == r.value.0
       case Crash(survivor) => s' == survivor && Survives(s, s')
  }

  ghost predicate Next(s: Sys, s': Sys) {
    exists h: Host, depth: nat, op: Op :: Moves(h, depth, s, op, s')
  }

  /** A run of the whole system from an empty store. */
  ghost predicate Behaviour(trace: seq<Sys>) {
    && trace != []
    && trace[0].logs == map[]
    && forall i :: 0 <= i < |trace| - 1 ==> Next(trace[i], trace[i + 1])
  }

  ghost predicate AllLived(s: Sys) {
    forall o :: o in s.logs ==> Lived(s.logs[o])
  }

  lemma ResumeRunsOpenLog(log: seq<Event>, id: WorkflowId)
    requires Lived(log)
    ensures ResumeVerdict(log, id).None? <==> !Ended(log)
  {
    ReplayStatus(log);
  }

  lemma BeginPreserves(h: Host, depth: nat, s: Sys, def: WorkflowDef, input: Json)
    requires AllLived(s) && Fresh(h, s)
    ensures var r := Start(h, s, def, input, depth);
      r.Some? ==>
        && AllLived(r.value.0)
        && r.value.1 in r.value.0.logs && OneLife(r.value.0.logs[r.value.1]) && Ended(r.value.0.logs[r.value.1])
  {
    hide Start;
    StartFrame(h, s, def, input, depth);
    StartLife(h, s, def, input, depth);
  }

  lemma BeginTimedPreserves(h: Host, depth: nat, s: Sys, def: WorkflowDef, input: Json, limitMs: int, elapsedMs: int)
    requires AllLived(s) && Fresh(h, s)
    ensures var r := StartWithTimeout(h, s, def, input, limitMs, elapsedMs, depth);
      r.Some? ==> AllLived(r.value.0)
  {
    hide Start;
    BeginPreserves(h, depth, s, def, input);
    if Start(h, s, def, input, depth).Some? {
      var (s1, id) := Start(h, s, def, input, depth).value;
      var log, e := s1.logs[id], WorkflowFailed(id, "workflow timeout exceeded", Now(h, s1));
      assert (log + [e])[..|log|] == log;
      assert TimedOut(log + [e]);
    }
  }

  lemma ContinuePreserves(h: Host, depth: nat, s: Sys, id: WorkflowId, def: WorkflowDef)
    requires AllLived(s) && Fresh(h, s)
    ensures var r := Resume(h, s, id, def, depth);
      r.Some? ==> AllLived(r.value.0)
  {
    hide RunSteps;
    var log := Load(s, id);
    if id in s.logs {
      ResumeRunsOpenLog(log, id);
      if !Ended(log) {
        assert OneLife(log);
        var s0 := s.(defs := s.defs[id := def]);
        assert Fresh(h, s0);
        RunLife(h, s0, id, def, 0, LastOutput(log), StateOf(log).completedSteps, depth);
      }
    }
  }

  lemma MovePreserves(h: Host, depth: nat, s: Sys, op: Op, s': Sys)
    requires AllLived(s) && Moves(h, depth, s, op, s')
    ensures AllLived(s')
  {
    hide Start, StartWithTimeout, Resume, Lived;
    match op
    case Begin(def, input) => BeginPreserves(h, depth, s, def, input);
    case BeginTimed(def, input, limitMs, elapsedMs) => BeginTimedPreserves(h, depth, s, def, input, limitMs, elapsedMs);
    case Continue(id, def) => ContinuePreserves(h, depth, s, id, def);
    case Crash(survivor) =>
      forall o | o in s'.logs
        ensures Lived(s'.logs[o])
      {
        LivedPrefix(s.logs[o], |s'.logs[o]|);
        assert s.logs[o][..|s'.logs[o]|] == s'.logs[o];
      }
  }

  /** In every reachable state every log has one start, one life, and at most the trailing timeout failure. */
  lemma {:induction false} ReachableLogsLived(trace: seq<Sys>)
    requires Behaviour(trace)
    ensures AllLived(trace[|trace| - 1])
  {
    if |trace| > 1 {
      var n := |trace| - 1;
      var before := trace[..n];
      forall i | 0 <= i < n - 1
        ensures Next(before[i], before[i + 1])
      {
        assert Next(trace[i], trace[i + 1]);
      }
      ReachableLogsLived(before);
      assert Next(trace[n - 1], trace[n - 1 + 1]);
      var h: Host, depth: nat, op: Op :| Moves(h, depth, trace[n - 1], op, trace[n]);
      MovePreserves(h, depth, trace[n - 1], op, trace[n]);
    }
  }

  // ---------------------------------------------------------------------------------------------
  // What a resume answers
  // ---------------------------------------------------------------------------------------------

  /**
   * What a resume answers, decided by the last event of any log the engine can leave: an unknown workflow is
   * not found, a completed one is fine as it is, a failed one is refused with the step that began last, and
   * only any other one is taken up, which succeeds however its run ends.
   */
  lemma ResumeAnswers(h: Host, s: Sys, id: WorkflowId, def: WorkflowDef, depth: nat)
    ensures var r := Resume(h, s, id, def, depth);
      && (id !in s.logs ==> r == Some((s, Err(WorkflowNotFound(id)))))
      && (id in s.logs && Lived(s.logs[id]) ==>
            var log := s.logs[id];
            var last := log[|log| - 1];
            && (last.WorkflowCompleted? ==> r == Some((s, Ok(()))))
            && (last.WorkflowFailed? ==>
                  r == Some((s, Err(StepFailedError(NewestBegun(log), "workflow previously failed")))))
            && (!last.Terminal() && r.Some? ==> r.value.1 == Ok(())))
  {
    hide RunSteps;
    if id in s.logs && Lived(s.logs[id]) {
      ReplayStatus(s.logs[id]);
      ReplayCurrent(s.logs[id]);
    }
  }

  /** A resume that takes up the work stores the definition it was given, and brings the log to an end. */
  lemma ResumeTakesUp(h: Host, s: Sys, id: WorkflowId, def: WorkflowDef, depth: nat)
    requires Fresh(h, s) && id in s.logs && Lived(s.logs[id]) && !Ended(s.logs[id])
    requires Resume(h, s, id, def, depth).Some?
    ensures var s' := Resume(h, s, id, def, depth).value.0;
      && id in s'.defs && s'.defs[id] == def
      && id in s'.logs && s.logs[id] <= s'.logs[id] && OneLife(s'.logs[id]) && Ended(s'.logs[id])
  {
    hide RunSteps;
    var log, s0 := s.logs[id], s.(defs := s.defs[id := def]);
    var value, done := LastOutput(log), StateOf(log).completedSteps;
    ResumeRunsOpenLog(log, id);
    RunKeepsDefs(h, s0, id, def, 0, value, done, depth, id);
    RunLife(h, s0, id, def, 0, value, done, depth);
    RunStepsFrame(h, s0, id, def, 0, value, done, depth);
  }

  // ---------------------------------------------------------------------------------------------
  // Signals
  // ---------------------------------------------------------------------------------------------

  lemma {:induction false} UnsignalledRunFails(h: Host, s: Sys, id: WorkflowId, def: WorkflowDef, i: nat, current: Json,
                                               depth: nat, j: nat)
    requires Fresh(h, s) && id in s.logs && id !in h.signals
    requires i <= j < |def.steps| && def.steps[j].kind.Signal?
    ensures var r := RunSteps(h, s, id, def, i, current, map[], depth);
      r.Some? ==>
        && id in r.value.logs && r.value.logs[id] != []
        && r.value.logs[id][|r.value.logs[id]| - 1].WorkflowFailed?
    decreases |def.steps| - i
  {
    hide RunSteps, ExecNode;
    RunTurn(h, s, id, def, i, current, map[], depth);
    var turn := ExecNode(h, s, id, def, def.steps[i], current, map[], depth);
    if turn.Some? {
      var (s1, result) := turn.value;
      var e := Report(h, s1, id, def.steps[i], result);
      NodeStored(h, s, id, def, def.steps[i], current, map[], depth, e);
      SignalBreaks(h, s, id, def, def.steps[i], current, depth);
      if result.Done? {
        UnsignalledRunFails(h, Save(s1, id, e), id, def, i + 1, result.output, depth, j);
      }
    }
  }

  lemma SignalBreaks(h: Host, s: Sys, id: WorkflowId, def: WorkflowDef, node: StepNode, input: Json, depth: nat)
    requires id !in h.signals
    ensures node.kind.Signal? ==>
              ExecNode(h, s, id, def, node, input, map[], depth) ==
              Some((s, Broke("Waiting for signal: " + node.kind.signal)))
  {
  }

  /**
   * Waiting for a signal does not work out: nobody can have signalled a workflow before `start` has made up
   * its id, so a started definition with a Signal step never completes, and once it has failed no resume,
   * with whatever signals, handlers or definition, changes anything.
   */
  lemma WaitingCannotBeResumed(h: Host, s: Sys, def: WorkflowDef, input: Json, depth: nat, j: nat, h': Host,
                               def': WorkflowDef, depth': nat)
    requires Fresh(h, s) && h.freshId(s.ticks) !in h.signals
    requires j < |def.steps| && def.steps[j].kind.Signal?
    requires Start(h, s, def, input, depth).Some?
    ensures var (s', id) := Start(h, s, def, input, depth).value;
      && Load(s', id) != [] && StateOf(Load(s', id)).status == Failed
      && exists error :: Resume(h', s', id, def', depth') == Some((s', Err(error)))
  {
    hide RunSteps;
    OpenedFrame(h, s, def, input);
    var id, s0 := h.freshId(s.ticks), Opened(h, s, def, input);
    UnsignalledRunFails(h, s0, id, def, 0, input, depth, j);
    RunLife(h, s0, id, def, 0, input, map[], depth);
    ReplayStatus(Start(h, s, def, input, depth).value.0.logs[id]);
  }
}
