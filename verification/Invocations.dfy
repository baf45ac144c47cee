/** Which handlers run, how often and on what input: attempts, parallel groups and batches. */
module Invocations {
  import opened Types
  import opened Replay
  import opened Execution
  import opened Lifecycle
  import opened Progress
  import opened Interpreter

  // ---------------------------------------------------------------------------------------------
  // Calls and the log
  // ---------------------------------------------------------------------------------------------

  /** The attempts a log says were begun, at steps that have a handler. */
  function Begun(h: Host, log: seq<Event>): seq<(string, int)> {
    if log == [] then []
    else
      var e := log[|log| - 1];
      Begun(h, log[..|log| - 1]) + if e.StepStarted? && e.step in h.registry then [(e.step, e.attempt)] else []
  }

  function Pairs(calls: seq<Call>): (r: seq<(string, int)>)
    ensures |r| == |calls|
    ensures forall i :: 0 <= i < |calls| ==> r[i] == (calls[i].step, calls[i].attempt)
  {
    seq(|calls|, i requires 0 <= i < |calls| => (calls[i].step, calls[i].attempt))
  }

  lemma BegunSnoc(h: Host, log: seq<Event>, e: Event, from: nat)
    requires from <= |log|
    ensures Begun(h, (log + [e])[from..]) ==
            Begun(h, log[from..]) + if e.StepStarted? && e.step in h.registry then [(e.step, e.attempt)] else []
  {
    assert (log + [e])[from..] == log[from..] + [e];
    assert (log[from..] + [e])[..|log| - from] == log[from..];
  }

  /** The calls are those made before, then one per attempt begun from position `from` of the log on. */
  ghost predicate Matches(h: Host, s: Sys, id: WorkflowId, before: seq<(string, int)>, from: nat) {
    id in s.logs && from <= |s.logs[id]| && Pairs(s.calls) == before + Begun(h, s.logs[id][from..])
  }

  lemma SaveMatches(h: Host, s: Sys, id: WorkflowId, e: Event, before: seq<(string, int)>, from: nat)
    requires Matches(h, s, id, before, from) && !(e.StepStarted? && e.step in h.registry)
    ensures Matches(h, Save(s, id, e), id, before, from)
  {
    BegunSnoc(h, s.logs[id], e, from);
  }

  lemma AttemptMatches(h: Host, s: Sys, id: WorkflowId, node: StepNode, input: Json, attempt: int,
                       before: seq<(string, int)>, from: nat)
    requires Matches(h, s, id, before, from) && node.name in h.registry
    ensures var s1 := Save(s, id, StepStarted(id, node.name, attempt, Now(h, s)));
      Matches(h, Attempt(h, s1, id, node, input, attempt).0, id, before, from)
  {
    var e := StepStarted(id, node.name, attempt, Now(h, s));
    var s1 := Save(s, id, e);
    BegunSnoc(h, s.logs[id], e, from);
    var (s2, outcome) := Invoke(h, s1, node.name, input, attempt);
    assert Pairs(s2.calls) == Pairs(s.calls) + [(node.name, attempt)];
    assert Pairs(s2.calls) == before + (Begun(h, s.logs[id][from..]) + [(node.name, attempt)]);
    assert Matches(h, s2, id, before, from);
    if node.config.timeoutMs > 0 && outcome.elapsedMs > node.config.timeoutMs {
      BegunSnoc(h, s2.logs[id], StepFailed(id, node.name, "timeout exceeded", 1, Now(h, s2)), from);
    }
  }

  lemma {:induction false} StepMatches(h: Host, s: Sys, id: WorkflowId, node: StepNode, input: Json, attempt: int,
                                       before: seq<(string, int)>, from: nat)
    requires Matches(h, s, id, before, from)
    ensures Matches(h, ExecStep(h, s, id, node, input, attempt).0, id, before, from)
    decreases node.config.maxRetry - attempt
  {
    hide Attempt, Matches;
    var started := StepStarted(id, node.name, attempt, Now(h, s));
    var s1 := Save(s, id, started);
    if node.name !in h.registry {
      SaveMatches(h, s, id, started, before, from);
    } else {
      AttemptMatches(h, s, id, node, input, attempt, before, from);
      var (s2, result) := Attempt(h, s1, id, node, input, attempt);
      if result.Err? {
        var e := if attempt < node.config.maxRetry
                 then StepRetrying(id, node.name, attempt + 1, node.config.retryDelayMs, Now(h, s2))
                 else StepFailed(id, node.name, h.show(result.error), attempt, Now(h, s2));
        SaveMatches(h, s2, id, e, before, from);
        if attempt < node.config.maxRetry {
          StepMatches(h, Save(s2, id, e), id, node, input, attempt + 1, before, from);
        }
      }
    }
  }

  lemma {:induction false} GroupMatches(h: Host, s: Sys, id: WorkflowId, def: WorkflowDef, children: seq<string>,
                                        input: Json, done: map<string, Json>, merged: map<string, Json>,
                                        before: seq<(string, int)>, from: nat)
    requires Matches(h, s, id, before, from)
    ensures Matches(h, ExecGroup(h, s, id, def, children, input, done, merged).0, id, before, from)
    decreases |children|
  {
    if children != [] {
      hide ExecStep, Matches;
      var child := children[0];
      if child in done {
        GroupMatches(h, s, id, def, children[1..], input, done, merged[child := done[child]], before, from);
      } else if FindStep(def.steps, child).Some? {
        var node := FindStep(def.steps, child).value;
        StepMatches(h, s, id, node, input, 1, before, from);
        var (s1, result) := ExecStep(h, s, id, node, input, 1);
        if result.Ok? {
          GroupMatches(h, s1, id, def, children[1..], input, done, merged[child := result.value], before, from);
        }
      }
    }
  }

  lemma LocalMatches(h: Host, s: Sys, id: WorkflowId, def: WorkflowDef, node: StepNode, input: Json,
                     done: map<string, Json>, before: seq<(string, int)>, from: nat)
    requires Matches(h, s, id, before, from) && !node.kind.SubWorkflow?
    ensures Matches(h, ExecLocal(h, s, id, def, node, input, done).0, id, before, from)
  {
    hide ExecStep, ExecGroup, Matches;
    match node.kind
    case Sequential => StepMatches(h, s, id, node, input, 1, before, from);
    case Parallel(children) => GroupMatches(h, s, id, def, children, input, done, map[], before, from);
    case Conditional(c, t, f) =>
      StepMatches(h, s, id, BranchNode(c), input, 1, before, from);
      var (s1, cond) := if c in done then (s, Ok(Null)) else ExecStep(h, s, id, BranchNode(c), input, 1);
      StepMatches(h, s1, id, BranchNode(if cond.Ok? then t else f), input, 1, before, from);
    case Signal(_) =>
  }

  predicate NoSubWorkflows(def: WorkflowDef) {
    forall i :: 0 <= i < |def.steps| ==> !def.steps[i].kind.SubWorkflow?
  }

  /** Without sub-workflows, a run calls exactly the handlers whose attempts it logs, in that order. */
  lemma {:induction false} RunMatches(h: Host, s: Sys, id: WorkflowId, def: WorkflowDef, i: nat, current: Json,
                                      done: map<string, Json>, depth: nat, before: seq<(string, int)>, from: nat)
    requires NoSubWorkflows(def) && Matches(h, s, id, before, from)
    ensures var r := RunSteps(h, s, id, def, i, current, done, depth);
      r.Some? && Matches(h, r.value, id, before, from)
    decreases |def.steps| - i
  {
    hide RunSteps, ExecLocal, Matches;
    if i >= |def.steps| {
      RunEnd(h, s, id, def, i, current, done, depth);
      SaveMatches(h, s, id, WorkflowCompleted(id, current, Now(h, s)), before, from);
    } else if def.steps[i].name in done {
      RunSkip(h, s, id, def, i, current, done, depth);
      RunMatches(h, s, id, def, i + 1, done[def.steps[i].name], done, depth, before, from);
    } else {
      RunTurn(h, s, id, def, i, current, done, depth);
      LocalMatches(h, s, id, def, def.steps[i], current, done, before, from);
      var (s1, result) := ExecNode(h, s, id, def, def.steps[i], current, done, depth).value;
      var e := Report(h, s1, id, def.steps[i], result);
      SaveMatches(h, s1, id, e, before, from);
      if result.Done? {
        RunMatches(h, Save(s1, id, e), id, def, i + 1, result.output, done, depth, before, from);
      }
    }
  }

  lemma {:induction false} BegunAt(h: Host, events: seq<Event>, k: nat) returns (j: nat)
    requires k < |Begun(h, events)|
    ensures j < |events| && events[j].StepStarted? && events[j].step == Begun(h, events)[k].0
  {
    var n := |events| - 1;
    if k < |Begun(h, events[..n])| {
      j := BegunAt(h, events[..n], k);
    } else {
      j := n;
    }
  }

  /** A resume calls no handler of a step whose completion is already stored. */
  lemma ResumeCallsNoDoneStep(h: Host, s: Sys, id: WorkflowId, def: WorkflowDef, depth: nat)
    requires NoSubWorkflows(def) && Independent(def) && Fresh(h, s)
    requires id in s.logs && Tracks(def, s.logs[id]) && NoRerun(s.logs[id])
    ensures var r := Resume(h, s, id, def, depth);
      && r.Some?
      && |s.calls| <= |r.value.0.calls|
      && forall k :: |s.calls| <= k < |r.value.0.calls| ==> r.value.0.calls[k].step !in DoneNames(s.logs[id])
  {
    hide RunSteps, Stops;
    var log := s.logs[id];
    ResumeRunsOpenLog(log, id);
    if !Ended(log) {
      var s0 := s.(defs := s.defs[id := def]);
      var value, done, before, from := LastOutput(log), StateOf(log).completedSteps, Pairs(s.calls), |log|;
      assert log[from..] == [];
      RunMatches(h, s0, id, def, 0, value, done, depth, before, from);
      DistinctNames(def);
      ResumeTracks(h, s, id, def, |def.steps|, depth);
      var s' := Resume(h, s, id, def, depth).value.0;
      NewCallsAreNew(h, s', id, log, before);
    }
  }

  /** Over every history of crashes and resumes: no resume calls a handler whose completion the crash has left. */
  lemma HistoryCallsNoDoneStep(h: Host, s: Sys, def: WorkflowDef, input: Json, depth: nat, recoveries: seq<Recovery>,
                               i: nat)
    requires Fresh(h, s) && NoSubWorkflows(def) && Independent(def) && i < |recoveries|
    requires Start(h, s, def, input, depth).Some?
    requires var (first, id) := Start(h, s, def, input, depth).value; History(first, id, def, recoveries)
    ensures var (first, id) := Start(h, s, def, input, depth).value;
      var crashed, resumed := recoveries[i].crashed, recoveries[i].resumed;
      && id in crashed.logs && |crashed.calls| <= |resumed.calls|
      && forall k :: |crashed.calls| <= k < |resumed.calls| ==> resumed.calls[k].step !in DoneNames(crashed.logs[id])
  {
    hide Start, Resume, Stops;
    var (first, id) := Start(h, s, def, input, depth).value;
    var recovery, before := recoveries[i], recoveries[..i];
    HistoryPrefix(first, id, def, recoveries, i + 1);
    assert recoveries[..i + 1][..i] == before;
    DistinctNames(def);
    StartTracks(h, s, def, |def.steps|, input, depth);
    HistoryTracks(first, id, def, |def.steps|, before);
    var log, cut := Latest(first, before).logs[id], recovery.crashed.logs[id];
    assert log[..|cut|] == cut;
    TracksPrefix(def, log, |cut|);
    ResumeCallsNoDoneStep(recovery.host, recovery.crashed, id, def, recovery.depth);
  }

  lemma NewCallsAreNew(h: Host, s: Sys, id: WorkflowId, log: seq<Event>, before: seq<(string, int)>)
    requires Matches(h, s, id, before, |log|) && log <= s.logs[id] && NoRerun(s.logs[id])
    ensures |before| <= |s.calls|
    ensures forall k :: |before| <= k < |s.calls| ==> s.calls[k].step !in DoneNames(log)
  {
    var after := s.logs[id];
    var added := after[|log|..];
    forall k | |before| <= k < |s.calls|
      ensures s.calls[k].step !in DoneNames(log)
    {
      assert Pairs(s.calls)[k] == Begun(h, added)[k - |before|];
      var j := BegunAt(h, added, k - |before|);
      assert after[|log| + j] == added[j];
      assert after[..|log| + j][..|log|] == log;
      DoneNamesPrefix(after[..|log| + j], |log|);
    }
  }

  // ---------------------------------------------------------------------------------------------
  // Attempts
  // ---------------------------------------------------------------------------------------------

  /** The handler fails, or overruns the step's timeout, whenever it is called. */
  ghost predicate KeepsFailing(h: Host, node: StepNode) {
    && node.name in h.registry
    && forall calls, input, attempt ::
         var outcome := h.registry[node.name](calls, input, attempt);
         outcome.result.Err? || (node.config.timeoutMs > 0 && outcome.elapsedMs > node.config.timeoutMs)
  }

  function Max(a: int, b: int): int {
    if a > b then a else b
  }

  /** A step that keeps failing is attempted max(1, maxRetry) times, and says so. */
  lemma {:induction false} FailingStepAttempts(h: Host, s: Sys, id: WorkflowId, node: StepNode, input: Json,
                                               attempt: int)
    requires KeepsFailing(h, node)
    ensures var (s', result) := ExecStep(h, s, id, node, input, attempt);
      && |s'.calls| == |s.calls| + Max(1, node.config.maxRetry - attempt + 1)
      && result == Err(StepMaxRetriesExceeded(node.name, Max(attempt, node.config.maxRetry)))
    decreases node.config.maxRetry - attempt
  {
    var s1 := Save(s, id, StepStarted(id, node.name, attempt, Now(h, s)));
    var (s2, result) := Attempt(h, s1, id, node, input, attempt);
    if attempt < node.config.maxRetry {
      var e := StepRetrying(id, node.name, attempt + 1, node.config.retryDelayMs, Now(h, s2));
      FailingStepAttempts(h, Save(s2, id, e), id, node, input, attempt + 1);
    }
  }

  /** Every attempt is answered by this error, in this time. */
  ghost predicate AlwaysAnswers(h: Host, name: string, error: WorkflowError, elapsedMs: int) {
    name in h.registry
    && forall calls, input, attempt :: h.registry[name](calls, input, attempt) == Outcome(Err(error), elapsedMs)
  }

  /** The attempt overran the step's limit. */
  predicate Overran(node: StepNode, elapsedMs: int) {
    node.config.timeoutMs > 0 && elapsedMs > node.config.timeoutMs
  }

  /**
   * The k-th event that `count` failing attempts leave, the first of which is numbered `attempt`: each attempt
   * leaves its start, the timeout if it overran, and the announcement of the next one with the step's delay,
   * or, after the last, the failure with the message of the last error.
   */
  function FailureEvent(h: Host, id: WorkflowId, node: StepNode, error: WorkflowError, over: bool, attempt: int,
                        ticks: nat, count: int, k: nat): Event
  {
    var stride := if over then 3 else 2;
    var number, at := attempt + k / stride, h.clock(ticks + k);
    if k % stride == 0 then StepStarted(id, node.name, number, at)
    else if over && k % stride == 1 then StepFailed(id, node.name, "timeout exceeded", 1, at)
    else if k / stride < count - 1 then StepRetrying(id, node.name, number + 1, node.config.retryDelayMs, at)
    else
      var last := if over then StepTimeout(node.name, node.config.timeoutMs) else error;
      StepFailed(id, node.name, h.show(last), number, at)
  }

  /** The log has grown by exactly those events, of max(1, maxRetry - attempt + 1) attempts. */
  ghost predicate FailureLog(h: Host, before: seq<Event>, ticks: nat, after: seq<Event>, id: WorkflowId, node: StepNode,
                             attempt: int, error: WorkflowError, over: bool) {
    var count := Max(1, node.config.maxRetry - attempt + 1);
    && before <= after && |after| == |before| + (if over then 3 * count else 2 * count)
    && forall k :: 0 <= k < |after| - |before| ==>
         after[|before| + k] == FailureEvent(h, id, node, error, over, attempt, ticks, count, k)
  }

  lemma {:induction false} FailingStepLog(h: Host, s: Sys, id: WorkflowId, node: StepNode, input: Json, attempt: int,
                                          error: WorkflowError, elapsedMs: int)
    requires AlwaysAnswers(h, node.name, error, elapsedMs) && id in s.logs
    ensures var s' := ExecStep(h, s, id, node, input, attempt).0;
      && id in s'.logs
      && FailureLog(h, s.logs[id], s.ticks, s'.logs[id], id, node, attempt, error, Overran(node, elapsedMs))
    decreases node.config.maxRetry - attempt
  {
    hide ExecStep, FailureLog;
    StepTurn(h, s, id, node, input, attempt);
    var name, over := node.name, Overran(node, elapsedMs);
    var started := StepStarted(id, name, attempt, Now(h, s));
    var s1 := Save(s, id, started);
    var (s2, result) := Attempt(h, s1, id, node, input, attempt);
    var timeout := if over then [StepFailed(id, name, "timeout exceeded", 1, h.clock(s.ticks + 1))] else [];
    assert s2.logs[id] == s.logs[id] + [started] + timeout;
    assert s2.ticks == s.ticks + 1 + |timeout|;
    if attempt < node.config.maxRetry {
      var e := StepRetrying(id, name, attempt + 1, node.config.retryDelayMs, Now(h, s2));
      var s3 := Save(s2, id, e);
      FailingStepLog(h, s3, id, node, input, attempt + 1, error, elapsedMs);
      var after := ExecStep(h, s3, id, node, input, attempt + 1).0.logs[id];
      FailureLogCons(h, s.logs[id], s.ticks, s3.logs[id], after, id, node, attempt, error, over);
    } else {
      var e := StepFailed(id, name, h.show(result.error), attempt, Now(h, s2));
      FailureLogLast(h, s.logs[id], s.ticks, s2.logs[id] + [e], id, node, attempt, error, over);
    }
  }

  lemma FailureLogLast(h: Host, before: seq<Event>, ticks: nat, after: seq<Event>, id: WorkflowId, node: StepNode,
                       attempt: int, error: WorkflowError, over: bool)
    requires attempt >= node.config.maxRetry
    requires var last := if over then StepTimeout(node.name, node.config.timeoutMs) else error;
      after == before + [StepStarted(id, node.name, attempt, h.clock(ticks))]
               + (if over then [StepFailed(id, node.name, "timeout exceeded", 1, h.clock(ticks + 1))] else [])
               + [StepFailed(id, node.name, h.show(last), attempt, h.clock(ticks + if over then 2 else 1))]
    ensures FailureLog(h, before, ticks, after, id, node, attempt, error, over)
  {
  }

  lemma FailureLogCons(h: Host, before: seq<Event>, ticks: nat, middle: seq<Event>, after: seq<Event>, id: WorkflowId,
                       node: StepNode, attempt: int, error: WorkflowError, over: bool)
    requires attempt < node.config.maxRetry
    requires middle == before + [StepStarted(id, node.name, attempt, h.clock(ticks))]
                       + (if over then [StepFailed(id, node.name, "timeout exceeded", 1, h.clock(ticks + 1))] else [])
                       + [StepRetrying(id, node.name, attempt + 1, node.config.retryDelayMs,
                                       h.clock(ticks + if over then 2 else 1))]
    requires FailureLog(h, middle, ticks + (if over then 3 else 2), after, id, node, attempt + 1, error, over)
    ensures FailureLog(h, before, ticks, after, id, node, attempt, error, over)
  {
    hide FailureEvent;
    var count, stride := Max(1, node.config.maxRetry - attempt + 1), if over then 3 else 2;
    forall k | 0 <= k < |after| - |before|
      ensures after[|before| + k] == FailureEvent(h, id, node, error, over, attempt, ticks, count, k)
    {
      if k < stride {
        FailureStart(h, id, node, error, over, attempt, ticks, count, k);
      } else {
        FailureShift(h, id, node, error, over, attempt, ticks, count, k);
        assert after[|before| + k] == after[|middle| + (k - stride)];
      }
    }
  }

  lemma FailureStart(h: Host, id: WorkflowId, node: StepNode, error: WorkflowError, over: bool, attempt: int,
                     ticks: nat, count: int, k: nat)
    requires count > 1 && k < if over then 3 else 2
    ensures FailureEvent(h, id, node, error, over, attempt, ticks, count, k) ==
            if k == 0 then StepStarted(id, node.name, attempt, h.clock(ticks))
            else if over && k == 1 then StepFailed(id, node.name, "timeout exceeded", 1, h.clock(ticks + 1))
            else StepRetrying(id, node.name, attempt + 1, node.config.retryDelayMs, h.clock(ticks + k))
  {
  }

  lemma FailureShift(h: Host, id: WorkflowId, node: StepNode, error: WorkflowError, over: bool, attempt: int,
                     ticks: nat, count: int, k: nat)
    requires k >= if over then 3 else 2
    ensures var stride := if over then 3 else 2;
      FailureEvent(h, id, node, error, over, attempt + 1, ticks + stride, count - 1, k - stride) ==
      FailureEvent(h, id, node, error, over, attempt, ticks, count, k)
  {
    var stride := if over then 3 else 2;
    assert (k - stride) / stride == k / stride - 1 && (k - stride) % stride == k % stride;
  }

  // ---------------------------------------------------------------------------------------------
  // Branches
  // ---------------------------------------------------------------------------------------------

  /**
   * One call of the handler, within half a minute, no retry: the calls made after it, and its answer. A branch
   * carries out its condition and its target in this way, whatever the steps of these names are configured to.
   */
  function CalledOnce(h: Host, calls: seq<Call>, name: string, input: Json): (seq<Call>, Result<Json>) {
    if name !in h.registry then (calls, Err(StepFailedError(name, "no handler registered")))
    else
      var outcome := h.registry[name](calls, input, 1);
      (calls + [Call(name, input, 1)],
       if outcome.result.Ok? && outcome.elapsedMs <= 30000 then outcome.result
       else Err(StepMaxRetriesExceeded(name, 1)))
  }

  lemma BranchCalledOnce(h: Host, s: Sys, id: WorkflowId, name: string, input: Json)
    ensures var (s', r) := ExecStep(h, s, id, BranchNode(name), input, 1);
      (s'.calls, r) == CalledOnce(h, s.calls, name, input)
  {
  }

  /**
   * With the condition's output stored, a branch goes the true way, whatever that output is and wherever the
   * false way would lead; a target with a stored output is not run again.
   */
  lemma StoredCondition(h: Host, s: Sys, id: WorkflowId, c: string, t: string, f: string, f': string, input: Json,
                        done: map<string, Json>)
    requires c in done
    ensures var (s', r) := ExecConditional(h, s, id, c, t, f, input, done);
      && ExecConditional(h, s, id, c, t, f', input, done) == (s', r)
      && (t in done ==> s' == s && r == Ok(done[t]))
      && (t !in done ==> (s'.calls, r) == CalledOnce(h, s.calls, t, input))
  {
    hide ExecStep;
    if t !in done {
      BranchCalledOnce(h, s, id, t, input);
    }
  }

  /**
   * Otherwise the condition is called once, and the branch goes the true way exactly if that call succeeds in
   * time; then the target is called once, unless it has a stored output, which is the outcome.
   */
  lemma UnstoredCondition(h: Host, s: Sys, id: WorkflowId, c: string, t: string, f: string, input: Json,
                          done: map<string, Json>)
    requires c !in done
    ensures var (s', r) := ExecConditional(h, s, id, c, t, f, input, done);
      var (calls, cond) := CalledOnce(h, s.calls, c, input);
      var target := if cond.Ok? then t else f;
      (s'.calls, r) == if target in done then (calls, Ok(done[target])) else CalledOnce(h, calls, target, input)
  {
    hide ExecStep, CalledOnce;
    BranchCalledOnce(h, s, id, c, input);
    var (s1, cond) := ExecStep(h, s, id, BranchNode(c), input, 1);
    BranchCalledOnce(h, s1, id, if cond.Ok? then t else f, input);
  }

  // ---------------------------------------------------------------------------------------------
  // Parallel groups
  // ---------------------------------------------------------------------------------------------

  function ChildResult(p: Program, def: WorkflowDef, child: string, input: Json): Result<Json> {
    match FindStep(def.steps, child)
    case None => Err(StepFailedError(child, "child step not found"))
    case Some(node) => EvalStep(p, node, input, 1)
  }

  /** Every child's output on the group's own input, under the child's name. */
  function GroupOutputs(p: Program, def: WorkflowDef, children: set<string>, input: Json): map<string, Json>
    requires forall c :: c in children ==> ChildResult(p, def, c, input).Ok?
  {
    map c | c in children :: ChildResult(p, def, c, input).value
  }

  /** A group whose children all succeed succeeds with exactly their outputs. */
  lemma {:induction false} GroupSucceeds(p: Program, def: WorkflowDef, children: seq<string>, input: Json,
                                         merged: map<string, Json>)
    requires forall c :: c in children ==> ChildResult(p, def, c, input).Ok?
    ensures EvalGroup(p, def, children, input, merged) ==
            Ok(Object(merged + GroupOutputs(p, def, (set c | c in children), input)))
    decreases |children|
  {
    hide EvalStep;
    if children == [] {
      assert merged + GroupOutputs(p, def, (set c | c in children), input) == merged;
    } else {
      var child, rest := children[0], children[1..];
      var result := ChildResult(p, def, child, input);
      var merged' := merged[child := result.value];
      GroupSucceeds(p, def, rest, input, merged');
      OutputsCons(p, def, child, rest, input, merged);
      assert [child] + rest == children;
    }
  }

  lemma OutputsCons(p: Program, def: WorkflowDef, child: string, rest: seq<string>, input: Json,
                    merged: map<string, Json>)
    requires forall c :: c in [child] + rest ==> ChildResult(p, def, c, input).Ok?
    ensures child in [child] + rest && forall c :: c in rest ==> c in [child] + rest
    ensures merged[child := ChildResult(p, def, child, input).value] + GroupOutputs(p, def, (set c | c in rest), input)
         == merged + GroupOutputs(p, def, (set c | c in [child] + rest), input)
  {
    hide ChildResult;
    assert forall c :: c in [child] + rest <==> c == child || c in rest;
  }

  /** A group fails with the error of the first child that fails. */
  lemma {:induction false} GroupFails(p: Program, def: WorkflowDef, children: seq<string>, input: Json,
                                      merged: map<string, Json>, k: nat)
    requires k < |children| && ChildResult(p, def, children[k], input).Err?
    requires forall j :: 0 <= j < k ==> ChildResult(p, def, children[j], input).Ok?
    ensures EvalGroup(p, def, children, input, merged) == Err(ChildResult(p, def, children[k], input).error)
    decreases |children|
  {
    hide EvalStep;
    if k > 0 {
      var output := ChildResult(p, def, children[0], input).value;
      GroupFails(p, def, children[1..], input, merged[children[0] := output], k - 1);
    }
  }

  /** The outputs of a group some of whose children have stored outputs: those, and the others' own. */
  function ResumedOutputs(p: Program, def: WorkflowDef, children: set<string>, input: Json, done: map<string, Json>)
    : map<string, Json>
    requires forall c :: c in children && c !in done ==> ChildResult(p, def, c, input).Ok?
  {
    map c | c in children :: if c in done then done[c] else ChildResult(p, def, c, input).value
  }

  /** The calls made since are all of the named handlers, on the same input. */
  predicate CallsOnly(before: seq<Call>, after: seq<Call>, names: set<string>, input: Json) {
    before <= after
    && forall k :: |before| <= k < |after| ==> after[k].step in names && after[k].input == input
  }

  lemma {:induction false} StepCallsOnly(h: Host, s: Sys, id: WorkflowId, node: StepNode, input: Json, attempt: int,
                                         names: set<string>)
    requires node.name in names
    ensures CallsOnly(s.calls, ExecStep(h, s, id, node, input, attempt).0.calls, names, input)
    decreases node.config.maxRetry - attempt
  {
    if node.name in h.registry {
      var s1 := Save(s, id, StepStarted(id, node.name, attempt, Now(h, s)));
      var (s2, result) := Attempt(h, s1, id, node, input, attempt);
      if result.Err? && attempt < node.config.maxRetry {
        var e := StepRetrying(id, node.name, attempt + 1, node.config.retryDelayMs, Now(h, s2));
        StepCallsOnly(h, Save(s2, id, e), id, node, input, attempt + 1, names);
      }
    }
  }

  /** However a group comes out, it calls only handlers of children without a stored output, on the group's input. */
  lemma {:induction false} GroupCallsOnly(h: Host, s: Sys, id: WorkflowId, def: WorkflowDef, children: seq<string>,
                                          input: Json, done: map<string, Json>, merged: map<string, Json>,
                                          names: set<string>)
    requires forall c :: c in children && c !in done ==> c in names
    ensures CallsOnly(s.calls, ExecGroup(h, s, id, def, children, input, done, merged).0.calls, names, input)
    decreases |children|
  {
    hide ExecStep;
    if children != [] {
      var child := children[0];
      if child in done {
        GroupCallsOnly(h, s, id, def, children[1..], input, done, merged[child := done[child]], names);
      } else if FindStep(def.steps, child).Some? {
        var node := FindStep(def.steps, child).value;
        StepCallsOnly(h, s, id, node, input, 1, names);
        var (s1, result) := ExecStep(h, s, id, node, input, 1);
        if result.Ok? {
          GroupCallsOnly(h, s1, id, def, children[1..], input, done, merged[child := result.value], names);
        }
      }
    }
  }

  /** A resumed group: children with a stored output contribute that output, the others what they come to now. */
  lemma {:induction false} ResumedGroupSucceeds(h: Host, p: Program, s: Sys, id: WorkflowId, def: WorkflowDef,
                                                children: seq<string>, input: Json, done: map<string, Json>,
                                                merged: map<string, Json>)
    requires h.registry == p.registry && Stateless(p.registry)
    requires forall c :: c in children && c !in done ==> ChildResult(p, def, c, input).Ok?
    ensures ExecGroup(h, s, id, def, children, input, done, merged).1 ==
            Ok(Object(merged + ResumedOutputs(p, def, (set c | c in children), input, done)))
    decreases |children|
  {
    hide ExecStep, EvalStep, Stateless;
    if children == [] {
      assert merged + ResumedOutputs(p, def, (set c | c in children), input, done) == merged;
    } else {
      var child, rest := children[0], children[1..];
      assert [child] + rest == children;
      ResumedCons(p, def, child, rest, input, done, merged);
      if child in done {
        ResumedGroupSucceeds(h, p, s, id, def, rest, input, done, merged[child := done[child]]);
      } else {
        var node := FindStep(def.steps, child).value;
        StepRefines(h, p, s, id, node, input, 1);
        var (s1, result) := ExecStep(h, s, id, node, input, 1);
        ResumedGroupSucceeds(h, p, s1, id, def, rest, input, done, merged[child := result.value]);
      }
    }
  }

  lemma ResumedCons(p: Program, def: WorkflowDef, child: string, rest: seq<string>, input: Json,
                    done: map<string, Json>, merged: map<string, Json>)
    requires forall c :: c in [child] + rest && c !in done ==> ChildResult(p, def, c, input).Ok?
    ensures child in [child] + rest && forall c :: c in rest ==> c in [child] + rest
    ensures var output := if child in done then done[child] else ChildResult(p, def, child, input).value;
      merged[child := output] + ResumedOutputs(p, def, (set c | c in rest), input, done)
      == merged + ResumedOutputs(p, def, (set c | c in [child] + rest), input, done)
  {
    hide ChildResult;
    assert forall c :: c in [child] + rest <==> c == child || c in rest;
  }

  lemma FirstFailure(p: Program, def: WorkflowDef, children: seq<string>, input: Json, n: nat) returns (k: nat)
    requires n < |children| && ChildResult(p, def, children[n], input).Err?
    ensures k < |children| && ChildResult(p, def, children[k], input).Err?
    ensures forall j :: 0 <= j < k ==> ChildResult(p, def, children[j], input).Ok?
  {
    hide ChildResult;
    k := 0;
    while ChildResult(p, def, children[k], input).Ok?
      invariant k <= n
      invariant forall j :: 0 <= j < k ==> ChildResult(p, def, children[j], input).Ok?
      decreases n - k
    {
      k := k + 1;
    }
  }

  /** The order and repetition of the children do not matter, except for which error is reported. */
  lemma GroupOrderIrrelevant(p: Program, def: WorkflowDef, children: seq<string>, children': seq<string>, input: Json)
    requires forall c :: c in children <==> c in children'
    ensures var r, r' := EvalGroup(p, def, children, input, map[]), EvalGroup(p, def, children', input, map[]);
      (r.Ok? <==> r'.Ok?) && (r.Ok? ==> r == r')
  {
    hide EvalGroup, ChildResult;
    assert (set c | c in children) == (set c | c in children');
    if c :| c in children && ChildResult(p, def, c, input).Err? {
      var n :| 0 <= n < |children| && children[n] == c;
      assert c in children';
      var n' :| 0 <= n' < |children'| && children'[n'] == c;
      var k := FirstFailure(p, def, children, input, n);
      var k' := FirstFailure(p, def, children', input, n');
      GroupFails(p, def, children, input, map[], k);
      GroupFails(p, def, children', input, map[], k');
    } else {
      GroupSucceeds(p, def, children, input, map[]);
      GroupSucceeds(p, def, children', input, map[]);
    }
  }

  // ---------------------------------------------------------------------------------------------
  // Batches
  // ---------------------------------------------------------------------------------------------

  /** After an error a batch that does not fail fast fails, with that error unless a name has no handler. */
  lemma {:induction false} BatchAfterError(h: Host, calls: seq<Call>, names: seq<string>, input: Json,
                                           merged: map<string, Json>, first: WorkflowError)
    ensures var r := ExecBatch(h, calls, names, input, false, merged, Some(first)).1;
      && r.Err?
      && ((forall n :: n in names ==> n in h.registry) ==> r == Err(first))
    decreases |names|
  {
    if names != [] && names[0] in h.registry {
      var calls1 := calls + [Call(names[0], input, 1)];
      var result := h.registry[names[0]](calls, input, 1).result;
      BatchAfterError(h, calls1, names[1..], input,
                      if result.Ok? then merged[names[0] := result.value] else merged, first);
    }
  }

  /**
   * Failing fast or not, a batch succeeds alike and with the same output; when every name has a handler the
   * results are equal. This holds for arbitrary stateful handlers.
   */
  lemma {:induction false} BatchModesAgree(h: Host, calls: seq<Call>, names: seq<string>, input: Json,
                                           merged: map<string, Json>)
    ensures var fast := ExecBatch(h, calls, names, input, true, merged, None).1;
      var slow := ExecBatch(h, calls, names, input, false, merged, None).1;
      && (fast.Ok? <==> slow.Ok?)
      && (fast.Ok? ==> fast == slow)
      && ((forall n :: n in names ==> n in h.registry) ==> fast == slow)
    decreases |names|
  {
    if names != [] && names[0] in h.registry {
      var calls1 := calls + [Call(names[0], input, 1)];
      var result := h.registry[names[0]](calls, input, 1).result;
      if result.Ok? {
        BatchModesAgree(h, calls1, names[1..], input, merged[names[0] := result.value]);
      } else {
        BatchAfterError(h, calls1, names[1..], input, merged, result.error);
      }
    }
  }

  /** One call per name, in order, all on the same input. */
  function CallsOf(names: seq<string>, input: Json): (r: seq<Call>)
    ensures |r| == |names| && forall i :: 0 <= i < |names| ==> r[i] == Call(names[i], input, 1)
  {
    seq(|names|, i requires 0 <= i < |names| => Call(names[i], input, 1))
  }

  /** What the handler named at position i answers after the calls in front of it. */
  function Answer(h: Host, calls: seq<Call>, names: seq<string>, input: Json, i: nat): Result<Json>
    requires i < |names|
  {
    if names[i] !in h.registry then Err(StepFailedError(names[i], "handler not found"))
    else h.registry[names[i]](calls + CallsOf(names[..i], input), input, 1).result
  }

  lemma AnswerLater(h: Host, calls: seq<Call>, names: seq<string>, input: Json, i: nat)
    requires i + 1 < |names|
    ensures Answer(h, calls + [Call(names[0], input, 1)], names[1..], input, i) == Answer(h, calls, names, input, i + 1)
  {
    assert calls + [Call(names[0], input, 1)] + CallsOf(names[1..][..i], input)
        == calls + CallsOf(names[..i + 1], input);
  }

  /** No later position has the same name. */
  predicate LastOf(names: seq<string>, i: nat) {
    i < |names| && forall j :: i < j < |names| ==> names[j] != names[i]
  }

  /** The fields give, under each name, the answer to that name's (last) call, and keep what else was merged. */
  ghost predicate Answers(h: Host, calls: seq<Call>, names: seq<string>, input: Json, merged: map<string, Json>,
                          fields: map<string, Json>) {
    && fields.Keys == merged.Keys + (set n | n in names)
    && (forall n :: n in merged && n !in names ==> fields[n] == merged[n])
    && forall i :: 0 <= i < |names| && LastOf(names, i) ==>
         Answer(h, calls, names, input, i) == Ok(fields[names[i]])
  }

  lemma AnswersCons(h: Host, calls: seq<Call>, names: seq<string>, input: Json, merged: map<string, Json>,
                    fields: map<string, Json>)
    requires names != [] && Answer(h, calls, names, input, 0).Ok?
    requires Answers(h, calls + [Call(names[0], input, 1)], names[1..], input,
                     merged[names[0] := Answer(h, calls, names, input, 0).value], fields)
    ensures Answers(h, calls, names, input, merged, fields)
  {
    hide Answer, LastOf;
    var (name, rest) := (names[0], names[1..]);
    assert (set n | n in names) == {name} + (set n | n in rest);
    LastOfRest(names);
    forall i | 0 <= i < |names| && LastOf(names, i)
      ensures Answer(h, calls, names, input, i) == Ok(fields[names[i]])
    {
      if i > 0 {
        assert names[i] == rest[i - 1];
        AnswerLater(h, calls, names, input, i - 1);
      }
    }
  }

  /** Every call in turn is answered by a success. */
  ghost predicate AllAnswer(h: Host, calls: seq<Call>, names: seq<string>, input: Json) {
    forall i :: 0 <= i < |names| ==> Answer(h, calls, names, input, i).Ok?
  }

  lemma AllAnswerCons(h: Host, calls: seq<Call>, names: seq<string>, input: Json)
    requires names != []
    ensures AllAnswer(h, calls, names, input) <==>
            Answer(h, calls, names, input, 0).Ok? && AllAnswer(h, calls + [Call(names[0], input, 1)], names[1..], input)
  {
    hide Answer;
    forall i | 0 <= i < |names| - 1
      ensures Answer(h, calls + [Call(names[0], input, 1)], names[1..], input, i).Ok? <==>
              Answer(h, calls, names, input, i + 1).Ok?
    {
      AnswerLater(h, calls, names, input, i);
    }
    if Answer(h, calls, names, input, 0).Ok? && AllAnswer(h, calls + [Call(names[0], input, 1)], names[1..], input) {
      forall i | 0 <= i < |names|
        ensures Answer(h, calls, names, input, i).Ok?
      {
        if i > 0 {
          assert Answer(h, calls + [Call(names[0], input, 1)], names[1..], input, i - 1).Ok?;
        }
      }
    }
  }

  /**
   * Failing fast or not, a batch succeeds exactly if every answer is a success. It has then called each name
   * once, in order, on the same input, and gives under each name the answer to that name's (last) call.
   */
  lemma {:induction false} BatchCalls(h: Host, calls: seq<Call>, names: seq<string>, input: Json, failFast: bool,
                                      merged: map<string, Json>)
    ensures var (calls', r) := ExecBatch(h, calls, names, input, failFast, merged, None);
      && (r.Ok? <==> AllAnswer(h, calls, names, input))
      && (r.Ok? ==>
            && r.value.Object? && Answers(h, calls, names, input, merged, r.value.fields)
            && calls' == calls + CallsOf(names, input))
    decreases |names|
  {
    if names != [] {
      hide Answer, Answers, AllAnswer;
      var (name, rest) := (names[0], names[1..]);
      var answer := Answer(h, calls, names, input, 0);
      FirstAnswer(h, calls, names, input);
      AllAnswerCons(h, calls, names, input);
      if answer.Ok? {
        BatchCalls(h, calls + [Call(name, input, 1)], rest, input, failFast, merged[name := answer.value]);
        assert [Call(name, input, 1)] + CallsOf(rest, input) == CallsOf(names, input);
        ConcatAssociative(calls, [Call(name, input, 1)], CallsOf(rest, input));
        var r := ExecBatch(h, calls, names, input, failFast, merged, None).1;
        if r.Ok? {
          AnswersCons(h, calls, names, input, merged, r.value.fields);
        }
      } else if name in h.registry && !failFast {
        BatchAfterError(h, calls + [Call(name, input, 1)], rest, input, merged, answer.error);
      }
    }
  }

  lemma FirstAnswer(h: Host, calls: seq<Call>, names: seq<string>, input: Json)
    requires names != []
    ensures Answer(h, calls, names, input, 0) ==
            if names[0] in h.registry then h.registry[names[0]](calls, input, 1).result
            else Err(StepFailedError(names[0], "handler not found"))
  {
    assert calls + CallsOf(names[..0], input) == calls;
  }

  lemma LastOfRest(names: seq<string>)
    requires names != []
    ensures forall i :: 1 <= i < |names| ==> (LastOf(names, i) <==> LastOf(names[1..], i - 1))
    ensures LastOf(names, 0) <==> names[0] !in names[1..]
  {
  }

  /** A batch that fails fast stops at the first name without a success, and fails with its error. */
  lemma {:induction false} BatchFails(h: Host, calls: seq<Call>, names: seq<string>, input: Json,
                                      merged: map<string, Json>, k: nat)
    requires k < |names| && Answer(h, calls, names, input, k).Err?
    requires forall i :: 0 <= i < k ==> Answer(h, calls, names, input, i).Ok?
    ensures ExecBatch(h, calls, names, input, true, merged, None) ==
            (calls + CallsOf(names[..if names[k] in h.registry then k + 1 else k], input),
             Err(Answer(h, calls, names, input, k).error))
    decreases |names|
  {
    hide Answer;
    var (name, rest) := (names[0], names[1..]);
    FirstAnswer(h, calls, names, input);
    if k > 0 {
      forall i | 0 <= i < k
        ensures Answer(h, calls + [Call(name, input, 1)], rest, input, i) == Answer(h, calls, names, input, i + 1)
      {
        AnswerLater(h, calls, names, input, i);
      }
      var output := Answer(h, calls, names, input, 0).value;
      BatchFails(h, calls + [Call(name, input, 1)], rest, input, merged[name := output], k - 1);
      var n := if names[k] in h.registry then k + 1 else k;
      assert rest[k - 1] == names[k];
      assert [Call(name, input, 1)] + CallsOf(rest[..n - 1], input) == CallsOf(names[..n], input);
      ConcatAssociative(calls, [Call(name, input, 1)], CallsOf(rest[..n - 1], input));
    } else {
      assert CallsOf(names[..1], input) == [Call(name, input, 1)];
      assert calls + CallsOf(names[..0], input) == calls;
    }
  }

  lemma {:induction false} LastPosition(names: seq<string>, n: string, i: nat) returns (k: nat)
    requires i < |names| && names[i] == n
    ensures LastOf(names, k) && names[k] == n
    decreases |names| - i
  {
    k := i;
    if j :| i < j < |names| && names[j] == n {
      k := LastPosition(names, n, j);
    }
  }

  /** What a stateless handler answers does not depend on the position. */
  lemma StatelessAnswer(h: Host, calls: seq<Call>, names: seq<string>, input: Json, i: nat)
    requires Stateless(h.registry) && i < |names|
    ensures Answer(h, calls, names, input, i) == Answer(h, [], [names[i]], input, 0)
  {
    assert calls + CallsOf(names[..i], input) == calls + CallsOf(names[..i], input);
    FirstAnswer(h, [], [names[i]], input);
  }

  /** With stateless handlers, a batch succeeds exactly if each name's handler does, and answers for each by itself. */
  lemma BatchOutput(h: Host, calls: seq<Call>, names: seq<string>, input: Json, failFast: bool)
    requires Stateless(h.registry)
    ensures var r := ExecBatch(h, calls, names, input, failFast, map[], None).1;
      && (r.Ok? <==> forall n :: n in names ==> Answer(h, [], [n], input, 0).Ok?)
      && (r.Ok? ==> r.value == Object(map n | n in names :: Answer(h, [], [n], input, 0).value))
  {
    hide Answer, Stateless, ExecBatch, LastOf;
    var r := ExecBatch(h, calls, names, input, failFast, map[], None).1;
    BatchCalls(h, calls, names, input, failFast, map[]);
    forall i | 0 <= i < |names|
      ensures Answer(h, calls, names, input, i) == Answer(h, [], [names[i]], input, 0)
    {
      StatelessAnswer(h, calls, names, input, i);
    }
    if r.Ok? {
      forall n | n in names
        ensures r.value.fields[n] == Answer(h, [], [n], input, 0).value
      {
        var i :| 0 <= i < |names| && names[i] == n;
        var k := LastPosition(names, n, i);
      }
      assert r.value.fields == map n | n in names :: Answer(h, [], [n], input, 0).value;
    }
  }

  /**
   * The order and repetition of a batch's names do not matter, nor does failing fast, except for the error
   * reported.
   */
  lemma BatchOrderIrrelevant(h: Host, calls: seq<Call>, names: seq<string>, names': seq<string>, input: Json,
                             failFast: bool, failFast': bool)
    requires Stateless(h.registry) && forall n :: n in names <==> n in names'
    ensures var r := ExecBatch(h, calls, names, input, failFast, map[], None).1;
      var r' := ExecBatch(h, calls, names', input, failFast', map[], None).1;
      (r.Ok? <==> r'.Ok?) && (r.Ok? ==> r == r')
  {
    hide Answer, Stateless, ExecBatch;
    BatchOutput(h, calls, names, input, failFast);
    BatchOutput(h, calls, names', input, failFast');
    if ExecBatch(h, calls, names, input, failFast, map[], None).1.Ok? {
      assert (map n | n in names :: Answer(h, [], [n], input, 0).value) ==
             (map n | n in names' :: Answer(h, [], [n], input, 0).value);
    }
  }
}
