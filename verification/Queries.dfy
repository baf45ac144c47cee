/** Reading the log: counts, results, summaries and time windows, and their agreement with what was written. */
module Queries {
  import opened Types
  import opened Replay
  import opened Execution
  import opened Lifecycle
  import opened Progress
  import opened Encoding

  // ---------------------------------------------------------------------------------------------
  // Statistics
  // ---------------------------------------------------------------------------------------------

  datatype EventStats = EventStats(
    total: nat, started: nat, completed: nat, failed: nat, retrying: nat,
    workflowStarted: nat, workflowCompleted: nat, workflowFailed: nat)

  function Counted(stats: EventStats, e: Event): EventStats {
    match e
    case WorkflowStarted(_, _, _, _) => stats.(workflowStarted := stats.workflowStarted + 1)
    case StepStarted(_, _, _, _) => stats.(started := stats.started + 1)
    case StepCompleted(_, _, _, _) => stats.(completed := stats.completed + 1)
    case StepFailed(_, _, _, _, _) => stats.(failed := stats.failed + 1)
    case StepRetrying(_, _, _, _, _) => stats.(retrying := stats.retrying + 1)
    case WorkflowCompleted(_, _, _) => stats.(workflowCompleted := stats.workflowCompleted + 1)
    case WorkflowFailed(_, _, _) => stats.(workflowFailed := stats.workflowFailed + 1)
  }

  function Tally(total: nat, events: seq<Event>): EventStats {
    if events == [] then EventStats(total, 0, 0, 0, 0, 0, 0, 0)
    else Counted(Tally(total, events[..|events| - 1]), events[|events| - 1])
  }

  method ComputeStats(events: seq<Event>) returns (stats: EventStats)
    ensures stats == Tally(|events|, events)
  {
    stats := EventStats(|events|, 0, 0, 0, 0, 0, 0, 0);
    for i := 0 to |events|
      invariant stats == Tally(|events|, events[..i])
    {
      assert events[..i + 1][..i] == events[..i];
      stats := Counted(stats, events[i]);
    }
    assert events[..|events|] == events;
  }

  /** The positions that hold an event of this kind. */
  ghost function Where(events: seq<Event>, kind: Event -> bool): set<int> {
    set i | 0 <= i < |events| && kind(events[i])
  }

  lemma WhereSnoc(events: seq<Event>, e: Event, kind: Event -> bool)
    ensures |Where(events + [e], kind)| == |Where(events, kind)| + if kind(e) then 1 else 0
  {
    var n := |events|;
    assert forall i :: 0 <= i < n ==> (events + [e])[i] == events[i];
    assert Where(events + [e], kind) == Where(events, kind) + if kind(e) then {n} else {};
  }

  /** Each counter is the number of positions that hold its kind of event. */
  lemma {:induction false} CountersMean(total: nat, events: seq<Event>)
    ensures var t := Tally(total, events);
      && t.total == total
      && t.started == |Where(events, (e: Event) => e.StepStarted?)|
      && t.completed == |Where(events, (e: Event) => e.StepCompleted?)|
      && t.failed == |Where(events, (e: Event) => e.StepFailed?)|
      && t.retrying == |Where(events, (e: Event) => e.StepRetrying?)|
      && t.workflowStarted == |Where(events, (e: Event) => e.WorkflowStarted?)|
      && t.workflowCompleted == |Where(events, (e: Event) => e.WorkflowCompleted?)|
      && t.workflowFailed == |Where(events, (e: Event) => e.WorkflowFailed?)|
  {
    hide Where;
    if events == [] {
      forall kind: Event -> bool
        ensures Where([], kind) == {}
      {
        NowhereInEmpty(kind);
      }
    } else {
      var n := |events| - 1;
      CountersMean(total, events[..n]);
      assert events == events[..n] + [events[n]];
      forall kind: Event -> bool {
        WhereSnoc(events[..n], events[n], kind);
      }
    }
  }

  lemma NowhereInEmpty(kind: Event -> bool)
    ensures Where([], kind) == {}
  {
  }

  /** The seven counters account for every event. */
  lemma {:induction false} CountersSum(total: nat, events: seq<Event>)
    ensures var t := Tally(total, events);
      && t.total == total
      && t.started + t.completed + t.failed + t.retrying
         + t.workflowStarted + t.workflowCompleted + t.workflowFailed == |events|
  {
    if events != [] {
      CountersSum(total, events[..|events| - 1]);
    }
  }

  /** Attempts begun that are neither answered by a retry nor by a completion. */
  function Unsettled(events: seq<Event>): int {
    Tally(0, events).started - Tally(0, events).retrying - Tally(0, events).completed
  }

  lemma TallySnoc(events: seq<Event>, e: Event)
    ensures Tally(0, events + [e]) == Counted(Tally(0, events), e)
  {
    assert (events + [e])[..|events|] == events;
  }

  lemma AttemptTally(h: Host, s: Sys, id: WorkflowId, node: StepNode, input: Json, attempt: int)
    requires id in s.logs && node.name in h.registry
    ensures var s' := Attempt(h, s, id, node, input, attempt).0;
      id in s'.logs && Tally(0, s'.logs[id]).(failed := 0) == Tally(0, s.logs[id]).(failed := 0)
  {
    var s' := Attempt(h, s, id, node, input, attempt).0;
    if s'.logs[id] != s.logs[id] {
      var e := s'.logs[id][|s.logs[id]|];
      assert s'.logs[id] == s.logs[id] + [e];
      TallySnoc(s.logs[id], e);
    }
  }

  /** However often a step is retried, one more attempt has begun than was answered by a retry. */
  lemma {:induction false} StepUnsettled(h: Host, s: Sys, id: WorkflowId, node: StepNode, input: Json, attempt: int)
    requires id in s.logs
    ensures var s' := ExecStep(h, s, id, node, input, attempt).0;
      && id in s'.logs
      && Unsettled(s'.logs[id]) == Unsettled(s.logs[id]) + 1
      && Tally(0, s'.logs[id]).workflowFailed == Tally(0, s.logs[id]).workflowFailed
    decreases node.config.maxRetry - attempt
  {
    hide Attempt, ExecStep, Tally;
    StepTurn(h, s, id, node, input, attempt);
    var started := StepStarted(id, node.name, attempt, Now(h, s));
    var s1 := Save(s, id, started);
    TallySnoc(s.logs[id], started);
    if node.name in h.registry {
      AttemptTally(h, s1, id, node, input, attempt);
      var (s2, result) := Attempt(h, s1, id, node, input, attempt);
      if result.Err? {
        var e := if attempt < node.config.maxRetry
                 then StepRetrying(id, node.name, attempt + 1, node.config.retryDelayMs, Now(h, s2))
                 else StepFailed(id, node.name, h.show(result.error), attempt, Now(h, s2));
        TallySnoc(s2.logs[id], e);
        if attempt < node.config.maxRetry {
          StepUnsettled(h, Save(s2, id, e), id, node, input, attempt + 1);
        }
      }
    }
  }

  lemma {:induction false} RunSettles(h: Host, s: Sys, id: WorkflowId, def: WorkflowDef, i: nat, current: Json,
                                      done: map<string, Json>, depth: nat)
    requires id in s.logs && AllSequential(def)
    requires Unsettled(s.logs[id]) == Tally(0, s.logs[id]).workflowFailed
    ensures var r := RunSteps(h, s, id, def, i, current, done, depth);
      r.Some? && id in r.value.logs
      && Unsettled(r.value.logs[id]) == Tally(0, r.value.logs[id]).workflowFailed
    decreases |def.steps| - i
  {
    hide RunSteps, ExecStep, Tally;
    if i >= |def.steps| {
      RunEnd(h, s, id, def, i, current, done, depth);
      TallySnoc(s.logs[id], WorkflowCompleted(id, current, Now(h, s)));
    } else if def.steps[i].name in done {
      RunSkip(h, s, id, def, i, current, done, depth);
      RunSettles(h, s, id, def, i + 1, done[def.steps[i].name], done, depth);
    } else {
      RunTurn(h, s, id, def, i, current, done, depth);
      StepUnsettled(h, s, id, def.steps[i], current, 1);
      var (s1, result) := ExecNode(h, s, id, def, def.steps[i], current, done, depth).value;
      var e := Report(h, s1, id, def.steps[i], result);
      TallySnoc(s1.logs[id], e);
      if result.Done? {
        RunSettles(h, Save(s1, id, e), id, def, i + 1, result.output, done, depth);
      }
    }
  }

  /** In a started Sequential run, repeated names or not: started = retrying + completed + failed workflows. */
  lemma AttemptsBalance(h: Host, s: Sys, def: WorkflowDef, input: Json, depth: nat)
    requires Fresh(h, s) && AllSequential(def)
    ensures var r := Start(h, s, def, input, depth);
      && r.Some?
      && var t := Tally(0, Load(r.value.0, r.value.1));
         t.started == t.retrying + t.completed + t.workflowFailed
  {
    OpenedFrame(h, s, def, input);
    var id, s0 := h.freshId(s.ticks), Opened(h, s, def, input);
    assert s0.logs[id][..0] == [];
    assert Tally(0, s0.logs[id][..0]) == EventStats(0, 0, 0, 0, 0, 0, 0, 0);
    RunSettles(h, s0, id, def, 0, input, map[], depth);
  }

  // ---------------------------------------------------------------------------------------------
  // Results
  // ---------------------------------------------------------------------------------------------

  datatype WorkflowResult = WorkflowResult(
    workflowId: WorkflowId, output: Json, eventsCount: nat, stepsExecuted: nat, elapsedMs: int)

  function GetResult(events: seq<Event>, id: WorkflowId): Option<WorkflowResult> {
    if events == [] || StateOf(events).status != Completed then None
    else
      var first, last := events[0], events[|events| - 1];
      Some(WorkflowResult(
             id,
             if last.WorkflowCompleted? then last.output else Null,
             |events|,
             |StateOf(events).completedSteps|,
             (if last.WorkflowCompleted? then last.ts else 0) - (if first.WorkflowStarted? then first.ts else 0)))
  }

  function GetError(events: seq<Event>): Option<(string, string)> {
    if events == [] || StateOf(events).status != Failed then None
    else
      var last := events[|events| - 1];
      if last.WorkflowFailed? then Some(("WorkflowFailed", last.reason)) else None
  }

  /** For every log the engine can leave, exactly one of a result, an error and a running status. */
  lemma ResultTrichotomy(log: seq<Event>, id: WorkflowId)
    requires Lived(log)
    ensures var last := log[|log| - 1];
      && (GetResult(log, id).Some? <==> last.WorkflowCompleted?)
      && (GetError(log).Some? <==> last.WorkflowFailed?)
      && (StateOf(log).status == Running <==> !last.Terminal())
      && (last.WorkflowCompleted? ==> GetResult(log, id).value.output == last.output)
      && (last.WorkflowFailed? ==> GetError(log) == Some(("WorkflowFailed", last.reason)))
  {
    ReplayStatus(log);
  }

  /** ... and so in every reachable state of the store. */
  lemma ReachableResults(trace: seq<Sys>, id: WorkflowId)
    requires Behaviour(trace) && id in trace[|trace| - 1].logs
    ensures var log := trace[|trace| - 1].logs[id];
      && log != []
      && (GetResult(log, id).Some? || GetError(log).Some? || StateOf(log).status == Running)
      && !(GetResult(log, id).Some? && GetError(log).Some?)
      && !(GetResult(log, id).Some? && StateOf(log).status == Running)
      && !(GetError(log).Some? && StateOf(log).status == Running)
  {
    ReachableLogsLived(trace);
    ResultTrichotomy(trace[|trace| - 1].logs[id], id);
  }

  lemma {:induction false} DistinctOutputs(done: seq<Completion>)
    requires NoDuplicates(CompletedNames(done))
    ensures |OutputMap(done)| == |done|
  {
    if done != [] {
      var init, last := done[..|done| - 1], done[|done| - 1];
      assert done == init + [last];
      CompletedNamesSnoc(init, last);
      NoDuplicatesSnoc(CompletedNames(init), last.step);
      DistinctOutputs(init);
      OutputMapKeys(init);
      assert OutputMap(done) == OutputMap(init)[last.step := last.output];
      assert OutputMap(done).Keys == OutputMap(init).Keys + {last.step};
      assert |OutputMap(done)| == |OutputMap(done).Keys| && |OutputMap(init)| == |OutputMap(init).Keys|;
    }
  }

  /**
   * Whatever has crashed and been resumed on the way: the result of a workflow that completed carries its own
   * id, the output it ended with, all its events, one executed step for each step of the definition, and the
   * time from its start to its completion.
   */
  lemma CompletedResult(h: Host, s: Sys, def: WorkflowDef, input: Json, depth: nat, recoveries: seq<Recovery>)
    requires Fresh(h, s) && NoDuplicates(def.Names())
    requires Start(h, s, def, input, depth).Some?
    requires var (first, id) := Start(h, s, def, input, depth).value; History(first, id, def, recoveries)
    ensures var (first, id) := Start(h, s, def, input, depth).value;
      var log := Load(Latest(first, recoveries), id);
      && log != [] && log[0].WorkflowStarted?
      && (log[|log| - 1].WorkflowCompleted? ==>
            GetResult(log, id) ==
            Some(WorkflowResult(id, log[|log| - 1].output, |log|, |def.steps|, log[|log| - 1].ts - log[0].ts)))
  {
    hide Start, GetResult, History;
    var (first, id) := Start(h, s, def, input, depth).value;
    StartedHistoryTracks(h, s, def, input, depth, recoveries);
    var log := Latest(first, recoveries).logs[id];
    if log[|log| - 1].WorkflowCompleted? {
      TrackedResult(def, log, id);
    }
  }

  lemma TrackedResult(def: WorkflowDef, log: seq<Event>, id: WorkflowId)
    requires NoDuplicates(def.Names()) && Tracks(def, log) && log[|log| - 1].WorkflowCompleted?
    ensures GetResult(log, id) ==
            Some(WorkflowResult(id, log[|log| - 1].output, |log|, |def.steps|, log[|log| - 1].ts - log[0].ts))
  {
    hide StateOf;
    ReplayStatus(log);
    ReplayCompleted(log);
    assert CompletedNames(Completions(log)) == def.Names();
    DistinctOutputs(Completions(log));
  }

  // ---------------------------------------------------------------------------------------------
  // Starts under a time limit
  // ---------------------------------------------------------------------------------------------

  /**
   * Without a limit, or within it, a start under a time limit is a start. Beyond it the workflow, whatever its
   * run has come to, is failed for the timeout: nothing that completed is lost, and nothing else changes.
   */
  lemma TimedStart(h: Host, s: Sys, def: WorkflowDef, input: Json, limitMs: int, elapsedMs: int, depth: nat)
    requires Fresh(h, s)
    ensures var r := StartWithTimeout(h, s, def, input, limitMs, elapsedMs, depth);
      var plain := Start(h, s, def, input, depth);
      && (r.Some? <==> plain.Some?)
      && (plain.Some? ==>
            var (s1, id) := plain.value;
            if limitMs <= 0 || elapsedMs <= limitMs then
              r == Some((s1, Ok(id)))
            else
              var s2 := r.value.0;
              && r.value.1 == Err(StepTimeout("workflow", limitMs))
              && s2.defs == s1.defs && s2.calls == s1.calls && s2.logs.Keys == s1.logs.Keys
              && (forall o :: o in s1.logs && o != id ==> s2.logs[o] == s1.logs[o])
              && id in s1.logs && s1.logs[id] <= s2.logs[id] && |s2.logs[id]| == |s1.logs[id]| + 1
              && Completions(s2.logs[id]) == Completions(s1.logs[id])
              && StateOf(s2.logs[id]).status == Failed
              && GetError(s2.logs[id]) == Some(("WorkflowFailed", "workflow timeout exceeded")))
  {
    hide Start;
    var plain := Start(h, s, def, input, depth);
    if plain.Some? {
      var (s1, id) := plain.value;
      StartLife(h, s, def, input, depth);
      StartFrame(h, s, def, input, depth);
      var e := WorkflowFailed(id, "workflow timeout exceeded", Now(h, s1));
      CompletionsSnoc(s1.logs[id], e);
      ReplayStatus(s1.logs[id] + [e]);
    }
  }

  // ---------------------------------------------------------------------------------------------
  // Summaries
  // ---------------------------------------------------------------------------------------------

  /** The steps the log has seen start or complete. */
  function StepNames(events: seq<Event>): set<string> {
    set i | 0 <= i < |events| && (events[i].StepStarted? || events[i].StepCompleted?) :: events[i].step
  }

  method CountTotalSteps(events: seq<Event>) returns (count: nat)
    ensures count == |StepNames(events)|
    ensures exists names: set<string> ::
              && count == |names|
              && forall n :: n in names <==>
                   exists i :: 0 <= i < |events|
                     && (events[i].StepStarted? || events[i].StepCompleted?) && events[i].step == n
  {
    var steps: set<string> := {};
    for i := 0 to |events|
      invariant steps == StepNames(events[..i])
    {
      if events[i].StepStarted? || events[i].StepCompleted? {
        steps := steps + {events[i].step};
      }
      StepNamesSnoc(events[..i], events[i]);
      assert events[..i] + [events[i]] == events[..i + 1];
    }
    assert events[..|events|] == events;
    return |steps|;
  }

  lemma StepNamesSnoc(events: seq<Event>, e: Event)
    ensures StepNames(events + [e]) == StepNames(events) + if e.StepStarted? || e.StepCompleted? then {e.step} else {}
  {
    var after := events + [e];
    var now := StepNames(events) + if e.StepStarted? || e.StepCompleted? then {e.step} else {};
    forall n | n in StepNames(after)
      ensures n in now
    {
      var i :| 0 <= i < |after| && (after[i].StepStarted? || after[i].StepCompleted?) && after[i].step == n;
      if i < |events| {
        assert events[i] == after[i];
        assert n in StepNames(events);
      } else {
        assert after[i] == e;
      }
    }
    forall n | n in now
      ensures n in StepNames(after)
    {
      if n in StepNames(events) {
        var i :| 0 <= i < |events| && (events[i].StepStarted? || events[i].StepCompleted?) && events[i].step == n;
        assert after[i] == events[i];
      } else {
        assert after[|events|] == e;
      }
    }
  }

  lemma {:induction false} CompletedAreSeen(events: seq<Event>)
    requires events != []
    ensures StateOf(events).completedSteps.Keys <= StepNames(events)
  {
    var init, e := events[..|events| - 1], events[|events| - 1];
    StepNamesSnoc(init, e);
    assert init + [e] == events;
    if init != [] {
      CompletedAreSeen(init);
      assert StateOf(events) == Apply(Some(StateOf(init)), e);
      assert StateOf(events).completedSteps.Keys ==
             StateOf(init).completedSteps.Keys + if e.StepCompleted? then {e.step} else {};
    } else {
      assert ReplayFrom(None, init) == None;
    }
  }

  /** A summary never reports more completed steps than steps, whatever events the log holds. */
  lemma SummaryBounded(events: seq<Event>)
    requires events != []
    ensures |StateOf(events).completedSteps| <= |StepNames(events)|
  {
    CompletedAreSeen(events);
    SubsetSize(StateOf(events).completedSteps.Keys, StepNames(events));
  }

  lemma {:induction false} SubsetSize(a: set<string>, b: set<string>)
    requires a <= b
    ensures |a| <= |b|
  {
    if a != {} {
      var x :| x in a;
      SubsetSize(a - {x}, b - {x});
    }
  }

  // ---------------------------------------------------------------------------------------------
  // Time windows
  // ---------------------------------------------------------------------------------------------

  function Within(events: seq<Event>, from: int, to: int): seq<Event> {
    if events == [] then []
    else
      var e := events[|events| - 1];
      Within(events[..|events| - 1], from, to) + if from <= e.ts <= to then [e] else []
  }

  method FilterByTime(events: seq<Event>, from: int, to: int) returns (found: seq<Event>)
    ensures found == Within(events, from, to)
  {
    found := [];
    for i := 0 to |events|
      invariant found == Within(events[..i], from, to)
    {
      assert events[..i + 1][..i] == events[..i];
      if from <= events[i].ts <= to {
        found := found + [events[i]];
      }
    }
    assert events[..|events|] == events;
  }

  predicate Chronological(events: seq<Event>) {
    forall i, j :: 0 <= i < j < |events| ==> events[i].ts <= events[j].ts
  }

  lemma {:induction false} WithinConcat(a: seq<Event>, b: seq<Event>, from: int, to: int)
    ensures Within(a + b, from, to) == Within(a, from, to) + Within(b, from, to)
  {
    if b == [] {
      assert a + b == a;
    } else {
      WithinConcat(a, b[..|b| - 1], from, to);
      assert (a + b)[..|a + b| - 1] == a + b[..|b| - 1];
    }
  }

  lemma {:induction false} WithinUniform(events: seq<Event>, from: int, to: int, inside: bool)
    requires forall i :: 0 <= i < |events| ==> (from <= events[i].ts <= to) == inside
    ensures Within(events, from, to) == if inside then events else []
  {
    if events != [] {
      WithinUniform(events[..|events| - 1], from, to, inside);
    }
  }

  /** Where a chronological log reaches a time. */
  lemma {:induction false} Reaches(events: seq<Event>, bound: int) returns (k: nat)
    requires Chronological(events)
    ensures k <= |events|
    ensures forall i :: 0 <= i < k ==> events[i].ts < bound
    ensures forall i :: k <= i < |events| ==> events[i].ts >= bound
  {
    if events == [] || events[|events| - 1].ts < bound {
      k := |events|;
    } else {
      k := Reaches(events[..|events| - 1], bound);
    }
  }

  lemma WithinParts(a: seq<Event>, b: seq<Event>, c: seq<Event>, from: int, to: int)
    requires forall i :: 0 <= i < |a| ==> a[i].ts < from
    requires forall i :: 0 <= i < |b| ==> from <= b[i].ts <= to
    requires forall i :: 0 <= i < |c| ==> c[i].ts > to
    requires from <= to
    ensures Within(a + b + c, from, to) == b
  {
    hide Within;
    WithinUniform(a, from, to, false);
    WithinUniform(b, from, to, true);
    WithinUniform(c, from, to, false);
    WithinConcat(a, b, from, to);
    WithinConcat(a + b, c, from, to);
  }

  lemma WithinSlice(events: seq<Event>, lo: nat, hi: nat, from: int, to: int)
    requires lo <= hi <= |events| && from <= to
    requires forall i :: 0 <= i < lo ==> events[i].ts < from
    requires forall i :: lo <= i < hi ==> from <= events[i].ts <= to
    requires forall i :: hi <= i < |events| ==> events[i].ts > to
    ensures Within(events, from, to) == events[lo..hi]
  {
    hide Within;
    WithinParts(events[..lo], events[lo..hi], events[hi..], from, to);
    assert events[..lo] + events[lo..hi] + events[hi..] == events;
  }

  /**
   * In a chronological log a time window is a slice, with everything before it earlier and after it later;
   * an inverted window is an empty one.
   */
  lemma WindowIsSlice(events: seq<Event>, from: int, to: int) returns (lo: nat, hi: nat)
    requires Chronological(events)
    ensures lo <= hi <= |events| && Within(events, from, to) == events[lo..hi]
    ensures forall i :: 0 <= i < lo ==> events[i].ts < from
    ensures forall i :: lo <= i < hi ==> from <= events[i].ts <= to
    ensures forall i :: hi <= i < |events| ==> events[i].ts > to
  {
    if to < from {
      lo := Reaches(events, from);
      hi := lo;
      WithinUniform(events, from, to, false);
    } else {
      lo := Reaches(events, from);
      var late := events[lo..];
      var more := Reaches(late, to + 1);
      hi := lo + more;
      assert forall i :: lo <= i < |events| ==> events[i] == late[i - lo];
      WithinSlice(events, lo, hi, from, to);
    }
  }
}
