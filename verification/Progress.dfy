/** At most one completion per step, whatever the handlers do, over every history of crashes and resumes. */
module Progress {
  import opened Types
  import opened Replay
  import opened Execution
  import opened Lifecycle

  /** Step names are distinct, and no step asks for the stored output of an earlier step. */
  predicate Independent(def: WorkflowDef) {
    && NoDuplicates(def.Names())
    && forall i, j :: 0 <= i < j < |def.steps| ==> def.steps[i].name !in Consulted(def.steps[j])
  }

  function DoneNames(log: seq<Event>): seq<string> {
    CompletedNames(Completions(log))
  }

  /** The log has one life and has completed a prefix of the definition's steps: all of them if it says so. */
  ghost predicate Tracks(def: WorkflowDef, log: seq<Event>) {
    && OneLife(log)
    && DoneNames(log) <= def.Names()
    && (log[|log| - 1].WorkflowCompleted? ==> DoneNames(log) == def.Names())
  }

  /** No step starts once its completion is in the log. */
  ghost predicate NoRerun(log: seq<Event>) {
    forall j :: 0 <= j < |log| && log[j].StepStarted? ==> log[j].step !in DoneNames(log[..j])
  }

  lemma DoneNamesPrefix(log: seq<Event>, k: nat)
    requires k <= |log|
    ensures DoneNames(log[..k]) <= DoneNames(log)
  {
    CompletionsPrefix(log, k);
  }

  lemma TracksPrefix(def: WorkflowDef, log: seq<Event>, k: nat)
    requires Tracks(def, log) && 0 < k <= |log|
    ensures Tracks(def, log[..k]) && (NoRerun(log) ==> NoRerun(log[..k]))
  {
    DoneNamesPrefix(log, k);
    if k == |log| {
      assert log[..k] == log;
    }
    forall j | 0 <= j < k
      ensures log[..k][..j] == log[..j]
    {
    }
  }

  lemma NoRerunSnoc(log: seq<Event>, e: Event)
    requires NoRerun(log)
    requires e.StepStarted? ==> e.step !in DoneNames(log)
    ensures NoRerun(log + [e])
  {
    var after := log + [e];
    forall j | 0 <= j < |after| && after[j].StepStarted?
      ensures after[j].step !in DoneNames(after[..j])
    {
      if j == |log| {
        assert after[..j] == log;
      } else {
        assert after[..j] == log[..j];
      }
    }
  }

  lemma {:induction false} NoRerunQuiet(before: seq<Event>, after: seq<Event>, names: set<string>)
    requires NoRerun(before) && before <= after
    requires forall k :: |before| <= k < |after| ==> after[k].Quiet() && after[k].step in names
    requires forall n :: n in DoneNames(before) ==> n !in names
    ensures NoRerun(after)
  {
    if |before| < |after| {
      var init := after[..|after| - 1];
      NoRerunQuiet(before, init, names);
      CompletionsQuiet(before, init);
      assert after == init + [after[|after| - 1]];
      NoRerunSnoc(init, after[|after| - 1]);
    } else {
      assert before == after;
    }
  }

  /** The first b names are distinct. */
  predicate DistinctUpTo(def: WorkflowDef, b: nat) {
    forall i, j :: 0 <= i < j < b && j < |def.steps| ==> def.steps[i].name != def.steps[j].name
  }

  lemma DistinctNames(def: WorkflowDef)
    ensures DistinctUpTo(def, |def.steps|) <==> NoDuplicates(def.Names())
  {
    assert forall i, j :: 0 <= i < j < |def.steps| ==>
        (def.steps[i].name == def.steps[j].name <==> def.Names()[i] == def.Names()[j]);
  }

  /** A node, then its completion, takes the log one step further down the definition. */
  lemma StepForward(def: WorkflowDef, i: nat, before: seq<Event>, middle: seq<Event>, e: Event)
    requires i < |def.steps|
    requires Tracks(def, before) && !Ended(before) && DoneNames(before) == def.Names()[..i]
    requires before <= middle
    requires forall k :: |before| <= k < |middle| ==> middle[k].Quiet() && middle[k].step in Touched(def.steps[i])
    requires (e.StepCompleted? && e.step == def.steps[i].name) || e.WorkflowFailed?
    ensures Tracks(def, middle + [e])
    ensures e.StepCompleted? ==> !Ended(middle + [e]) && DoneNames(middle + [e]) == def.Names()[..i + 1]
    ensures e.WorkflowFailed? ==> Ended(middle + [e]) && |Completions(middle + [e])| == i
    ensures Independent(def) && NoRerun(before) ==> NoRerun(middle + [e])
  {
    OneLifeQuiet(before, middle);
    OneLifeSnoc(middle, e);
    CompletionsQuiet(before, middle);
    CompletionsSnoc(middle, e);
    if e.StepCompleted? {
      CompletedNamesSnoc(Completions(middle), Completion(e.step, e.output));
      assert def.Names()[..i + 1] == def.Names()[..i] + [def.Names()[i]];
    }
    if Independent(def) && NoRerun(before) {
      forall n | n in DoneNames(before)
        ensures n !in Touched(def.steps[i])
      {
        var j :| 0 <= j < i && def.Names()[j] == n;
        assert def.Names()[j] != def.Names()[i];
        assert def.steps[j].name !in Consulted(def.steps[i]);
      }
      NoRerunQuiet(before, middle, Touched(def.steps[i]));
      NoRerunSnoc(middle, e);
    }
  }

  /** The terminal event of a run that reached the end of the definition. */
  lemma Finish(def: WorkflowDef, log: seq<Event>, e: Event)
    requires Tracks(def, log) && !Ended(log) && DoneNames(log) == def.Names() && e.WorkflowCompleted?
    ensures Tracks(def, log + [e]) && Ended(log + [e])
    ensures NoRerun(log) ==> NoRerun(log + [e])
  {
    OneLifeSnoc(log, e);
    CompletionsSnoc(log, e);
    if NoRerun(log) {
      NoRerunSnoc(log, e);
    }
  }

  /** The loop stands at step i: the log has completed exactly the steps before it. */
  ghost predicate AtStep(def: WorkflowDef, log: seq<Event>, i: nat) {
    i <= |def.steps| && Tracks(def, log) && !Ended(log) && DoneNames(log) == def.Names()[..i]
  }

  lemma NodeTracks(h: Host, s: Sys, id: WorkflowId, def: WorkflowDef, i: nat, current: Json, done: map<string, Json>,
                   depth: nat)
    requires i < |def.steps|
    requires Fresh(h, s) && id in s.logs && AtStep(def, s.logs[id], i)
    requires ExecNode(h, s, id, def, def.steps[i], current, done, depth).Some?
    ensures var (s1, result) := ExecNode(h, s, id, def, def.steps[i], current, done, depth).value;
      var s2 := Save(s1, id, Report(h, s1, id, def.steps[i], result));
      && Fresh(h, s2) && id in s2.logs && s.logs[id] <= s2.logs[id]
      && (result.Done? ==> AtStep(def, s2.logs[id], i + 1))
      && (result.Broke? ==> Tracks(def, s2.logs[id]) && Ended(s2.logs[id]) && |Completions(s2.logs[id])| == i)
      && (Independent(def) && NoRerun(s.logs[id]) ==> NoRerun(s2.logs[id]))
  {
    hide ExecNode;
    var node := def.steps[i];
    var (s1, result) := ExecNode(h, s, id, def, node, current, done, depth).value;
    var e := Report(h, s1, id, node, result);
    NodeStored(h, s, id, def, node, current, done, depth, e);
    StepForward(def, i, s.logs[id], s1.logs[id], e);
  }

  /** The event of a run that is stopped by a wait for a signal. */
  lemma HaltTracks(def: WorkflowDef, log: seq<Event>, e: Event)
    requires Tracks(def, log) && !Ended(log) && e.WorkflowFailed?
    ensures Tracks(def, log + [e]) && Ended(log + [e]) && Completions(log + [e]) == Completions(log)
    ensures NoRerun(log) ==> NoRerun(log + [e])
  {
    OneLifeSnoc(log, e);
    CompletionsSnoc(log, e);
    if NoRerun(log) {
      NoRerunSnoc(log, e);
    }
  }

  /** The loop keeps to the definition up to step b, where it finishes or is stopped for want of a signal. */
  lemma {:induction false} RunTracks(h: Host, s: Sys, id: WorkflowId, def: WorkflowDef, b: nat, i: nat, current: Json,
                                     done: map<string, Json>, depth: nat)
    requires Fresh(h, s) && id in s.logs && AtStep(def, s.logs[id], i) && i <= b && Halts(h, id, def, b, done.Keys)
    requires forall j :: i <= j < b && j < |def.steps| ==> def.steps[j].name !in done
    ensures var r := RunSteps(h, s, id, def, i, current, done, depth);
      r.Some? ==>
        && id in r.value.logs && s.logs[id] <= r.value.logs[id]
        && Tracks(def, r.value.logs[id]) && Ended(r.value.logs[id])
        && |Completions(r.value.logs[id])| <= b
        && (Independent(def) && NoRerun(s.logs[id]) ==> NoRerun(r.value.logs[id]))
    decreases |def.steps| - i
  {
    hide RunSteps, ExecNode, Stops;
    if i == |def.steps| {
      RunEnd(h, s, id, def, i, current, done, depth);
      assert def.Names()[..i] == def.Names();
      Finish(def, s.logs[id], WorkflowCompleted(id, current, Now(h, s)));
      CompletionsSnoc(s.logs[id], WorkflowCompleted(id, current, Now(h, s)));
    } else if i == b {
      var signal := def.steps[b].kind.signal;
      StoppedRun(h, s, id, def, i, current, done, depth, signal);
      HaltTracks(def, s.logs[id], WorkflowFailed(id, "Waiting for signal: " + signal, Now(h, s)));
    } else {
      RunTurn(h, s, id, def, i, current, done, depth);
      var turn := ExecNode(h, s, id, def, def.steps[i], current, done, depth);
      if turn.Some? {
        var (s1, result) := turn.value;
        NodeTracks(h, s, id, def, i, current, done, depth);
        if result.Done? {
          var s2 := Save(s1, id, Report(h, s1, id, def.steps[i], result));
          RunTracks(h, s2, id, def, b, i + 1, result.output, done, depth);
        }
      }
    }
  }

  /** Steps whose outputs are stored are passed over; the last of those outputs becomes the carried value. */
  lemma {:induction false} SkipDone(h: Host, s: Sys, id: WorkflowId, def: WorkflowDef, i: nat, k: nat, current: Json,
                                    done: map<string, Json>, depth: nat)
    requires i <= k <= |def.steps|
    requires forall j :: i <= j < k ==> def.steps[j].name in done
    ensures RunSteps(h, s, id, def, i, current, done, depth) ==
            RunSteps(h, s, id, def, k, if i == k then current else done[def.steps[k - 1].name], done, depth)
    decreases k - i
  {
    hide RunSteps;
    if i < k {
      RunSkip(h, s, id, def, i, current, done, depth);
      SkipDone(h, s, id, def, i + 1, k, done[def.steps[i].name], done, depth);
    }
  }

  lemma StartTracks(h: Host, s: Sys, def: WorkflowDef, b: nat, input: Json, depth: nat)
    requires Fresh(h, s) && Halts(h, h.freshId(s.ticks), def, b, {})
    ensures var r := Start(h, s, def, input, depth);
      r.Some? ==>
        var (s', id) := r.value;
        && id in s'.logs && Tracks(def, s'.logs[id]) && Ended(s'.logs[id]) && |Completions(s'.logs[id])| <= b
        && (Independent(def) ==> NoRerun(s'.logs[id]))
  {
    hide RunSteps;
    OpenedFrame(h, s, def, input);
    var id := h.freshId(s.ticks);
    var log := Opened(h, s, def, input).logs[id];
    assert Completions(log[..0]) == [];
    assert Completions(log) == [];
    assert DoneNames(log) == def.Names()[..0];
    var none: map<string, Json> := map[];
    assert none.Keys == {};
    RunTracks(h, Opened(h, s, def, input), id, def, b, 0, input, none, depth);
  }

  /** The names of the first k steps. */
  function FirstNames(def: WorkflowDef, k: nat): set<string>
    requires k <= |def.steps|
  {
    set j | 0 <= j < k :: def.steps[j].name
  }

  /** The outputs stored by the first k steps are found under their names, and under no later one up to b. */
  lemma StoredOutputs(def: WorkflowDef, log: seq<Event>, b: nat)
    requires DistinctUpTo(def, b) && b <= |def.steps| && DoneNames(log) <= def.Names() && |Completions(log)| <= b
    ensures var done, k := OutputMap(Completions(log)), |Completions(log)|;
      && DoneNames(log) == def.Names()[..k]
      && done.Keys == FirstNames(def, k)
      && (forall j :: 0 <= j < k ==> def.steps[j].name in done && done[def.steps[j].name] == Completions(log)[j].output)
      && (forall j :: k <= j < b ==> def.steps[j].name !in done)
  {
    var completions, names := Completions(log), def.Names();
    var done, k := OutputMap(completions), |completions|;
    OutputMapKeys(completions);
    assert forall j :: 0 <= j < k ==> CompletedNames(completions)[j] == names[j] == def.steps[j].name;
    forall j | 0 <= j < k
      ensures def.steps[j].name in done && done[def.steps[j].name] == completions[j].output
    {
      OutputMapAt(completions, j);
    }
  }

  /** What a resume of an unfinished log passes over, and where it takes up the work. */
  lemma ResumeEntry(h: Host, s: Sys, id: WorkflowId, def: WorkflowDef, b: nat, depth: nat)
    requires DistinctUpTo(def, b) && b <= |def.steps|
    requires id in s.logs && Tracks(def, s.logs[id]) && !Ended(s.logs[id]) && |Completions(s.logs[id])| <= b
    ensures var log := s.logs[id];
      var done, k := OutputMap(Completions(log)), |Completions(log)|;
      && ResumeVerdict(log, id).None?
      && StateOf(log).completedSteps == done
      && done.Keys == FirstNames(def, k)
      && DoneNames(log) == def.Names()[..k]
      && (forall j :: k <= j < b ==> def.steps[j].name !in done)
      && RunSteps(h, s.(defs := s.defs[id := def]), id, def, 0, LastOutput(log), done, depth) ==
         RunSteps(h, s.(defs := s.defs[id := def]), id, def, k, LastOutput(log), done, depth)
  {
    hide RunSteps, DistinctUpTo, OutputMap;
    var log := s.logs[id];
    ResumeRunsOpenLog(log, id);
    ReplayCompleted(log);
    StoredOutputs(def, log, b);
    LastOutputMeaning(log);
    SkipDone(h, s.(defs := s.defs[id := def]), id, def, 0, |Completions(log)|, LastOutput(log),
             OutputMap(Completions(log)), depth);
  }

  /** As Halts, whichever of the first b steps are stored. */
  predicate AlwaysHalts(h: Host, id: WorkflowId, def: WorkflowDef, b: nat) {
    b <= |def.steps| && forall k :: 0 <= k <= b ==> Halts(h, id, def, b, FirstNames(def, k))
  }

  lemma ResumeTracks(h: Host, s: Sys, id: WorkflowId, def: WorkflowDef, b: nat, depth: nat)
    requires DistinctUpTo(def, b) && AlwaysHalts(h, id, def, b) && Fresh(h, s)
    requires id in s.logs && Tracks(def, s.logs[id]) && |Completions(s.logs[id])| <= b
    ensures var r := Resume(h, s, id, def, depth);
      r.Some? ==>
        var s' := r.value.0;
        && id in s'.logs && s.logs[id] <= s'.logs[id]
        && Tracks(def, s'.logs[id]) && Ended(s'.logs[id]) && |Completions(s'.logs[id])| <= b
        && (Ended(s.logs[id]) ==> s' == s)
        && (Independent(def) && NoRerun(s.logs[id]) ==> NoRerun(s'.logs[id]))
  {
    hide RunSteps, Halts;
    var log := s.logs[id];
    ResumeRunsOpenLog(log, id);
    if !Ended(log) {
      ResumeEntry(h, s, id, def, b, depth);
      RunTracks(h, s.(defs := s.defs[id := def]), id, def, b, |Completions(log)|, LastOutput(log),
                StateOf(log).completedSteps, depth);
    }
  }

  // ---------------------------------------------------------------------------------------------
  // Histories of one workflow
  // ---------------------------------------------------------------------------------------------

  /** A crash, and the run that resumed from what it left. */
  datatype Recovery = Recovery(host: Host, crashed: Sys, depth: nat, resumed: Sys)

  /** A non-empty prefix of the workflow's log is what a crash leaves; it may leave anything else. */
  ghost predicate Truncated(s: Sys, s': Sys, id: WorkflowId) {
    id in s.logs && id in s'.logs && s'.logs[id] != [] && s'.logs[id] <= s.logs[id]
  }

  /** The state after the last recovery, or the first state when nothing has crashed. */
  function Latest(first: Sys, recoveries: seq<Recovery>): Sys {
    if recoveries == [] then first else recoveries[|recoveries| - 1].resumed
  }

  /** Each recovery resumed from a cut of what the one before it left. */
  ghost predicate History(first: Sys, id: WorkflowId, def: WorkflowDef, recoveries: seq<Recovery>) {
    recoveries != [] ==>
      var n := |recoveries| - 1;
      var last := recoveries[n];
      && History(first, id, def, recoveries[..n])
      && Truncated(Latest(first, recoveries[..n]), last.crashed, id)
      && Fresh(last.host, last.crashed)
      && var r := Resume(last.host, last.crashed, id, def, last.depth);
         r.Some? && r.value.0 == last.resumed
  }

  lemma {:induction false} HistoryPrefix(first: Sys, id: WorkflowId, def: WorkflowDef, recoveries: seq<Recovery>,
                                         n: nat)
    requires History(first, id, def, recoveries) && n <= |recoveries|
    ensures History(first, id, def, recoveries[..n])
    decreases |recoveries|
  {
    if n < |recoveries| {
      HistoryPrefix(first, id, def, recoveries[..|recoveries| - 1], n);
      assert recoveries[..|recoveries| - 1][..n] == recoveries[..n];
    } else {
      assert recoveries[..n] == recoveries;
    }
  }

  lemma {:induction false} HistoryTracks(first: Sys, id: WorkflowId, def: WorkflowDef, b: nat,
                                         recoveries: seq<Recovery>)
    requires DistinctUpTo(def, b) && History(first, id, def, recoveries)
    requires forall i :: 0 <= i < |recoveries| ==> AlwaysHalts(recoveries[i].host, id, def, b)
    requires id in first.logs && Tracks(def, first.logs[id]) && Ended(first.logs[id])
    requires |Completions(first.logs[id])| <= b
    ensures var last := Latest(first, recoveries);
      && id in last.logs && Tracks(def, last.logs[id]) && Ended(last.logs[id]) && |Completions(last.logs[id])| <= b
      && (Independent(def) && NoRerun(first.logs[id]) ==> NoRerun(last.logs[id]))
    decreases |recoveries|
  {
    if recoveries != [] {
      var n := |recoveries| - 1;
      var last := recoveries[n];
      HistoryTracks(first, id, def, b, recoveries[..n]);
      var log, cut := Latest(first, recoveries[..n]).logs[id], last.crashed.logs[id];
      assert log[..|cut|] == cut;
      TracksPrefix(def, log, |cut|);
      CompletionsPrefix(log, |cut|);
      ResumeTracks(last.host, last.crashed, id, def, b, last.depth);
    }
  }

  lemma StartedHistoryTracks(h: Host, s: Sys, def: WorkflowDef, input: Json, depth: nat, recoveries: seq<Recovery>)
    requires Fresh(h, s) && NoDuplicates(def.Names())
    requires Start(h, s, def, input, depth).Some?
    requires var (first, id) := Start(h, s, def, input, depth).value; History(first, id, def, recoveries)
    ensures var (first, id) := Start(h, s, def, input, depth).value;
      var last := Latest(first, recoveries);
      && id in last.logs && Tracks(def, last.logs[id]) && Ended(last.logs[id])
      && (Independent(def) ==> NoRerun(last.logs[id]))
  {
    hide Start, Stops, FirstNames;
    var (first, id) := Start(h, s, def, input, depth).value;
    DistinctNames(def);
    StartTracks(h, s, def, |def.steps|, input, depth);
    HistoryTracks(first, id, def, |def.steps|, recoveries);
  }

  /**
   * At most once, for arbitrary handlers and any crashes: no two StepCompleted events of the log name the
   * same step, the completed steps are a prefix of the definition, all of it when the workflow completed,
   * and (when no step consults an earlier one) no attempt at a step starts after its completion.
   */
  lemma AtMostOnce(h: Host, s: Sys, def: WorkflowDef, input: Json, depth: nat, recoveries: seq<Recovery>)
    requires Fresh(h, s) && NoDuplicates(def.Names())
    requires Start(h, s, def, input, depth).Some?
    requires var (first, id) := Start(h, s, def, input, depth).value; History(first, id, def, recoveries)
    ensures var (first, id) := Start(h, s, def, input, depth).value;
      var last := Latest(first, recoveries);
      && id in last.logs
      && var log := last.logs[id];
         && log != []
         && (forall i, j :: 0 <= i < j < |log| && log[i].StepCompleted? && log[j].StepCompleted? ==>
               log[i].step != log[j].step)
         && DoneNames(log) <= def.Names()
         && (log[|log| - 1].WorkflowCompleted? <==> StateOf(log).status == Completed)
         && (StateOf(log).status == Completed ==> DoneNames(log) == def.Names())
         && (Independent(def) ==>
               forall i, j :: 0 <= i < j < |log| && log[i].StepCompleted? && log[j].StepStarted? ==>
                 log[i].step != log[j].step)
  {
    var (first, id) := Start(h, s, def, input, depth).value;
    StartedHistoryTracks(h, s, def, input, depth, recoveries);
    var log := Latest(first, recoveries).logs[id];
    ReplayStatus(log);
    forall i, j | 0 <= i < j < |log| && log[i].StepCompleted? && log[j].StepCompleted?
      ensures log[i].step != log[j].step
    {
      CompletionsOrdered(log, i, j);
      CompletionAt(log, i);
      CompletionAt(log, j);
      assert def.Names()[|Completions(log[..i])|] == log[i].step;
      assert def.Names()[|Completions(log[..j])|] == log[j].step;
    }
    forall i, j | Independent(def) && 0 <= i < j < |log| && log[i].StepCompleted? && log[j].StepStarted?
      ensures log[i].step != log[j].step
    {
      assert log[..j][..i] == log[..i];
      CompletionAt(log[..j], i);
      assert DoneNames(log[..j])[|Completions(log[..i])|] == log[i].step;
    }
  }

  lemma CompletionsOrdered(log: seq<Event>, i: nat, j: nat)
    requires i < j < |log| && log[i].StepCompleted?
    ensures |Completions(log[..i])| < |Completions(log[..j])|
  {
    assert log[..j][..i] == log[..i];
    CompletionAt(log[..j], i);
  }
}
