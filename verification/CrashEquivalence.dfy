/** Any number of crashes and resumes leaves what one uninterrupted run would have left. */
module CrashEquivalence {
  import opened Types
  import opened Replay
  import opened Execution
  import opened Lifecycle
  import opened Progress
  import opened Interpreter

  // ---------------------------------------------------------------------------------------------
  // The interpreter's outline does not depend on where one starts reading it, or on spare depth
  // ---------------------------------------------------------------------------------------------

  lemma {:induction false} EvalFrom(p: Program, signals: map<string, bool>, def: WorkflowDef, i: nat, current: Json,
                                    depth: nat, k: nat)
    requires Eval(p, signals, def, i, current, depth).Some?
    requires k <= |Eval(p, signals, def, i, current, depth).value.completions|
    ensures var o := Eval(p, signals, def, i, current, depth).value;
      Eval(p, signals, def, i + k, Carried(o.completions[..k], current), depth) ==
      Some(Outline(o.completions[k..], o.ending))
    decreases k
  {
    hide Eval, EvalNode;
    var o := Eval(p, signals, def, i, current, depth).value;
    if k == 0 {
      assert o.completions[..0] == [] && o.completions[0..] == o.completions;
    } else {
      EvalShort(p, signals, def, i, current, depth);
      EvalTurn(p, signals, def, i, current, depth);
      var turn := EvalNode(p, signals, def, def.steps[i], current, depth);
      var output := turn.value.output;
      var rest := Eval(p, signals, def, i + 1, output, depth).value;
      EvalFrom(p, signals, def, i + 1, output, depth, k - 1);
      DropCons(Completion(def.steps[i].name, output), rest.completions, k);
      assert Carried(o.completions[..k], current) == Carried(rest.completions[..k - 1], output);
    }
  }

  lemma DropCons(c: Completion, rest: seq<Completion>, k: nat)
    requires 0 < k <= |rest| + 1
    ensures ([c] + rest)[k..] == rest[k - 1..]
  {
  }

  lemma EvalShort(p: Program, signals: map<string, bool>, def: WorkflowDef, i: nat, current: Json, depth: nat)
    requires Eval(p, signals, def, i, current, depth).Some?
    requires Eval(p, signals, def, i, current, depth).value.completions != []
    ensures i < |def.steps|
  {
  }

  lemma {:induction false} EvalNodeDepth(p: Program, signals: map<string, bool>, def: WorkflowDef, node: StepNode,
                                         input: Json, d: nat, d': nat)
    requires d <= d' && EvalNode(p, signals, def, node, input, d).Some?
    ensures EvalNode(p, signals, def, node, input, d') == EvalNode(p, signals, def, node, input, d)
    decreases d, 0
  {
    hide EvalLocal;
    if node.kind.SubWorkflow? && node.name in p.lib {
      EvalDepth(p, map[], p.lib[node.name], 0, input, d - 1, d' - 1);
    }
  }

  lemma {:induction false} EvalDepth(p: Program, signals: map<string, bool>, def: WorkflowDef, i: nat, current: Json,
                                     d: nat, d': nat)
    requires d <= d' && Eval(p, signals, def, i, current, d).Some?
    ensures Eval(p, signals, def, i, current, d') == Eval(p, signals, def, i, current, d)
    decreases d, 1, |def.steps| - i
  {
    if i < |def.steps| {
      hide EvalNode;
      EvalNodeDepth(p, signals, def, def.steps[i], current, d, d');
      var turn := EvalNode(p, signals, def, def.steps[i], current, d);
      if turn.value.Done? {
        EvalDepth(p, signals, def, i + 1, turn.value.output, d, d');
      }
    }
  }

  lemma EvalDepthsAgree(p: Program, signals: map<string, bool>, def: WorkflowDef, i: nat, current: Json, d: nat,
                        d': nat)
    requires Eval(p, signals, def, i, current, d).Some? && Eval(p, signals, def, i, current, d').Some?
    ensures Eval(p, signals, def, i, current, d') == Eval(p, signals, def, i, current, d)
  {
    hide Eval;
    if d <= d' {
      EvalDepth(p, signals, def, i, current, d, d');
    } else {
      EvalDepth(p, signals, def, i, current, d', d);
    }
  }

  /** At a wait for an unsent signal the interpreter goes no further. */
  lemma {:induction false} EvalBounded(p: Program, signals: map<string, bool>, def: WorkflowDef, b: nat, i: nat,
                                       current: Json, depth: nat)
    requires i <= b <= |def.steps| && Eval(p, signals, def, i, current, depth).Some?
    requires b < |def.steps| ==>
               def.steps[b].kind.Signal? && (def.steps[b].kind.signal in signals ==> !signals[def.steps[b].kind.signal])
    ensures |Eval(p, signals, def, i, current, depth).value.completions| <= b - i
    decreases b - i
  {
    if i < |def.steps| {
      hide Eval;
      EvalTurn(p, signals, def, i, current, depth);
      var turn := EvalNode(p, signals, def, def.steps[i], current, depth);
      if i < b && turn.value.Done? {
        EvalBounded(p, signals, def, b, i + 1, turn.value.output, depth);
      }
    }
  }

  // ---------------------------------------------------------------------------------------------
  // What recovery asks of a definition
  // ---------------------------------------------------------------------------------------------

  /** Among the first b steps, names are distinct, and no outcome can hang on the stored output of an earlier step. */
  predicate Clear(def: WorkflowDef, b: nat) {
    forall i, j :: 0 <= i < j < b && j < |def.steps| ==>
      def.steps[i].name != def.steps[j].name && def.steps[i].name !in Decisive(def.steps[j])
  }

  /** The number of steps in front of the first wait for a signal. */
  function Reach(def: WorkflowDef): (m: nat)
    ensures m <= |def.steps|
    ensures forall j :: 0 <= j < m ==> !def.steps[j].kind.Signal?
    ensures m < |def.steps| ==> def.steps[m].kind.Signal?
  {
    ReachFrom(def, 0)
  }

  function ReachFrom(def: WorkflowDef, i: nat): (m: nat)
    requires i <= |def.steps|
    ensures i <= m <= |def.steps|
    ensures forall j :: i <= j < m ==> !def.steps[j].kind.Signal?
    ensures m < |def.steps| ==> def.steps[m].kind.Signal?
    decreases |def.steps| - i
  {
    if i == |def.steps| || def.steps[i].kind.Signal? then i else ReachFrom(def, i + 1)
  }

  /** However many of the first m steps are stored, step m, or the next not passed over, waits for the same signal. */
  predicate Waits(def: WorkflowDef, m: nat) {
    m < |def.steps| ==>
      && def.steps[m].kind.Signal?
      && forall k :: 0 <= k <= m ==> Stops(def, m, FirstNames(def, k), def.steps[m].kind.signal)
  }

  /** The steps before the first wait stand clear of each other, and storing them does not lead past the wait. */
  predicate Recoverable(def: WorkflowDef) {
    Clear(def, Reach(def)) && Waits(def, Reach(def))
  }

  /** Without a Signal step, that is: distinct names, and no step's outcome hanging on an earlier step's output. */
  lemma RecoverableWithoutSignals(def: WorkflowDef)
    requires forall j :: 0 <= j < |def.steps| ==> !def.steps[j].kind.Signal?
    ensures Recoverable(def) <==>
            && NoDuplicates(def.Names())
            && forall i, j :: 0 <= i < j < |def.steps| ==> def.steps[i].name !in Decisive(def.steps[j])
  {
    DistinctNames(def);
    assert Reach(def) == |def.steps|;
  }

  /** Where the loop stops it finds a wait for the signal. */
  lemma {:induction false} StopsSomewhere(def: WorkflowDef, i: nat, stored: set<string>, signal: string)
    returns (j: nat)
    requires Stops(def, i, stored, signal)
    ensures i <= j < |def.steps| && def.steps[j].kind == Signal(signal)
    decreases |def.steps| - i
  {
    j := i;
    if def.steps[i].name in stored {
      j := StopsSomewhere(def, i + 1, stored, signal);
    }
  }

  /** When the first Signal is not waited for again: up to and including that wait, names must be distinct. */
  lemma RecoverableUpToSignal(def: WorkflowDef)
    requires Reach(def) < |def.steps|
    requires forall j :: Reach(def) < j < |def.steps| ==> def.steps[j].kind != def.steps[Reach(def)].kind
    ensures Recoverable(def) <==> Clear(def, Reach(def)) && DistinctUpTo(def, Reach(def) + 1)
  {
    var m := Reach(def);
    var wait := def.steps[m];
    if Waits(def, m) {
      forall i | 0 <= i < m
        ensures def.steps[i].name != wait.name
      {
        if def.steps[i].name == wait.name {
          assert Stops(def, m, FirstNames(def, m), wait.kind.signal);
          var j := StopsSomewhere(def, m + 1, FirstNames(def, m), wait.kind.signal);
          assert false;
        }
      }
    }
  }

  /** Nobody having sent a signal, the waits of a recoverable definition halt every run. */
  lemma WaitsHalt(h: Host, id: WorkflowId, def: WorkflowDef)
    requires Waits(def, Reach(def)) && SignalsOf(h, id) == map[]
    ensures AlwaysHalts(h, id, def, Reach(def))
  {
    hide Stops;
  }

  lemma ClearDistinct(def: WorkflowDef, b: nat)
    requires Clear(def, b)
    ensures DistinctUpTo(def, b)
  {
  }

  // ---------------------------------------------------------------------------------------------
  // One resume
  // ---------------------------------------------------------------------------------------------

  /** The log is on the way to the outline: it has completed a prefix of it, all of it once it has ended. */
  ghost predicate Towards(def: WorkflowDef, log: seq<Event>, input: Json, o: Outline) {
    && Tracks(def, log)
    && log[0].input == input
    && Completions(log) <= o.completions
    && (Ended(log) ==> Completions(log) == o.completions && EndsAs(log, o.ending))
  }

  lemma TowardsPrefix(def: WorkflowDef, log: seq<Event>, input: Json, o: Outline, k: nat)
    requires Towards(def, log, input, o) && 0 < k <= |log|
    ensures Towards(def, log[..k], input, o)
  {
    TracksPrefix(def, log, k);
    CompletionsPrefix(log, k);
    if k == |log| {
      assert log[..k] == log;
    }
  }

  /** What a prefix of the steps stored is never asked for by the rest. */
  lemma PrefixUnaffected(def: WorkflowDef, b: nat, k: nat, done: map<string, Json>)
    requires Clear(def, b) && k <= |def.steps| && done.Keys == FirstNames(def, k)
    ensures Unaffected(def, k, b, done)
  {
  }

  /** The steps not yet stored, run from the carried value, complete the outline. */
  lemma RestReaches(h: Host, p: Program, names: set<string>, s: Sys, id: WorkflowId, def: WorkflowDef, b: nat,
                    input: Json, depth: nat, o: Outline, runDepth: nat)
    requires Fresh(h, s) && Hosts(h, p, names) && Knows(s, p, names) && Closed(p, def, names)
    requires Clear(def, b) && AlwaysHalts(h, id, def, b) && id in s.logs
    requires Eval(p, SignalsOf(h, id), def, 0, input, depth) == Some(o)
    requires Towards(def, s.logs[id], input, o) && |Completions(s.logs[id])| <= b
    requires OutputMap(Completions(s.logs[id])).Keys == FirstNames(def, |Completions(s.logs[id])|)
    ensures var log := s.logs[id];
      var done, k := OutputMap(Completions(log)), |Completions(log)|;
      var run := RunSteps(h, s, id, def, k, LastOutput(log), done, runDepth);
      && (runDepth >= depth ==> run.Some?)
      && (run.Some? ==>
            && id in run.value.logs
            && Completions(run.value.logs[id]) == o.completions
            && EndsAs(run.value.logs[id], o.ending))
  {
    hide RunSteps, Eval, Hosts, Knows, Closed, Fresh, Clear, Halts;
    var log := s.logs[id];
    var completions, signals := Completions(log), SignalsOf(h, id);
    var k, done, value := |completions|, OutputMap(completions), LastOutput(log);
    PrefixUnaffected(def, b, k, done);
    LastOutputMeaning(log);
    EvalFrom(p, signals, def, 0, input, depth, k);
    assert o.completions[..k] == completions;
    assert completions + o.completions[k..] == o.completions;
    RunRefines(h, p, names, s, id, def, b, k, value, done, runDepth);
    if runDepth >= depth {
      EvalDepth(p, signals, def, k, value, depth, runDepth);
    }
    if Eval(p, signals, def, k, value, runDepth).Some? {
      EvalDepthsAgree(p, signals, def, k, value, depth, runDepth);
    }
  }

  lemma KnowsMore(p: Program, names: set<string>, s: Sys, id: WorkflowId, def: WorkflowDef)
    requires Knows(s, p, names) && id !in names
    ensures Knows(s.(defs := s.defs[id := def]), p, names)
  {
  }

  /**
   * A resume that is not cut short brings any such log to the outline; it nests no deeper than the outline does.
   * b is the number of steps, or a wait for an unsent signal at which runs halt however much is stored before it.
   */
  lemma ResumeReaches(h: Host, p: Program, names: set<string>, s: Sys, id: WorkflowId, def: WorkflowDef, b: nat,
                      input: Json, depth: nat, o: Outline, runDepth: nat)
    requires Fresh(h, s) && Hosts(h, p, names) && Knows(s, p, names) && Closed(p, def, names)
    requires Clear(def, b) && AlwaysHalts(h, id, def, b) && id in s.logs && id !in names
    requires Eval(p, SignalsOf(h, id), def, 0, input, depth) == Some(o)
    requires Towards(def, s.logs[id], input, o)
    ensures runDepth >= depth ==> Resume(h, s, id, def, runDepth).Some?
    ensures var r := Resume(h, s, id, def, runDepth);
      r.Some? ==>
        var s' := r.value.0;
        id in s'.logs && Ended(s'.logs[id]) && Towards(def, s'.logs[id], input, o)
  {
    hide RunSteps, Eval, Hosts, Knows, Closed, Clear, Halts, AlwaysHalts;
    ClearDistinct(def, b);
    HaltsBound(h, id, def, b);
    EvalBounded(p, SignalsOf(h, id), def, b, 0, input, depth);
    var log := s.logs[id];
    ResumeRunsOpenLog(log, id);
    ResumeTracks(h, s, id, def, b, runDepth);
    if !Ended(log) {
      ResumeEntry(h, s, id, def, b, runDepth);
      KnowsMore(p, names, s, id, def);
      RestReaches(h, p, names, s.(defs := s.defs[id := def]), id, def, b, input, depth, o, runDepth);
    }
  }

  lemma HaltsBound(h: Host, id: WorkflowId, def: WorkflowDef, b: nat)
    requires AlwaysHalts(h, id, def, b)
    ensures b <= |def.steps|
    ensures b < |def.steps| ==> def.steps[b].kind.Signal? && !HasSignal(h, id, def.steps[b].kind.signal)
  {
    hide Stops;
    assert Halts(h, id, def, b, FirstNames(def, 0));
  }

  // ---------------------------------------------------------------------------------------------
  // Every history
  // ---------------------------------------------------------------------------------------------

  /** Each resuming host runs the same program, and nobody has signalled the workflow. */
  ghost predicate SameProgram(p: Program, names: set<string>, id: WorkflowId, recoveries: seq<Recovery>) {
    forall i :: 0 <= i < |recoveries| ==>
      && Hosts(recoveries[i].host, p, names)
      && Knows(recoveries[i].crashed, p, names)
      && SignalsOf(recoveries[i].host, id) == map[]
  }

  lemma {:induction false} HistoryReaches(p: Program, names: set<string>, first: Sys, id: WorkflowId, def: WorkflowDef,
                                          input: Json, depth: nat, o: Outline, recoveries: seq<Recovery>)
    requires Closed(p, def, names) && Recoverable(def) && id !in names
    requires Eval(p, map[], def, 0, input, depth) == Some(o)
    requires id in first.logs && Ended(first.logs[id]) && Towards(def, first.logs[id], input, o)
    requires History(first, id, def, recoveries) && SameProgram(p, names, id, recoveries)
    ensures var last := Latest(first, recoveries);
      id in last.logs && Ended(last.logs[id]) && Towards(def, last.logs[id], input, o)
    decreases |recoveries|
  {
    hide Eval, Resume, Hosts, Knows, Closed, Clear, Waits, Fresh;
    if recoveries != [] {
      var n := |recoveries| - 1;
      var last := recoveries[n];
      HistoryReaches(p, names, first, id, def, input, depth, o, recoveries[..n]);
      var log, cut := Latest(first, recoveries[..n]).logs[id], last.crashed.logs[id];
      assert log[..|cut|] == cut;
      TowardsPrefix(def, log, input, o, |cut|);
      WaitsHalt(last.host, id, def);
      ResumeReaches(last.host, p, names, last.crashed, id, def, Reach(def), input, depth, o, last.depth);
    }
  }

  /** Both events end the workflow in the same way: completed with the same output, or failed for the same reason. */
  predicate SamePayload(e: Event, e': Event) {
    match e
    case WorkflowCompleted(_, output, _) => e'.WorkflowCompleted? && e'.output == output
    case WorkflowFailed(_, reason, _) => e'.WorkflowFailed? && e'.reason == reason
    case _ => false
  }

  /** A program set up on a host, a started run of the definition, and any crashes and resumes of that run. */
  ghost predicate Scenario(h: Host, p: Program, names: set<string>, s: Sys, def: WorkflowDef, input: Json, depth: nat,
                           recoveries: seq<Recovery>) {
    && Fresh(h, s) && Hosts(h, p, names) && Knows(s, p, names) && Closed(p, def, names)
    && Start(h, s, def, input, depth).Some?
    && var (first, id) := Start(h, s, def, input, depth).value;
       History(first, id, def, recoveries) && SameProgram(p, names, id, recoveries)
  }

  /** The log is left with the completions and the ending of the uninterrupted run. */
  ghost predicate SameResult(h: Host, s: Sys, def: WorkflowDef, input: Json, depth: nat, recoveries: seq<Recovery>)
    requires Start(h, s, def, input, depth).Some?
  {
    var (first, id) := Start(h, s, def, input, depth).value;
    var log, log' := Load(first, id), Load(Latest(first, recoveries), id);
    && log != [] && log' != []
    && Completions(log') == Completions(log)
    && SamePayload(log[|log| - 1], log'[|log'| - 1])
  }

  /**
   * Crash-recovery equivalence, for all five kinds of step: crash the run at any events, any number of
   * times, and resume; the log ends up with the same completions, in the same order and with the same
   * outputs, and with the same ending, as the uninterrupted run, and replays to the same outcome.
   */
  lemma CrashRecovery(h: Host, p: Program, names: set<string>, s: Sys, def: WorkflowDef, input: Json, depth: nat,
                      recoveries: seq<Recovery>)
    requires Scenario(h, p, names, s, def, input, depth, recoveries) && Recoverable(def)
    ensures SameResult(h, s, def, input, depth, recoveries)
    ensures var (first, id) := Start(h, s, def, input, depth).value;
      var st, st' := StateOf(Load(first, id)), StateOf(Load(Latest(first, recoveries), id));
      st'.status == st.status && st'.completedSteps == st.completedSteps
  {
    hide Start, Eval, Fresh, Hosts, Knows, Closed, Clear, Waits, History, SameProgram, Tracks;
    var (first, id) := Start(h, s, def, input, depth).value;
    StartReaches(h, p, names, s, def, input, depth);
    var o := Eval(p, map[], def, 0, input, depth).value;
    HistoryReaches(p, names, first, id, def, input, depth, o, recoveries);
    OutlineDecides(def, first.logs[id], Latest(first, recoveries).logs[id], input, o);
  }

  /** The uninterrupted run reaches the interpreter's outline. */
  lemma StartReaches(h: Host, p: Program, names: set<string>, s: Sys, def: WorkflowDef, input: Json, depth: nat)
    requires Fresh(h, s) && Hosts(h, p, names) && Knows(s, p, names) && Closed(p, def, names)
    requires Waits(def, Reach(def))
    requires Start(h, s, def, input, depth).Some?
    ensures var (first, id) := Start(h, s, def, input, depth).value;
      var o := Eval(p, map[], def, 0, input, depth);
      && id !in names && id in first.logs && Ended(first.logs[id])
      && o.Some? && Towards(def, first.logs[id], input, o.value)
  {
    hide RunSteps, Eval, Stateless, Hosts, Knows, Closed, Clear, Halts, Waits;
    var m, id := Reach(def), h.freshId(s.ticks);
    StartRefines(h, p, names, s, def, input, depth);
    FreshIdUnnamed(h, p, names, s.ticks);
    WaitsHalt(h, id, def);
    assert FirstNames(def, 0) == {};
    StartTracks(h, s, def, m, input, depth);
  }

  /** Two ended logs on the same outline agree on everything it says. */
  lemma OutlineDecides(def: WorkflowDef, log: seq<Event>, log': seq<Event>, input: Json, o: Outline)
    requires Towards(def, log, input, o) && Ended(log) && Towards(def, log', input, o) && Ended(log')
    ensures Completions(log') == Completions(log) && SamePayload(log[|log| - 1], log'[|log'| - 1])
    ensures StateOf(log').status == StateOf(log).status
    ensures StateOf(log').completedSteps == StateOf(log).completedSteps
  {
    ReplayStatus(log);
    ReplayStatus(log');
    ReplayCompleted(log);
    ReplayCompleted(log');
  }

  lemma FreshIdUnnamed(h: Host, p: Program, names: set<string>, n: nat)
    requires Hosts(h, p, names)
    ensures h.freshId(n) !in names && SignalsOf(h, h.freshId(n)) == map[]
  {
  }
}
