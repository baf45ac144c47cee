/**
 * Where crash recovery fails: being recoverable is not only enough but needed, for definitions in which no
 * step in front of the first Signal is bound to fail. A definition that is not recoverable has a program, an
 * input and one crash that tell it apart.
 */
module RecoveryLimits {
  import opened Types
  import opened Replay
  import opened Execution
  import opened Lifecycle
  import opened Progress
  import opened Interpreter
  import opened CrashEquivalence
  import opened Invocations
  import opened Nesting

  /** No step in front of the first Signal is bound to fail or to drop its input: groups are of known children only. */
  predicate Passable(def: WorkflowDef) {
    forall i :: 0 <= i < Reach(def) && def.steps[i].kind.Parallel? ==>
      def.steps[i].kind.children != [] && forall c :: c in def.steps[i].kind.children ==> c in def.Names()
  }

  /** Whatever the program and however often it crashes, a resumed run ends as the uninterrupted one. */
  ghost predicate AlwaysRecovers(def: WorkflowDef) {
    forall h, p, names, s, input, depth, recoveries ::
      Scenario(h, p, names, s, def, input, depth, recoveries) ==> SameResult(h, s, def, input, depth, recoveries)
  }

  // ---------------------------------------------------------------------------------------------
  // Trial programs: every handler wraps its input under its name, except one handler on one input
  // ---------------------------------------------------------------------------------------------

  function Tag(name: string, x: Json): Json {
    Array([String(name), x])
  }

  function TrialHandler(bad: string, v: Json, name: string): Handler {
    (calls: seq<Call>, input: Json, attempt: int) =>
      Outcome(if name == bad && input == v then Err(StepFailedError(name, "trial")) else Ok(Tag(name, input)), 0)
  }

  function AllNames(def: WorkflowDef): set<string> {
    set i, n | 0 <= i < |def.steps| && n in {def.steps[i].name} + Consulted(def.steps[i]) :: n
  }

  function Leaf(name: string): WorkflowDef {
    WorkflowDef(name, [StepNode(name, StepConfig(name, 1, 0, 0), Sequential)], map[])
  }

  function Trial(def: WorkflowDef, bad: string, v: Json): Program {
    Program(map n | n in AllNames(def) :: TrialHandler(bad, v, n), _ => "", map n | n in SubNames(def) :: Leaf(n))
  }

  lemma {:induction false} TrialStep(def: WorkflowDef, bad: string, v: Json, node: StepNode, x: Json, attempt: int)
    requires node.name in AllNames(def)
    ensures var r := EvalStep(Trial(def, bad, v), node, x, attempt);
      if node.name == bad && x == v then r.Err? else r == Ok(Tag(node.name, x))
    decreases node.config.maxRetry - attempt
  {
    if node.name == bad && x == v && attempt < node.config.maxRetry {
      TrialStep(def, bad, v, node, x, attempt + 1);
    }
  }

  /** A node's output when nothing fails. */
  function Clean(node: StepNode, x: Json): Json
    requires !node.kind.Signal?
  {
    match node.kind
    case Conditional(_, onTrue, _) => Tag(onTrue, x)
    case Parallel(children) => Object(map c | c in children :: Tag(c, x))
    case _ => Tag(node.name, x)
  }

  lemma CleanGrows(def: WorkflowDef, i: nat, x: Json)
    requires Passable(def) && i < Reach(def)
    ensures x < Clean(def.steps[i], x)
  {
    var node := def.steps[i];
    match node.kind
    case Parallel(children) =>
      TagGrows(children[0], x);
      var m := map c | c in children :: Tag(c, x);
      assert children[0] in m && m[children[0]] < Object(m);
    case Conditional(_, t, _) => TagGrows(t, x);
    case _ => TagGrows(node.name, x);
  }

  lemma TagGrows(name: string, x: Json)
    ensures x < Tag(name, x)
  {
    assert [String(name), x][1] == x;
  }

  lemma NamedSteps(def: WorkflowDef, i: nat)
    requires i < |def.steps|
    ensures def.steps[i].name in AllNames(def) && Consulted(def.steps[i]) <= AllNames(def)
  {
    forall n | n in Consulted(def.steps[i])
      ensures n in AllNames(def)
    {
      assert n in {def.steps[i].name} + Consulted(def.steps[i]);
    }
    assert def.steps[i].name in {def.steps[i].name} + Consulted(def.steps[i]);
  }

  lemma FindKnown(def: WorkflowDef, c: string)
    requires c in def.Names()
    ensures FindStep(def.steps, c).Some? && c in AllNames(def)
  {
    var i :| 0 <= i < |def.steps| && def.Names()[i] == c;
    assert def.steps[i] in def.steps;
    NamedSteps(def, i);
  }

  lemma CleanChild(def: WorkflowDef, bad: string, v: Json, c: string, x: Json)
    requires x != v && c in def.Names()
    ensures ChildResult(Trial(def, bad, v), def, c, x) == Ok(Tag(c, x))
  {
    hide EvalStep, Trial;
    FindKnown(def, c);
    TrialStep(def, bad, v, FindStep(def.steps, c).value, x, 1);
  }

  lemma CleanGroup(def: WorkflowDef, bad: string, v: Json, children: seq<string>, x: Json)
    requires x != v && forall c :: c in children ==> c in def.Names()
    ensures EvalGroup(Trial(def, bad, v), def, children, x, map[]) == Ok(Object(map c | c in children :: Tag(c, x)))
  {
    hide EvalGroup, Trial, ChildResult, Tag;
    var p := Trial(def, bad, v);
    forall c | c in children
      ensures ChildResult(p, def, c, x) == Ok(Tag(c, x))
    {
      CleanChild(def, bad, v, c, x);
    }
    GroupSucceeds(p, def, children, x, map[]);
    assert map[] + GroupOutputs(p, def, (set c | c in children), x) == map c | c in children :: Tag(c, x);
  }

  lemma LeafRuns(def: WorkflowDef, bad: string, v: Json, name: string, x: Json)
    requires x != v && name in AllNames(def)
    ensures var o := Eval(Trial(def, bad, v), map[], Leaf(name), 0, x, 0);
      o.Some? && Carried(o.value.completions, x) == Tag(name, x)
  {
    hide EvalStep;
    var p, leaf := Trial(def, bad, v), Leaf(name);
    TrialStep(def, bad, v, leaf.steps[0], x, 1);
    EvalTurn(p, map[], leaf, 0, x, 0);
    assert Eval(p, map[], leaf, 1, Tag(name, x), 0) == Some(Outline([], Finished(Tag(name, x))));
  }

  /** On any input but the bad one, a node succeeds with its clean output. */
  lemma CleanNode(def: WorkflowDef, bad: string, v: Json, i: nat, x: Json)
    requires Passable(def) && i < Reach(def) && x != v
    ensures EvalNode(Trial(def, bad, v), map[], def, def.steps[i], x, 1) == Some(Done(Clean(def.steps[i], x)))
  {
    hide EvalStep, EvalGroup, Eval;
    var node := def.steps[i];
    NamedSteps(def, i);
    match node.kind
    case Sequential => TrialStep(def, bad, v, node, x, 1);
    case Parallel(children) => CleanGroup(def, bad, v, children, x);
    case Conditional(c, t, f) =>
      TrialStep(def, bad, v, BranchNode(c), x, 1);
      TrialStep(def, bad, v, BranchNode(t), x, 1);
    case SubWorkflow(_) =>
      assert node.name in SubNames(def);
      LeafRuns(def, bad, v, node.name, x);
  }

  /** The value carried into step k when nothing fails. */
  function Value(def: WorkflowDef, k: nat): Json
    requires Passable(def) && k <= Reach(def)
  {
    if k == 0 then Bool(true) else Clean(def.steps[k - 1], Value(def, k - 1))
  }

  lemma {:induction false} ValuesGrow(def: WorkflowDef, a: nat, b: nat)
    requires Passable(def) && a < b <= Reach(def)
    ensures Value(def, a) < Value(def, b)
    decreases b
  {
    CleanGrows(def, b - 1, Value(def, b - 1));
    if a < b - 1 {
      ValuesGrow(def, a, b - 1);
    }
  }

  /** The completions of steps 0 to k - 1 when nothing fails. */
  function CleanRun(def: WorkflowDef, k: nat): (r: seq<Completion>)
    requires Passable(def) && k <= Reach(def)
    ensures |r| == k
    ensures forall m :: 0 <= m < k ==> r[m] == Completion(def.steps[m].name, Value(def, m + 1))
  {
    seq(k, m requires 0 <= m < k => Completion(def.steps[m].name, Value(def, m + 1)))
  }

  /** Up to step k the trial goes cleanly, as long as no value before k is the bad one. */
  lemma {:induction false} TrialPrefix(def: WorkflowDef, bad: string, v: Json, k: nat)
    requires Passable(def) && k <= Reach(def) && forall m :: 0 <= m < k ==> Value(def, m) != v
    ensures var p := Trial(def, bad, v);
      var o, rest := Eval(p, map[], def, 0, Bool(true), 1), Eval(p, map[], def, k, Value(def, k), 1);
      && (o.Some? <==> rest.Some?)
      && (o.Some? ==>
            && o.value.completions == CleanRun(def, k) + rest.value.completions
            && o.value.ending == rest.value.ending)
    decreases k
  {
    hide Eval, EvalNode, Clean;
    var p := Trial(def, bad, v);
    if k == 0 {
      var o := Eval(p, map[], def, 0, Bool(true), 1);
      assert o.Some? ==> CleanRun(def, 0) + o.value.completions == o.value.completions;
    } else {
      TrialPrefix(def, bad, v, k - 1);
      CleanNode(def, bad, v, k - 1, Value(def, k - 1));
      EvalTurn(p, map[], def, k - 1, Value(def, k - 1), 1);
      var rest := Eval(p, map[], def, k, Value(def, k), 1);
      if rest.Some? {
        var last := [Completion(def.steps[k - 1].name, Value(def, k))];
        assert CleanRun(def, k) == CleanRun(def, k - 1) + last;
        ConcatAssociative(CleanRun(def, k - 1), last, rest.value.completions);
      }
    }
  }

  // ---------------------------------------------------------------------------------------------
  // A host for trials
  // ---------------------------------------------------------------------------------------------

  function TotalLength(steps: seq<StepNode>): nat {
    if steps == [] then 0 else |steps[0].name| + TotalLength(steps[1..])
  }

  lemma {:induction false} NameLength(steps: seq<StepNode>, i: nat)
    requires i < |steps|
    ensures |steps[i].name| <= TotalLength(steps)
  {
    if i > 0 {
      NameLength(steps[1..], i - 1);
    }
  }

  /** Ids longer than every name. */
  function LongId(def: WorkflowDef, n: nat): (id: string)
    ensures |id| == TotalLength(def.steps) + 1 + n
  {
    seq(TotalLength(def.steps) + 1 + n, _ => 'x')
  }

  function TrialHost(def: WorkflowDef, bad: string, v: Json): Host {
    Host(Trial(def, bad, v).registry, map[], _ => 0, (n: nat) => LongId(def, n), Trial(def, bad, v).show)
  }

  function TrialSys(def: WorkflowDef, bad: string, v: Json): Sys {
    Sys(map[], Trial(def, bad, v).lib, [], 0)
  }

  lemma TrialHosts(def: WorkflowDef, bad: string, v: Json)
    ensures var h, p, names := TrialHost(def, bad, v), Trial(def, bad, v), SubNames(def);
      Hosts(h, p, names) && Closed(p, def, names) && Ranked(p, names, (_: string) => 0 as nat)
    ensures Knows(TrialSys(def, bad, v), Trial(def, bad, v), SubNames(def))
    ensures Fresh(TrialHost(def, bad, v), TrialSys(def, bad, v))
  {
    var h, p, names := TrialHost(def, bad, v), Trial(def, bad, v), SubNames(def);
    forall n: nat
      ensures h.freshId(n) !in names
    {
      assert |h.freshId(n)| == TotalLength(def.steps) + 1 + n;
      forall i | 0 <= i < |def.steps|
        ensures def.steps[i].name != h.freshId(n)
      {
        NameLength(def.steps, i);
      }
    }
    forall m: nat, n: nat | m != n
      ensures h.freshId(m) != h.freshId(n)
    {
      assert |h.freshId(m)| != |h.freshId(n)|;
    }
    forall n | n in names && n in p.lib
      ensures SubNames(p.lib[n]) == {}
    {
    }
  }

  /** The trial starts, and leaves a log that reads as the trial's outline. */
  lemma TrialStarts(def: WorkflowDef, bad: string, v: Json)
    ensures var h, p, s := TrialHost(def, bad, v), Trial(def, bad, v), TrialSys(def, bad, v);
      var r, o := Start(h, s, def, Bool(true), 1), Eval(p, map[], def, 0, Bool(true), 1);
      && r.Some? && o.Some?
      && var (first, id) := r.value;
         && id in first.logs && Completions(first.logs[id]) == o.value.completions
         && EndsAs(first.logs[id], o.value.ending)
         && OneLife(first.logs[id]) && Ended(first.logs[id]) && first.logs[id][0].input == Bool(true)
         && Fresh(h, first) && Knows(first, p, SubNames(def)) && id !in SubNames(def) && id == h.freshId(0)
  {
    hide RunSteps, Eval, Trial;
    var h, p, s, names := TrialHost(def, bad, v), Trial(def, bad, v), TrialSys(def, bad, v), SubNames(def);
    TrialHosts(def, bad, v);
    StartTerminates(h, p, names, (_: string) => 0 as nat, s, def, Bool(true), 1);
    StartRefines(h, p, names, s, def, Bool(true), 1);
    StartKnows(h, p, names, s, def, Bool(true), 1);
    StartFrame(h, s, def, Bool(true), 1);
    StartLife(h, s, def, Bool(true), 1);
  }

  // ---------------------------------------------------------------------------------------------
  // One crash that tells the difference
  // ---------------------------------------------------------------------------------------------

  /** A log that has not ended holds any smaller number of completions at some cut. */
  lemma {:induction false} CutAt(log: seq<Event>, j: nat) returns (k: nat)
    requires log != [] && !log[0].StepCompleted? && (forall i :: 0 <= i < |log| ==> !log[i].Terminal())
    requires j <= |Completions(log)|
    ensures 0 < k <= |log| && |Completions(log[..k])| == j && !Ended(log[..k])
  {
    if |Completions(log)| == j {
      k := |log|;
      assert log[..k] == log;
    } else {
      var init := log[..|log| - 1];
      assert init == [] ==> Completions(init) == [] && Completions(log) == [];
      k := CutAt(init, j);
      assert init[..k] == log[..k];
    }
  }

  /** The trial, crashed with exactly j completions stored: nothing else is lost, and nothing has ended. */
  lemma CrashWith(def: WorkflowDef, bad: string, v: Json, j: nat) returns (crashed: Sys)
    requires var o := Eval(Trial(def, bad, v), map[], def, 0, Bool(true), 1); o.Some? ==> j <= |o.value.completions|
    ensures var h, p, s := TrialHost(def, bad, v), Trial(def, bad, v), TrialSys(def, bad, v);
      var r, o := Start(h, s, def, Bool(true), 1), Eval(p, map[], def, 0, Bool(true), 1);
      && r.Some? && o.Some?
      && var (first, id) := r.value;
         && Truncated(first, crashed, id) && Fresh(h, crashed) && Knows(crashed, p, SubNames(def))
         && Completions(crashed.logs[id]) == o.value.completions[..j]
         && OneLife(crashed.logs[id]) && !Ended(crashed.logs[id]) && crashed.logs[id][0].input == Bool(true)
  {
    hide Start, Eval, Trial;
    TrialStarts(def, bad, v);
    var h, s := TrialHost(def, bad, v), TrialSys(def, bad, v);
    var (first, id) := Start(h, s, def, Bool(true), 1).value;
    var log := first.logs[id];
    var body := log[..|log| - 1];
    assert log == body + [log[|log| - 1]];
    CompletionsSnoc(body, log[|log| - 1]);
    assert |log| > 1;
    var k := CutAt(body, j);
    assert body[..k] == log[..k];
    CompletionsPrefix(log, k);
    crashed := first.(logs := first.logs[id := log[..k]]);
    assert crashed.logs.Keys == first.logs.Keys;
  }

  /** If resuming such a crash leaves other completions, or another ending, the definition does not always recover. */
  lemma TellsApart(def: WorkflowDef, bad: string, v: Json, crashed: Sys)
    requires var h, s := TrialHost(def, bad, v), TrialSys(def, bad, v);
      var r := Start(h, s, def, Bool(true), 1);
      && r.Some?
      && var (first, id) := r.value;
         && Truncated(first, crashed, id) && Fresh(h, crashed) && Knows(crashed, Trial(def, bad, v), SubNames(def))
         && var resumed := Resume(h, crashed, id, def, 1);
            && resumed.Some?
            && var log, log' := Load(first, id), Load(resumed.value.0, id);
               Completions(log') == Completions(log) && log != [] && log' != [] ==>
                 !SamePayload(log[|log| - 1], log'[|log'| - 1])
    ensures !AlwaysRecovers(def)
  {
    hide Start, Eval, Trial, Resume, SamePayload;
    var h, p, s, names := TrialHost(def, bad, v), Trial(def, bad, v), TrialSys(def, bad, v), SubNames(def);
    TrialHosts(def, bad, v);
    TrialStarts(def, bad, v);
    var (first, id) := Start(h, s, def, Bool(true), 1).value;
    var recovery := Recovery(h, crashed, 1, Resume(h, crashed, id, def, 1).value.0);
    var recoveries := [recovery];
    assert recoveries[..0] == [];
    assert History(first, id, def, recoveries[..0]);
    assert History(first, id, def, recoveries);
    assert SignalsOf(h, id) == map[];
    assert Scenario(h, p, names, s, def, Bool(true), 1, recoveries);
    assert !SameResult(h, s, def, Bool(true), 1, recoveries);
  }

  /** A run only adds completions, and none under a name that is stored. */
  lemma {:induction false} RunAdds(h: Host, s: Sys, id: WorkflowId, def: WorkflowDef, i: nat, current: Json,
                                   done: map<string, Json>, depth: nat)
    requires Fresh(h, s) && id in s.logs && i <= |def.steps|
    ensures var r := RunSteps(h, s, id, def, i, current, done, depth);
      r.Some? ==>
        && id in r.value.logs
        && var before, after := Completions(s.logs[id]), Completions(r.value.logs[id]);
           before <= after && forall q :: |before| <= q < |after| ==> after[q].step !in done
    decreases |def.steps| - i
  {
    hide RunSteps, ExecNode;
    if i == |def.steps| {
      RunEnd(h, s, id, def, i, current, done, depth);
      CompletionsSnoc(s.logs[id], WorkflowCompleted(id, current, Now(h, s)));
    } else if def.steps[i].name in done {
      RunSkip(h, s, id, def, i, current, done, depth);
      RunAdds(h, s, id, def, i + 1, done[def.steps[i].name], done, depth);
    } else {
      RunTurn(h, s, id, def, i, current, done, depth);
      var turn := ExecNode(h, s, id, def, def.steps[i], current, done, depth);
      if turn.Some? {
        var (s1, result) := turn.value;
        var e := Report(h, s1, id, def.steps[i], result);
        NodeStored(h, s, id, def, def.steps[i], current, done, depth, e);
        CompletionsQuiet(s.logs[id], s1.logs[id]);
        CompletionsSnoc(s1.logs[id], e);
        if result.Done? {
          RunAdds(h, Save(s1, id, e), id, def, i + 1, result.output, done, depth);
        }
      }
    }
  }

  lemma ValueNotNull(def: WorkflowDef, k: nat)
    requires Passable(def) && k <= Reach(def)
    ensures Value(def, k) != Null
  {
  }

  /** The trial in which nothing goes wrong: every step up to the end, or up to the first Signal. */
  lemma CleanTrial(def: WorkflowDef)
    requires Passable(def)
    ensures var m, p := Reach(def), Trial(def, "", Null);
      Eval(p, map[], def, 0, Bool(true), 1) ==
      Some(Outline(CleanRun(def, m), if m < |def.steps| then Aborted("Waiting for signal: " + def.steps[m].kind.signal)
                                     else Finished(Value(def, m))))
  {
    hide Eval, Value, Trial, Passable;
    var m, p := Reach(def), Trial(def, "", Null);
    forall q | 0 <= q < m ensures Value(def, q) != Null { ValueNotNull(def, q); }
    TrialPrefix(def, "", Null, m);
    assert CleanRun(def, m) + [] == CleanRun(def, m);
    if m < |def.steps| {
      EvalTurn(p, map[], def, m, Value(def, m), 1);
    } else {
      EvalEnd(p, def, m, Value(def, m));
    }
  }

  /** With a repeated name, a resume passes over the second step of that name and never completes it. */
  lemma RepeatedNameFails(def: WorkflowDef)
    requires Passable(def) && !DistinctUpTo(def, Reach(def))
    ensures !AlwaysRecovers(def)
  {
    hide Start, Eval, Trial, Value, RunSteps, Resume, Hosts, Knows, Closed, Ranked, Fresh, SubNames, Passable;
    var i, j :| 0 <= i < j < Reach(def) && def.steps[i].name == def.steps[j].name;
    CleanTrial(def);
    var crashed := CrashWith(def, "", Null, j);
    var (first, id) := Start(TrialHost(def, "", Null), TrialSys(def, "", Null), def, Bool(true), 1).value;
    TrialStarts(def, "", Null);
    var log := crashed.logs[id];
    ResumeRunsOpenLog(log, id);
    ReplayCompleted(log);
    OutputMapKeys(Completions(log));
    assert DoneNames(log)[i] == def.steps[j].name;
    ResumeAdds(def, crashed, id);
    var after := Completions(Load(Resume(TrialHost(def, "", Null), crashed, id, def, 1).value.0, id));
    assert |after| > j ==> after[j] != CleanRun(def, Reach(def))[j];
    TellsApart(def, "", Null, crashed);
  }

  /** A resume adds no completion under a name it finds stored. */
  lemma ResumeAdds(def: WorkflowDef, crashed: Sys, id: WorkflowId)
    requires id !in SubNames(def)
    requires Fresh(TrialHost(def, "", Null), crashed) && Knows(crashed, Trial(def, "", Null), SubNames(def))
    requires id in crashed.logs && ResumeVerdict(crashed.logs[id], id).None?
    ensures var r := Resume(TrialHost(def, "", Null), crashed, id, def, 1);
      && r.Some? && id in r.value.0.logs
      && var before, after := Completions(crashed.logs[id]), Completions(r.value.0.logs[id]);
         && before <= after
         && forall q :: |before| <= q < |after| ==> after[q].step !in StateOf(crashed.logs[id]).completedSteps
  {
    hide Resume, Trial, RunSteps, Hosts, Knows, Closed, Ranked, Fresh, SubNames;
    var h, p, names := TrialHost(def, "", Null), Trial(def, "", Null), SubNames(def);
    var log, s0 := crashed.logs[id], crashed.(defs := crashed.defs[id := def]);
    var done := StateOf(log).completedSteps;
    TrialHosts(def, "", Null);
    HostsUnnamed(h, p, names);
    FreshKept(h, crashed, s0);
    KnowsMore(p, names, crashed, id, def);
    ResumeRuns(h, crashed, id, def);
    RankedZero(def);
    RunTerminates(h, p, names, (_: string) => 0 as nat, s0, id, def, 0, LastOutput(log), done, 1);
    RunAdds(h, s0, id, def, 0, LastOutput(log), done, 1);
  }

  lemma EvalEnd(p: Program, def: WorkflowDef, i: nat, x: Json)
    requires i >= |def.steps|
    ensures Eval(p, map[], def, i, x, 1) == Some(Outline([], Finished(x)))
  {
  }

  lemma FreshKept(h: Host, s: Sys, s': Sys)
    requires Fresh(h, s) && s'.logs == s.logs && s'.ticks == s.ticks
    ensures Fresh(h, s')
  {
  }

  lemma RankedZero(def: WorkflowDef)
    ensures forall m :: m in SubNames(def) ==> ((_: string) => 0 as nat)(m) < 1
  {
  }

  lemma ResumeRuns(h: Host, s: Sys, id: WorkflowId, def: WorkflowDef)
    requires id in s.logs && ResumeVerdict(s.logs[id], id).None?
    ensures var log := s.logs[id];
      var s0, done := s.(defs := s.defs[id := def]), StateOf(log).completedSteps;
      var run := RunSteps(h, s0, id, def, 0, LastOutput(log), done, 1);
      var r := Resume(h, s, id, def, 1);
      && (r.Some? <==> run.Some?)
      && (run.Some? ==> r.value.0 == run.value)
  {
    hide RunSteps;
  }

  // ---------------------------------------------------------------------------------------------
  // Steps that consult an earlier step
  // ---------------------------------------------------------------------------------------------

  /** What a resume finds stored after the first j steps have gone cleanly. */
  function Stored(def: WorkflowDef, j: nat): map<string, Json>
    requires Passable(def) && j <= Reach(def)
  {
    OutputMap(CleanRun(def, j))
  }

  lemma StoredAt(def: WorkflowDef, j: nat, i: nat)
    requires Passable(def) && DistinctUpTo(def, Reach(def)) && i < j <= Reach(def)
    ensures var n := def.steps[i].name;
      n in Stored(def, j) && Stored(def, j)[n] == Value(def, i + 1)
    ensures forall name :: Stored(def, j)[def.steps[i].name] != Tag(name, Value(def, j))
  {
    hide Value, Tag;
    var run := CleanRun(def, j);
    assert forall m :: 0 <= m < j ==> CompletedNames(run)[m] == def.Names()[m];
    OutputMapAt(run, i);
    forall name
      ensures Value(def, i + 1) != Tag(name, Value(def, j))
    {
      TagGrows(name, Value(def, j));
      if i + 1 < j {
        ValuesGrow(def, i + 1, j);
      }
    }
  }

  lemma StoredIsEarlier(def: WorkflowDef, j: nat, n: string) returns (i: nat)
    requires Passable(def) && j <= Reach(def) && n in Stored(def, j)
    ensures i < j && def.steps[i].name == n
  {
    OutputMapKeys(CleanRun(def, j));
    var k :| 0 <= k < j && CompletedNames(CleanRun(def, j))[k] == n;
    i := k;
  }

  /** At step j, resumed with its predecessors stored, the node comes out as `out`. */
  ghost predicate ResumesTo(def: WorkflowDef, bad: string, v: Json, j: nat, out: Json)
    requires Passable(def) && j < Reach(def) && !def.steps[j].kind.SubWorkflow?
  {
    forall s: Sys, id: WorkflowId ::
      ExecLocal(TrialHost(def, bad, v), s, id, def, def.steps[j], Value(def, j), Stored(def, j)).1 == Done(out)
  }

  /** What the resumed run stores for step j, whatever comes after it. */
  lemma ResumedCompletion(def: WorkflowDef, bad: string, v: Json, j: nat, out: Json, crashed: Sys, id: WorkflowId)
    requires Passable(def) && DistinctUpTo(def, Reach(def)) && j < Reach(def) && !def.steps[j].kind.SubWorkflow?
    requires ResumesTo(def, bad, v, j, out)
    requires Fresh(TrialHost(def, bad, v), crashed) && Knows(crashed, Trial(def, bad, v), SubNames(def))
    requires id !in SubNames(def)
    requires id in crashed.logs && Tracks(def, crashed.logs[id]) && !Ended(crashed.logs[id])
    requires crashed.logs[id][0].input == Bool(true) && Completions(crashed.logs[id]) == CleanRun(def, j)
    ensures var r := Resume(TrialHost(def, bad, v), crashed, id, def, 1);
      && r.Some?
      && CleanRun(def, j) + [Completion(def.steps[j].name, out)] <= Completions(Load(r.value.0, id))
  {
    hide Start, Eval, Trial, Value, RunSteps, Knows, Closed, Ranked, Fresh, SubNames, ExecLocal, Hosts, Unnamed;
    var h, p, names := TrialHost(def, bad, v), Trial(def, bad, v), SubNames(def);
    var log, node := crashed.logs[id], def.steps[j];
    var s0 := crashed.(defs := crashed.defs[id := def]);
    TrialHosts(def, bad, v);
    HostsUnnamed(h, p, names);
    FreshKept(h, crashed, s0);
    KnowsMore(p, names, crashed, id, def);
    ResumeEntry(h, crashed, id, def, Reach(def), 1);
    LastOutputMeaning(log);
    assert LastOutput(log) == Value(def, j) by { ValueZero(def); }
    var value, done := Value(def, j), Stored(def, j);
    RunTurn(h, s0, id, def, j, value, done, 1);
    var (s1, result) := ExecNode(h, s0, id, def, node, value, done, 1).value;
    assert result == Done(out);
    var e := Report(h, s1, id, node, result);
    NodeStored(h, s0, id, def, node, value, done, 1, e);
    CompletionsQuiet(s0.logs[id], s1.logs[id]);
    CompletionsSnoc(s1.logs[id], e);
    NodeKnows(h, p, names, s0, id, def, node, value, done, 1);
    RankedZero(def);
    var s2 := Save(s1, id, e);
    SaveKnows(p, names, s1, id, e);
    RunTerminates(h, p, names, (_: string) => 0 as nat, s2, id, def, j + 1, out, done, 1);
    RunAdds(h, s2, id, def, j + 1, out, done, 1);
    ResumeRuns(h, crashed, id, def);
  }

  lemma HostsUnnamed(h: Host, p: Program, names: set<string>)
    requires Hosts(h, p, names)
    ensures Unnamed(h, names)
  {
  }

  lemma ValueZero(def: WorkflowDef)
    requires Passable(def)
    ensures Value(def, 0) == Bool(true)
  {
  }

  /** If step j comes out differently resumed than uninterrupted, the definition does not always recover. */
  lemma DifferentOutputFails(def: WorkflowDef, bad: string, v: Json, j: nat, out: Json)
    requires Passable(def) && DistinctUpTo(def, Reach(def)) && j < Reach(def) && !def.steps[j].kind.SubWorkflow?
    requires forall m :: 0 <= m < j ==> Value(def, m) != v
    requires ResumesTo(def, bad, v, j, out)
    requires EvalNode(Trial(def, bad, v), map[], def, def.steps[j], Value(def, j), 1) != Some(Done(out))
    ensures !AlwaysRecovers(def)
  {
    hide Start, Eval, EvalNode, Trial, Value, Resume, Hosts, Knows, Closed, Ranked, Fresh, SubNames, Passable;
    hide ResumesTo;
    var h, p, s := TrialHost(def, bad, v), Trial(def, bad, v), TrialSys(def, bad, v);
    TrialHosts(def, bad, v);
    TrialStarts(def, bad, v);
    TrialPrefix(def, bad, v, j);
    EvalTurn(p, map[], def, j, Value(def, j), 1);
    assert Halts(h, h.freshId(0), def, Reach(def), {});
    StartTracks(h, s, def, Reach(def), Bool(true), 1);
    var crashed := CrashWith(def, bad, v, j);
    var (first, id) := Start(h, s, def, Bool(true), 1).value;
    var log, cut := first.logs[id], crashed.logs[id];
    assert log[..|cut|] == cut;
    TracksPrefix(def, log, |cut|);
    ResumedCompletion(def, bad, v, j, out, crashed, id);
    var resumed := Completions(Load(Resume(h, crashed, id, def, 1).value.0, id));
    assert resumed[j] == Completion(def.steps[j].name, out);
    TellsApart(def, bad, v, crashed);
  }

  lemma TrialExec(def: WorkflowDef, bad: string, v: Json, s: Sys, id: WorkflowId, node: StepNode, x: Json)
    requires node.name in AllNames(def)
    ensures var r := ExecStep(TrialHost(def, bad, v), s, id, node, x, 1).1;
      if node.name == bad && x == v then r.Err? else r == Ok(Tag(node.name, x))
  {
    hide ExecStep, EvalStep, Trial;
    TrialHosts(def, bad, v);
    StepRefines(TrialHost(def, bad, v), Trial(def, bad, v), s, id, node, x, 1);
    TrialStep(def, bad, v, node, x, 1);
  }

  /** The outputs of a resumed group: stored where stored, clean otherwise. */
  function Resumed(children: seq<string>, x: Json, done: map<string, Json>): map<string, Json> {
    map c | c in children :: if c in done then done[c] else Tag(c, x)
  }

  lemma ResumedCons(children: seq<string>, x: Json, done: map<string, Json>, merged: map<string, Json>)
    requires children != []
    ensures var child := children[0];
      merged[child := if child in done then done[child] else Tag(child, x)] + Resumed(children[1..], x, done)
      == merged + Resumed(children, x, done)
  {
    hide Tag;
    assert forall c :: c in children <==> c == children[0] || c in children[1..];
  }

  lemma {:induction false} TrialGroup(def: WorkflowDef, s: Sys, id: WorkflowId, children: seq<string>, x: Json,
                                      done: map<string, Json>, merged: map<string, Json>)
    requires x != Null && forall c :: c in children ==> c in def.Names()
    ensures ExecGroup(TrialHost(def, "", Null), s, id, def, children, x, done, merged).1
         == Ok(Object(merged + Resumed(children, x, done)))
    decreases |children|
  {
    hide ExecStep, Tag, Trial, Resumed, TrialHost;
    var h := TrialHost(def, "", Null);
    if children == [] {
      ResumedNothing(x, done, merged);
    } else {
      var child, rest := children[0], children[1..];
      ResumedCons(children, x, done, merged);
      if child in done {
        TrialGroup(def, s, id, rest, x, done, merged[child := done[child]]);
      } else {
        FindKnown(def, child);
        var node := FindStep(def.steps, child).value;
        TrialExec(def, "", Null, s, id, node, x);
        TrialGroup(def, ExecStep(h, s, id, node, x, 1).0, id, rest, x, done, merged[child := Tag(child, x)]);
      }
    }
  }

  lemma ResumedNothing(x: Json, done: map<string, Json>, merged: map<string, Json>)
    ensures merged + Resumed([], x, done) == merged
  {
  }

  /** A group that has an earlier step among its children. */
  lemma EarlierChildFails(def: WorkflowDef, i: nat, j: nat)
    requires Passable(def) && DistinctUpTo(def, Reach(def)) && i < j < Reach(def)
    requires def.steps[j].kind.Parallel? && def.steps[i].name in def.steps[j].kind.children
    ensures !AlwaysRecovers(def)
  {
    hide Value, EvalNode, ExecGroup, Trial, Stored;
    var x, done, children := Value(def, j), Stored(def, j), def.steps[j].kind.children;
    var m := Resumed(children, x, done);
    forall k | 0 <= k <= j ensures Value(def, k) != Null { ValueNotNull(def, k); }
    forall s: Sys, id: WorkflowId
      ensures ExecLocal(TrialHost(def, "", Null), s, id, def, def.steps[j], x, done).1 == Done(Object(m))
    {
      TrialGroup(def, s, id, children, x, done, map[]);
      assert map[] + m == m;
    }
    CleanNode(def, "", Null, j, x);
    StoredAt(def, j, i);
    var n := def.steps[i].name;
    var clean := map c | c in children :: Tag(c, x);
    assert m[n] == done[n] && clean[n] == Tag(n, x);
    DifferentOutputFails(def, "", Null, j, Object(m));
  }

  /** A branch that has an earlier step as its target when the condition holds. */
  lemma EarlierTrueTargetFails(def: WorkflowDef, i: nat, j: nat)
    requires Passable(def) && DistinctUpTo(def, Reach(def)) && i < j < Reach(def)
    requires def.steps[j].kind.Conditional? && def.steps[i].name == def.steps[j].kind.onTrue
    ensures !AlwaysRecovers(def)
  {
    hide Value, EvalNode, ExecStep, Trial, Tag, Stored;
    var x, done, t := Value(def, j), Stored(def, j), def.steps[j].kind.onTrue;
    forall k | 0 <= k <= j ensures Value(def, k) != Null { ValueNotNull(def, k); }
    NamedSteps(def, j);
    StoredAt(def, j, i);
    forall s: Sys, id: WorkflowId
      ensures ExecLocal(TrialHost(def, "", Null), s, id, def, def.steps[j], x, done).1 == Done(done[t])
    {
      TrialExec(def, "", Null, s, id, BranchNode(def.steps[j].kind.condition), x);
    }
    CleanNode(def, "", Null, j, x);
    DifferentOutputFails(def, "", Null, j, done[t]);
  }

  /** What a branch comes to, uninterrupted, when its condition fails. */
  lemma BranchNotTaken(def: WorkflowDef, j: nat, x: Json)
    requires j < |def.steps| && def.steps[j].kind.Conditional?
    ensures var c, f := def.steps[j].kind.condition, def.steps[j].kind.onFalse;
      var r := EvalNode(Trial(def, c, x), map[], def, def.steps[j], x, 1);
      r.Some? && if f == c then r.value.Broke? else r == Some(Done(Tag(f, x)))
  {
    hide EvalStep, Trial;
    NamedSteps(def, j);
    var c, f := def.steps[j].kind.condition, def.steps[j].kind.onFalse;
    TrialStep(def, c, x, BranchNode(c), x, 1);
    TrialStep(def, c, x, BranchNode(f), x, 1);
  }

  /** A branch whose other target, or whose condition, is an earlier step, unless both targets are the same. */
  lemma EarlierConditionFails(def: WorkflowDef, i: nat, j: nat)
    requires Passable(def) && DistinctUpTo(def, Reach(def)) && i < j < Reach(def)
    requires def.steps[j].kind.Conditional?
    requires var node := def.steps[j].kind;
      && node.onTrue !in Stored(def, j) && node.onTrue != node.onFalse
      && (def.steps[i].name == node.condition || def.steps[i].name == node.onFalse)
    ensures !AlwaysRecovers(def)
  {
    hide Value, EvalNode, ExecStep, Trial, Tag, Stored, Passable;
    var x, done := Value(def, j), Stored(def, j);
    var c, t, f := def.steps[j].kind.condition, def.steps[j].kind.onTrue, def.steps[j].kind.onFalse;
    forall m | 0 <= m < j ensures Value(def, m) != x { ValuesGrow(def, m, j); }
    NamedSteps(def, j);
    StoredAt(def, j, i);
    BranchNotTaken(def, j, x);
    TagsDiffer(t, f, x);
    var out := if c in done then Tag(t, x) else done[f];
    forall s: Sys, id: WorkflowId
      ensures ExecLocal(TrialHost(def, c, x), s, id, def, def.steps[j], x, done).1 == Done(out)
    {
      TrialExec(def, c, x, s, id, BranchNode(c), x);
      TrialExec(def, c, x, s, id, BranchNode(t), x);
    }
    DifferentOutputFails(def, c, x, j, out);
  }

  lemma TagsDiffer(a: string, b: string, x: Json)
    requires a != b
    ensures Tag(a, x) != Tag(b, x)
  {
    assert Tag(a, x).items[0] == String(a) && Tag(b, x).items[0] == String(b);
  }

  lemma ConsultingEarlierFails(def: WorkflowDef, i: nat, j: nat)
    requires Passable(def) && DistinctUpTo(def, Reach(def)) && i < j < Reach(def)
    requires def.steps[i].name in Decisive(def.steps[j])
    ensures !AlwaysRecovers(def)
  {
    hide AlwaysRecovers, Stored;
    match def.steps[j].kind
    case Parallel(_) => EarlierChildFails(def, i, j);
    case Conditional(c, t, f) =>
      if t in Stored(def, j) {
        var k := StoredIsEarlier(def, j, t);
        EarlierTrueTargetFails(def, k, j);
      } else {
        StoredAt(def, j, i);
        EarlierConditionFails(def, i, j);
      }
    case _ =>
  }

  // ---------------------------------------------------------------------------------------------
  // Stored outputs that lead past the first wait
  // ---------------------------------------------------------------------------------------------

  /** In front of the first Signal a resumed trial goes on as cleanly as it began. */
  lemma {:induction false} ResumesCleanly(def: WorkflowDef, s: Sys, id: WorkflowId, i: nat, done: map<string, Json>)
    returns (s': Sys)
    requires Passable(def) && i <= Reach(def) && Unaffected(def, i, Reach(def), done) && id in s.logs
    requires var h, p := TrialHost(def, "", Null), Trial(def, "", Null); Fresh(h, s) && Knows(s, p, SubNames(def))
    requires SignalsOf(TrialHost(def, "", Null), id) == map[] && Completions(s.logs[id]) == CleanRun(def, i)
    ensures var h, p, m := TrialHost(def, "", Null), Trial(def, "", Null), Reach(def);
      && Fresh(h, s') && Knows(s', p, SubNames(def)) && id in s'.logs && Completions(s'.logs[id]) == CleanRun(def, m)
      && RunSteps(h, s, id, def, i, Value(def, i), done, 1) == RunSteps(h, s', id, def, m, Value(def, m), done, 1)
    decreases Reach(def) - i
  {
    hide RunSteps, ExecNode, EvalNode, Eval, Trial, TrialHost, Value, Clean;
    hide Hosts, Knows, Closed, Ranked, Fresh, Passable;
    if i == Reach(def) {
      s' := s;
    } else {
      var h, p, value := TrialHost(def, "", Null), Trial(def, "", Null), Value(def, i);
      TrialHosts(def, "", Null);
      UnaffectedStep(def, i, Reach(def), done);
      ValueNotNull(def, i);
      CleanNode(def, "", Null, i, value);
      TurnRefines(h, p, SubNames(def), s, id, def, i, value, done, 1);
      RunTurn(h, s, id, def, i, value, done, 1);
      var (s1, result) := ExecNode(h, s, id, def, def.steps[i], value, done, 1).value;
      ValueNext(def, i);
      assert CleanRun(def, i + 1) == CleanRun(def, i) + [Completion(def.steps[i].name, result.output)];
      s' := ResumesCleanly(def, Save(s1, id, Report(h, s1, id, def.steps[i], result)), id, i + 1, done);
    }
  }

  lemma ValueNext(def: WorkflowDef, i: nat)
    requires Passable(def) && i < Reach(def)
    ensures Value(def, i + 1) == Clean(def.steps[i], Value(def, i))
  {
  }

  lemma WaitsDiffer(x: string, y: string)
    requires "Waiting for signal: " + x == "Waiting for signal: " + y
    ensures x == y
  {
    var prefix := "Waiting for signal: ";
    assert (prefix + x)[|prefix|..] == x && (prefix + y)[|prefix|..] == y;
  }

  /** In a trial, a node that fails says nothing, unless it waits. */
  lemma NodeSilent(def: WorkflowDef, s: Sys, id: WorkflowId, node: StepNode, input: Json, done: map<string, Json>,
                   signal: string)
    requires var r := ExecNode(TrialHost(def, "", Null), s, id, def, node, input, done, 1);
      r.Some? && r.value.1 == Broke("Waiting for signal: " + signal)
    ensures node.kind == Signal(signal)
  {
    hide ExecStep, ExecGroup, ExecConditional, Start;
    assert "Waiting for signal: " + signal != "";
    if node.kind.Signal? {
      WaitsDiffer(signal, node.kind.signal);
    }
  }

  /** A trial that does not stop for this signal completes a step more, or ends in another way. */
  lemma {:induction false} PastTheWait(def: WorkflowDef, s: Sys, id: WorkflowId, i: nat, current: Json,
                                       done: map<string, Json>, signal: string)
    requires i <= |def.steps| && !Stops(def, i, done.Keys, signal)
    requires Fresh(TrialHost(def, "", Null), s) && id in s.logs
    ensures var r := RunSteps(TrialHost(def, "", Null), s, id, def, i, current, done, 1);
      r.Some? ==>
        && id in r.value.logs && r.value.logs[id] != []
        && var log := r.value.logs[id];
           Completions(log) == Completions(s.logs[id]) ==>
             !(log[|log| - 1].WorkflowFailed? && log[|log| - 1].reason == "Waiting for signal: " + signal)
    decreases |def.steps| - i
  {
    hide RunSteps, ExecNode, Fresh, TrialHost;
    var h := TrialHost(def, "", Null);
    if i == |def.steps| {
      RunEnd(h, s, id, def, i, current, done, 1);
    } else if def.steps[i].name in done {
      RunSkip(h, s, id, def, i, current, done, 1);
      PastTheWait(def, s, id, i + 1, done[def.steps[i].name], done, signal);
    } else {
      RunTurn(h, s, id, def, i, current, done, 1);
      var node, turn := def.steps[i], ExecNode(h, s, id, def, def.steps[i], current, done, 1);
      if turn.Some? {
        var (s1, result) := turn.value;
        var e := Report(h, s1, id, node, result);
        NodeStored(h, s, id, def, node, current, done, 1, e);
        CompletionsQuiet(s.logs[id], s1.logs[id]);
        CompletionsSnoc(s1.logs[id], e);
        if result.Done? {
          RunAdds(h, Save(s1, id, e), id, def, i + 1, result.output, done, 1);
          RunAdds(h, s, id, def, i, current, done, 1);
          RunStepsFrame(h, s, id, def, i, current, done, 1);
        } else if result.reason == "Waiting for signal: " + signal {
          NodeSilent(def, s, id, node, current, done, signal);
        }
      }
    }
  }

  /** With k of the steps before the wait stored, the resumed run gets past it, and the uninterrupted one does not. */
  lemma OvertakenWaitFails(def: WorkflowDef, k: nat)
    requires Passable(def) && Clear(def, Reach(def)) && Reach(def) < |def.steps| && k <= Reach(def)
    requires !Stops(def, Reach(def), FirstNames(def, k), def.steps[Reach(def)].kind.signal)
    ensures !AlwaysRecovers(def)
  {
    hide Start, Eval, Trial, Value, RunSteps, Resume, Hosts, Knows, Closed, Ranked, Fresh, SubNames;
    hide Passable, Clear, Stops;
    var h, p, s, m := TrialHost(def, "", Null), Trial(def, "", Null), TrialSys(def, "", Null), Reach(def);
    var signal := def.steps[m].kind.signal;
    TrialHosts(def, "", Null);
    CleanTrial(def);
    TrialStarts(def, "", Null);
    ClearDistinct(def, m);
    StoppedAtOnce(h, h.freshId(0), def, m);
    StartTracks(h, s, def, m, Bool(true), 1);
    var crashed := CrashWith(def, "", Null, k);
    var (first, id) := Start(h, s, def, Bool(true), 1).value;
    var log, cut := first.logs[id], crashed.logs[id];
    assert log[..|cut|] == cut;
    TracksPrefix(def, log, |cut|);
    assert CleanRun(def, m)[..k] == CleanRun(def, k);
    OvertakingResume(def, crashed, id, k);
    TellsApart(def, "", Null, crashed);
  }

  lemma StoppedAtOnce(h: Host, id: WorkflowId, def: WorkflowDef, m: nat)
    requires m < |def.steps| && def.steps[m].kind.Signal? && !HasSignal(h, id, def.steps[m].kind.signal)
    ensures Halts(h, id, def, m, {})
  {
  }

  lemma OvertakingResume(def: WorkflowDef, crashed: Sys, id: WorkflowId, k: nat)
    requires Passable(def) && Clear(def, Reach(def)) && Reach(def) < |def.steps| && k <= Reach(def)
    requires !Stops(def, Reach(def), FirstNames(def, k), def.steps[Reach(def)].kind.signal)
    requires Fresh(TrialHost(def, "", Null), crashed) && Knows(crashed, Trial(def, "", Null), SubNames(def))
    requires id !in SubNames(def)
    requires id in crashed.logs && Tracks(def, crashed.logs[id]) && !Ended(crashed.logs[id])
    requires crashed.logs[id][0].input == Bool(true) && Completions(crashed.logs[id]) == CleanRun(def, k)
    ensures var r := Resume(TrialHost(def, "", Null), crashed, id, def, 1);
      && r.Some? && id in r.value.0.logs && r.value.0.logs[id] != []
      && var log := r.value.0.logs[id];
         Completions(log) == CleanRun(def, Reach(def)) ==>
           !(log[|log| - 1].WorkflowFailed?
             && log[|log| - 1].reason == "Waiting for signal: " + def.steps[Reach(def)].kind.signal)
  {
    hide Trial, Value, RunSteps, Resume, Hosts, Knows, Closed, Ranked, Fresh, SubNames, Passable, Clear, Stops;
    var h, p, names, m := TrialHost(def, "", Null), Trial(def, "", Null), SubNames(def), Reach(def);
    var log, s0 := crashed.logs[id], crashed.(defs := crashed.defs[id := def]);
    TrialHosts(def, "", Null);
    HostsUnnamed(h, p, names);
    FreshKept(h, crashed, s0);
    KnowsMore(p, names, crashed, id, def);
    ClearDistinct(def, m);
    ResumeEntry(h, crashed, id, def, m, 1);
    LastOutputMeaning(log);
    assert LastOutput(log) == Value(def, k) by { ValueZero(def); }
    var done := StateOf(log).completedSteps;
    PrefixUnaffected(def, m, k, done);
    var s1 := ResumesCleanly(def, s0, id, k, done);
    PastTheWait(def, s1, id, m, Value(def, m), done, def.steps[m].kind.signal);
    RankedZero(def);
    RunTerminates(h, p, names, (_: string) => 0 as nat, s0, id, def, k, Value(def, k), done, 1);
    ResumeRuns(h, crashed, id, def);
  }

  /**
   * Exactly when crash recovery works: a definition in which no step in front of the first Signal is bound to
   * fail recovers from every crash, under every program, if and only if those steps have distinct names, none
   * of their outcomes can hang on the stored output of an earlier one, and storing them leads past no wait.
   */
  lemma RecoversExactlyWhenRecoverable(def: WorkflowDef)
    requires Passable(def)
    ensures AlwaysRecovers(def) <==> Recoverable(def)
  {
    hide SameResult, Stops, Decisive;
    var m := Reach(def);
    if Recoverable(def) {
      forall h, p, names, s, input, depth, recoveries | Scenario(h, p, names, s, def, input, depth, recoveries)
        ensures SameResult(h, s, def, input, depth, recoveries)
      {
        CrashRecovery(h, p, names, s, def, input, depth, recoveries);
      }
    } else if !DistinctUpTo(def, m) {
      RepeatedNameFails(def);
    } else if !Clear(def, m) {
      var i, j :| 0 <= i < j < m && def.steps[i].name in Decisive(def.steps[j]);
      ConsultingEarlierFails(def, i, j);
    } else {
      var k :| 0 <= k <= m && !Stops(def, m, FirstNames(def, k), def.steps[m].kind.signal);
      OvertakenWaitFails(def, k);
    }
  }

  /** A wait under an earlier step's name, passed over by a resume, does no harm if the same wait follows. */
  lemma SameWaitAgain(a: StepNode, b: StepNode, c: StepNode)
    requires a.kind == Sequential && b.kind.Signal? && c.kind == b.kind
    requires a.name == b.name && b.name != c.name
    ensures var def := WorkflowDef("", [a, b, c], map[]);
      Reach(def) == 1 && !DistinctUpTo(def, 2) && AlwaysRecovers(def)
  {
    hide AlwaysRecovers;
    var def := WorkflowDef("", [a, b, c], map[]);
    assert def.steps[0] == a && def.steps[1] == b && def.steps[2] == c;
    var m := Reach(def);
    assert m == 1;
    forall k | 0 <= k <= 1
      ensures Stops(def, 1, FirstNames(def, k), b.kind.signal)
    {
      assert FirstNames(def, k) == if k == 0 then {} else {a.name};
      assert Stops(def, 2, FirstNames(def, k), b.kind.signal);
    }
    assert Waits(def, m);
    RecoversExactlyWhenRecoverable(def);
  }
}
