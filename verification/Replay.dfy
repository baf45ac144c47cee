/** Rebuilding a workflow's state from its log, and reading values back from the log. */
module Replay {
  import opened Types

  /** completedOrder is the insertion order of completedSteps: the order in which keys() lists it. */
  datatype State = State(
    workflowId: WorkflowId,
    status: WorkflowStatus,
    completedSteps: map<string, Json>,
    completedOrder: seq<string>,
    failedSteps: map<string, WorkflowError>,
    currentStep: string,
    stepAttempts: map<string, int>)

  function NewState(id: WorkflowId): State {
    State(id, Pending, map[], [], map[], "", map[])
  }

  function Apply(state: Option<State>, e: Event): State {
    match state
    case None =>
      if e.WorkflowStarted? then NewState("").(status := Running) else NewState("")
    case Some(s) =>
      match e
      case WorkflowStarted(_, _, _, _) => s
      case StepStarted(_, step, attempt, _) =>
        s.(currentStep := step, stepAttempts := s.stepAttempts[step := attempt])
      case StepCompleted(_, step, output, _) =>
        s.(completedSteps := s.completedSteps[step := output],
           completedOrder := if step in s.completedSteps then s.completedOrder else s.completedOrder + [step],
           failedSteps := s.failedSteps - {step})
      case StepFailed(_, step, reason, _, _) =>
        s.(failedSteps := s.failedSteps[step := StepFailedError(step, reason)])
      case StepRetrying(_, step, attempt, _, _) =>
        s.(stepAttempts := s.stepAttempts[step := attempt])
      case WorkflowCompleted(_, _, _) => s.(status := Completed)
      case WorkflowFailed(_, _, _) => s.(status := Failed)
  }

  /** Applying the events in order, starting from an optional state. */
  function ReplayFrom(start: Option<State>, events: seq<Event>): (r: Option<State>)
    ensures start.Some? || events != [] ==> r.Some?
  {
    if events == [] then start
    else Some(Apply(ReplayFrom(start, events[..|events| - 1]), events[|events| - 1]))
  }

  function ReplayEvents(events: seq<Event>): Result<State> {
    match ReplayFrom(None, events)
    case Some(s) => Ok(s)
    case None => Err(SerializationError("empty event log"))
  }

  /** Replaying a + b continues the replay of a over b. */
  lemma {:induction false} ReplayComposes(start: Option<State>, a: seq<Event>, b: seq<Event>)
    ensures ReplayFrom(start, a + b) == ReplayFrom(ReplayFrom(start, a), b)
  {
    if b == [] {
      assert a + b == a;
    } else {
      ReplayComposes(start, a, b[..|b| - 1]);
      assert (a + b)[..|a + b| - 1] == a + b[..|b| - 1];
    }
  }

  lemma ReplaySnoc(log: seq<Event>, e: Event)
    ensures ReplayFrom(None, log + [e]) == Some(Apply(ReplayFrom(None, log), e))
  {
    assert (log + [e])[..|log|] == log;
  }

  /** The state of a log with at least one event. */
  function StateOf(log: seq<Event>): (s: State)
    requires log != []
    ensures ReplayEvents(log) == Ok(s)
  {
    ReplayFrom(None, log).value
  }

  /** Outputs by step name, the last one winning. */
  function OutputMap(done: seq<Completion>): (m: map<string, Json>)
  {
    if done == [] then map[]
    else
      var last := done[|done| - 1];
      OutputMap(done[..|done| - 1])[last.step := last.output]
  }

  lemma OutputMapSnoc(done: seq<Completion>, c: Completion)
    ensures OutputMap(done + [c]) == OutputMap(done)[c.step := c.output]
  {
    assert (done + [c])[..|done|] == done;
  }

  lemma {:induction false} OutputMapKeys(done: seq<Completion>)
    ensures forall n :: n in OutputMap(done) <==> n in CompletedNames(done)
  {
    if done != [] {
      var init, last := done[..|done| - 1], done[|done| - 1];
      OutputMapKeys(init);
      assert done == init + [last];
      CompletedNamesSnoc(init, last);
    }
  }

  lemma {:induction false} OutputMapAt(done: seq<Completion>, i: nat)
    requires i < |done|
    requires NoDuplicates(CompletedNames(done))
    ensures done[i].step in OutputMap(done) && OutputMap(done)[done[i].step] == done[i].output
  {
    var init := done[..|done| - 1];
    var names := CompletedNames(done);
    assert forall k :: 0 <= k < |init| ==> CompletedNames(init)[k] == names[k];
    if i < |done| - 1 {
      OutputMapAt(init, i);
      assert names[i] != names[|done| - 1];
    }
  }

  /** What replay says about completed steps is what the StepCompleted events say. */
  lemma {:induction false} ReplayCompleted(log: seq<Event>)
    requires log != [] && log[0].WorkflowStarted?
    ensures StateOf(log).completedSteps == OutputMap(Completions(log))
    ensures NoDuplicates(CompletedNames(Completions(log))) ==>
              StateOf(log).completedOrder == CompletedNames(Completions(log))
  {
    if |log| == 1 {
      assert log[..0] == [];
      assert ReplayFrom(None, log[..0]) == None;
      assert Completions(log[..0]) == [];
    } else {
      var init, e := log[..|log| - 1], log[|log| - 1];
      ReplayCompleted(init);
      if e.StepCompleted? {
        var done := Completions(init);
        OutputMapSnoc(done, Completion(e.step, e.output));
        CompletedNamesSnoc(done, Completion(e.step, e.output));
        NoDuplicatesSnoc(CompletedNames(done), e.step);
        OutputMapKeys(done);
      }
    }
  }

  /** A workflow is running until its log holds a terminal event; a log that ends with one has the status it says. */
  lemma {:induction false} ReplayStatus(log: seq<Event>)
    requires log != [] && log[0].WorkflowStarted?
    ensures (forall i :: 0 <= i < |log| ==> !log[i].Terminal()) ==> StateOf(log).status == Running
    ensures log[|log| - 1].WorkflowCompleted? ==> StateOf(log).status == Completed
    ensures log[|log| - 1].WorkflowFailed? ==> StateOf(log).status == Failed
  {
    if |log| == 1 {
      assert ReplayFrom(None, log[..0]) == None;
    } else {
      ReplayStatus(log[..|log| - 1]);
    }
  }

  /** Behind the first event, the last terminal event decides the status, whatever else the log holds. */
  lemma {:induction false} LastTerminalDecides(log: seq<Event>, i: nat)
    requires 0 < i < |log| && log[i].Terminal()
    requires forall j :: i < j < |log| ==> !log[j].Terminal()
    ensures StateOf(log).status == if log[i].WorkflowCompleted? then Completed else Failed
  {
    if i < |log| - 1 {
      LastTerminalDecides(log[..|log| - 1], i);
    }
  }

  /** The step of the newest StepStarted event; the empty name when there is none. */
  function NewestBegun(log: seq<Event>): string {
    if log == [] then ""
    else if log[|log| - 1].StepStarted? then log[|log| - 1].step
    else NewestBegun(log[..|log| - 1])
  }

  /** The current step of a replayed log is the one that began last; no replayed log is cancelled. */
  lemma {:induction false} ReplayCurrent(log: seq<Event>)
    requires log != [] && log[0].WorkflowStarted?
    ensures StateOf(log).currentStep == NewestBegun(log) && StateOf(log).status != Cancelled
  {
    if |log| == 1 {
      assert ReplayFrom(None, log[..0]) == None;
      assert NewestBegun(log[..0]) == "";
    } else {
      ReplayCurrent(log[..|log| - 1]);
    }
  }

  /** Behind the first event, position i holds the newest word on whether the step has failed: it has. */
  ghost predicate LastFailed(log: seq<Event>, i: int, step: string) {
    && 0 < i < |log| && log[i].StepFailed? && log[i].step == step
    && forall j :: i < j < |log| && (log[j].StepFailed? || log[j].StepCompleted?) ==> log[j].step != step
  }

  /** Behind the first event, position i holds the newest output of the step. */
  ghost predicate LastCompleted(log: seq<Event>, i: int, step: string) {
    && 0 < i < |log| && log[i].StepCompleted? && log[i].step == step
    && forall j :: i < j < |log| && log[j].StepCompleted? ==> log[j].step != step
  }

  /** Behind the first event, position i holds the newest number of an attempt at the step, begun or announced. */
  ghost predicate LastAttempt(log: seq<Event>, i: int, step: string) {
    && 0 < i < |log| && (log[i].StepStarted? || log[i].StepRetrying?) && log[i].step == step
    && forall j :: i < j < |log| && (log[j].StepStarted? || log[j].StepRetrying?) ==> log[j].step != step
  }

  /**
   * What replay knows of failed steps, for any log: exactly the steps whose newest failure no completion
   * follows, each with that failure's reason.
   */
  lemma {:induction false} ReplayFailed(log: seq<Event>, step: string)
    requires log != []
    ensures step in StateOf(log).failedSteps <==> exists i :: LastFailed(log, i, step)
    ensures forall i :: LastFailed(log, i, step) ==>
              && step in StateOf(log).failedSteps
              && StateOf(log).failedSteps[step] == StepFailedError(step, log[i].reason)
  {
    var n := |log| - 1;
    if n == 0 {
      assert ReplayFrom(None, log[..0]) == None;
    } else {
      var init, e := log[..n], log[n];
      ReplayFailed(init, step);
      if (e.StepFailed? || e.StepCompleted?) && e.step == step {
        assert e.StepFailed? ==> LastFailed(log, n, step);
      } else {
        forall i
          ensures LastFailed(log, i, step) <==> LastFailed(init, i, step)
        {
        }
      }
    }
  }

  /** What replay knows of outputs, for any log: each completed step's newest one. */
  lemma {:induction false} ReplayOutputs(log: seq<Event>, step: string)
    requires log != []
    ensures step in StateOf(log).completedSteps <==> exists i :: LastCompleted(log, i, step)
    ensures forall i :: LastCompleted(log, i, step) ==>
              step in StateOf(log).completedSteps && StateOf(log).completedSteps[step] == log[i].output
  {
    var n := |log| - 1;
    if n == 0 {
      assert ReplayFrom(None, log[..0]) == None;
    } else {
      var init, e := log[..n], log[n];
      ReplayOutputs(init, step);
      if e.StepCompleted? && e.step == step {
        assert LastCompleted(log, n, step);
      } else {
        forall i
          ensures LastCompleted(log, i, step) <==> LastCompleted(init, i, step)
        {
        }
      }
    }
  }

  /** The positions, in order, at which these steps first complete behind the first event. */
  ghost predicate FirstCompletions(log: seq<Event>, at: seq<nat>, steps: seq<string>) {
    && |at| == |steps|
    && (forall m, n :: 0 <= m < n < |at| ==> at[m] < at[n])
    && forall m :: 0 <= m < |at| ==> FirstCompletion(log, at[m], steps[m])
  }

  ghost predicate FirstCompletion(log: seq<Event>, i: nat, step: string) {
    && 0 < i < |log| && log[i].StepCompleted? && log[i].step == step
    && forall j :: 0 < j < i && log[j].StepCompleted? ==> log[j].step != step
  }

  lemma FirstCompletionsStay(log: seq<Event>, e: Event, at: seq<nat>, steps: seq<string>)
    requires FirstCompletions(log, at, steps)
    ensures FirstCompletions(log + [e], at, steps)
  {
  }

  lemma FirstCompletionsSnoc(log: seq<Event>, at: seq<nat>, steps: seq<string>, step: string)
    requires log != [] && FirstCompletions(log[..|log| - 1], at, steps) && FirstCompletion(log, |log| - 1, step)
    ensures FirstCompletions(log, at + [|log| - 1], steps + [step])
  {
    assert log == log[..|log| - 1] + [log[|log| - 1]];
    FirstCompletionsStay(log[..|log| - 1], log[|log| - 1], at, steps);
  }

  /**
   * The order of the completed steps, for any log: each once, at the place of its first completion behind the
   * first event, however often it completes.
   */
  lemma {:induction false} ReplayOrder(log: seq<Event>) returns (at: seq<nat>)
    requires log != []
    ensures FirstCompletions(log, at, StateOf(log).completedOrder) && NoDuplicates(StateOf(log).completedOrder)
    ensures forall n :: n in StateOf(log).completedOrder <==> n in StateOf(log).completedSteps
  {
    var n := |log| - 1;
    at := [];
    if n == 0 {
      assert ReplayFrom(None, log[..0]) == None;
    } else {
      hide FirstCompletions, FirstCompletion;
      var init, e := log[..n], log[n];
      assert log == init + [e];
      at := ReplayOrder(init);
      var st := StateOf(init);
      if e.StepCompleted? && e.step !in st.completedSteps {
        NoDuplicatesSnoc(st.completedOrder, e.step);
        NotYetCompleted(log);
        FirstCompletionsSnoc(log, at, st.completedOrder, e.step);
        at := at + [n];
      } else {
        FirstCompletionsStay(init, e, at, st.completedOrder);
      }
    }
  }

  lemma NotYetCompleted(log: seq<Event>)
    requires |log| > 1 && log[|log| - 1].StepCompleted?
    requires log[|log| - 1].step !in StateOf(log[..|log| - 1]).completedSteps
    ensures FirstCompletion(log, |log| - 1, log[|log| - 1].step)
  {
    hide StateOf;
    var n, step := |log| - 1, log[|log| - 1].step;
    forall j | 0 < j < n && log[j].StepCompleted?
      ensures log[j].step != step
    {
      NotCompletedYet(log[..n], j, step);
    }
  }

  lemma {:induction false} NotCompletedYet(log: seq<Event>, j: nat, step: string)
    requires 0 < j < |log| && log[j].StepCompleted? && step !in StateOf(log).completedSteps
    ensures log[j].step != step
  {
    if j < |log| - 1 {
      NotCompletedYet(log[..|log| - 1], j, step);
    }
  }

  /** What replay knows of attempts, for any log: the newest number begun or announced. */
  lemma {:induction false} ReplayAttempts(log: seq<Event>, step: string)
    requires log != []
    ensures step in StateOf(log).stepAttempts <==> exists i :: LastAttempt(log, i, step)
    ensures forall i :: LastAttempt(log, i, step) ==>
              step in StateOf(log).stepAttempts && StateOf(log).stepAttempts[step] == log[i].attempt
  {
    var n := |log| - 1;
    if n == 0 {
      assert ReplayFrom(None, log[..0]) == None;
    } else {
      var init, e := log[..n], log[n];
      ReplayAttempts(init, step);
      if (e.StepStarted? || e.StepRetrying?) && e.step == step {
        assert LastAttempt(log, n, step);
      } else {
        forall i
          ensures LastAttempt(log, i, step) <==> LastAttempt(init, i, step)
        {
        }
      }
    }
  }

  /** The engine's carried value: the newest step output, else the newest workflow input. */
  function LastOutput(events: seq<Event>): Json {
    if events == [] then Null
    else
      match events[|events| - 1]
      case StepCompleted(_, _, output, _) => output
      case WorkflowStarted(_, _, input, _) => input
      case _ => LastOutput(events[..|events| - 1])
  }

  lemma LastOutputSnoc(log: seq<Event>, e: Event)
    ensures e.StepCompleted? ==> LastOutput(log + [e]) == e.output
    ensures e.WorkflowStarted? ==> LastOutput(log + [e]) == e.input
    ensures e.Quiet() || e.Terminal() ==> LastOutput(log + [e]) == LastOutput(log)
  {
    assert (log + [e])[..|log|] == log;
  }

  lemma {:induction false} LastOutputQuiet(before: seq<Event>, after: seq<Event>)
    requires before <= after
    requires forall k :: |before| <= k < |after| ==> after[k].Quiet() || after[k].Terminal()
    ensures LastOutput(after) == LastOutput(before)
  {
    if |before| < |after| {
      LastOutputQuiet(before, after[..|after| - 1]);
    } else {
      assert before == after;
    }
  }

  /** The carried value is the last completion's output, or the workflow input when no step has completed. */
  lemma {:induction false} LastOutputMeaning(log: seq<Event>)
    requires log != [] && log[0].WorkflowStarted?
    requires forall i :: 0 < i < |log| ==> !log[i].WorkflowStarted?
    ensures LastOutput(log) ==
            var done := Completions(log);
            if done == [] then log[0].input else done[|done| - 1].output
  {
    if |log| == 1 {
      assert Completions(log[..0]) == [];
    } else {
      LastOutputMeaning(log[..|log| - 1]);
    }
  }

  /** The mutable state that apply_event updates in place. */
  class ExecutionState {
    const workflowId: WorkflowId
    var status: WorkflowStatus
    var completedSteps: map<string, Json>
    var completedOrder: seq<string>
    var failedSteps: map<string, WorkflowError>
    var currentStep: string
    var stepAttempts: map<string, int>

    ghost function View(): State
      reads this
    {
      State(workflowId, status, completedSteps, completedOrder, failedSteps, currentStep, stepAttempts)
    }

    constructor (id: WorkflowId)
      ensures View() == NewState(id)
    {
      workflowId := id;
      status := Pending;
      completedSteps, completedOrder, failedSteps := map[], [], map[];
      currentStep, stepAttempts := "", map[];
    }

    method ApplyEvent(e: Event)
      modifies this
      ensures View() == Apply(Some(old(View())), e)
    {
      match e {
        case StepStarted(_, step, attempt, _) =>
          currentStep := step;
          stepAttempts := stepAttempts[step := attempt];
        case StepCompleted(_, step, output, _) =>
          if step !in completedSteps {
            completedOrder := completedOrder + [step];
          }
          completedSteps := completedSteps[step := output];
          if step in failedSteps {
            failedSteps := failedSteps - {step};
          } else {
            assert failedSteps - {step} == failedSteps;
          }
        case StepFailed(_, step, reason, _, _) =>
          failedSteps := failedSteps[step := StepFailedError(step, reason)];
        case StepRetrying(_, step, attempt, _, _) =>
          stepAttempts := stepAttempts[step := attempt];
        case WorkflowCompleted(_, _, _) =>
          status := Completed;
        case WorkflowFailed(_, _, _) =>
          status := Failed;
        case WorkflowStarted(_, _, _, _) =>
      }
    }
  }

  /** The replay loop: the state object it builds shows the replayed value, or there is none. */
  method Rebuild(events: seq<Event>) returns (state: ExecutionState?)
    ensures state == null <==> events == []
    ensures state != null ==> fresh(state) && ReplayEvents(events) == Ok(state.View())
  {
    state := null;
    for i := 0 to |events|
      invariant state == null <==> i == 0
      invariant state != null ==> fresh(state) && ReplayFrom(None, events[..i]) == Some(state.View())
    {
      ReplaySnoc(events[..i], events[i]);
      assert events[..i] + [events[i]] == events[..i + 1];
      if state == null {
        state := new ExecutionState("");
        if events[i].WorkflowStarted? {
          state.status := Running;
        }
      } else {
        state.ApplyEvent(events[i]);
      }
    }
    assert events[..|events|] == events;
  }

  /** The backwards scan for the carried value. */
  method GetLastOutput(events: seq<Event>) returns (output: Json)
    ensures output == LastOutput(events)
  {
    var i := |events|;
    assert events[..i] == events;
    while i > 0
      invariant 0 <= i <= |events|
      invariant LastOutput(events) == LastOutput(events[..i])
    {
      i := i - 1;
      assert events[..i + 1][..i] == events[..i];
      match events[i] {
        case StepCompleted(_, _, o, _) => return o;
        case WorkflowStarted(_, _, input, _) => return input;
        case _ =>
      }
    }
    return Null;
  }
}
