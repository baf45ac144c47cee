/** The values the engine passes around: JSON, errors, events, step nodes and definitions. */
module Types {

  datatype Option<+T> = None | Some(value: T)

  datatype Result<+T> = Ok(value: T) | Err(error: WorkflowError)

  type WorkflowId = string

  datatype Json =
    | Null
    | Bool(b: bool)
    | Number(n: real)
    | String(s: string)
    | Array(items: seq<Json>)
    | Object(fields: map<string, Json>)

  datatype WorkflowError =
    | StepFailedError(step: string, reason: string)
    | StepTimeout(step: string, limitMs: int)
    | StepMaxRetriesExceeded(step: string, attempts: int)
    | WorkflowNotFound(id: WorkflowId)
    | InvalidTransition(source: string, target: string)
    | SerializationError(message: string)
    | StorageError(message: string)

  datatype Event =
    | WorkflowStarted(id: WorkflowId, name: string, input: Json, ts: int)
    | StepStarted(id: WorkflowId, step: string, attempt: int, ts: int)
    | StepCompleted(id: WorkflowId, step: string, output: Json, ts: int)
    | StepFailed(id: WorkflowId, step: string, reason: string, attempt: int, ts: int)
    | StepRetrying(id: WorkflowId, step: string, attempt: int, delayMs: int, ts: int)
    | WorkflowCompleted(id: WorkflowId, output: Json, ts: int)
    | WorkflowFailed(id: WorkflowId, reason: string, ts: int)
  {
    /** The event ends the workflow. */
    predicate Terminal() {
      WorkflowCompleted? || WorkflowFailed?
    }

    /** The event only reports progress inside one step. */
    predicate Quiet() {
      StepStarted? || StepFailed? || StepRetrying?
    }
  }

  datatype StepConfig = StepConfig(name: string, maxRetry: int, timeoutMs: int, retryDelayMs: int)

  datatype StepType =
    | Sequential
    | Parallel(children: seq<string>)
    | Conditional(condition: string, onTrue: string, onFalse: string)
    | SubWorkflow(target: string)
    | Signal(signal: string)

  datatype StepNode = StepNode(name: string, config: StepConfig, kind: StepType)

  datatype WorkflowDef = WorkflowDef(name: string, steps: seq<StepNode>, deps: map<string, seq<string>>)
  {
    /** The step names, in order. */
    function Names(): (r: seq<string>)
      ensures |r| == |steps|
      ensures forall i :: 0 <= i < |steps| ==> r[i] == steps[i].name
    {
      seq(|steps|, i requires 0 <= i < |steps| => steps[i].name)
    }
  }

  datatype WorkflowStatus = Pending | Running | Completed | Failed | Cancelled

  predicate NoDuplicates<T(==)>(s: seq<T>) {
    forall i, j :: 0 <= i < j < |s| ==> s[i] != s[j]
  }

  lemma ConcatAssociative<T>(a: seq<T>, b: seq<T>, c: seq<T>)
    ensures a + (b + c) == (a + b) + c
  {
  }

  /** A step's name, output pair, as a StepCompleted event records it. */
  datatype Completion = Completion(step: string, output: Json)

  /** The StepCompleted events of a log, in order. */
  function Completions(log: seq<Event>): seq<Completion> {
    if log == [] then []
    else
      var before := Completions(log[..|log| - 1]);
      var e := log[|log| - 1];
      if e.StepCompleted? then before + [Completion(e.step, e.output)] else before
  }

  function CompletedNames(done: seq<Completion>): (r: seq<string>)
    ensures |r| == |done|
    ensures forall i :: 0 <= i < |done| ==> r[i] == done[i].step
  {
    seq(|done|, i requires 0 <= i < |done| => done[i].step)
  }

  lemma CompletedNamesSnoc(done: seq<Completion>, c: Completion)
    ensures CompletedNames(done + [c]) == CompletedNames(done) + [c.step]
  {
  }

  lemma NoDuplicatesSnoc(s: seq<string>, x: string)
    ensures NoDuplicates(s + [x]) <==> NoDuplicates(s) && x !in s
  {
    var t := s + [x];
    if NoDuplicates(t) {
      assert forall i :: 0 <= i < |s| ==> t[i] == s[i] && t[i] != t[|s|];
    }
  }

  lemma CompletionsSnoc(log: seq<Event>, e: Event)
    ensures Completions(log + [e]) ==
            Completions(log) + if e.StepCompleted? then [Completion(e.step, e.output)] else []
  {
    assert (log + [e])[..|log|] == log;
  }

  lemma {:induction false} CompletionsPrefix(log: seq<Event>, k: nat)
    requires k <= |log|
    ensures Completions(log[..k]) <= Completions(log)
  {
    if k < |log| {
      CompletionsPrefix(log[..|log| - 1], k);
      assert log[..|log| - 1][..k] == log[..k];
    } else {
      assert log[..k] == log;
    }
  }

  /** Events that complete no step leave the list of completions as it was. */
  lemma {:induction false} CompletionsQuiet(before: seq<Event>, after: seq<Event>)
    requires before <= after
    requires forall k :: |before| <= k < |after| ==> !after[k].StepCompleted?
    ensures Completions(after) == Completions(before)
  {
    if |before| < |after| {
      CompletionsQuiet(before, after[..|after| - 1]);
    } else {
      assert before == after;
    }
  }

  /** A StepCompleted event at position i of the log is the completion numbered by the completions before it. */
  lemma {:induction false} CompletionAt(log: seq<Event>, i: nat)
    requires i < |log| && log[i].StepCompleted?
    ensures |Completions(log[..i])| < |Completions(log)|
    ensures Completions(log)[|Completions(log[..i])|] == Completion(log[i].step, log[i].output)
  {
    CompletionsSnoc(log[..i], log[i]);
    assert log[..i] + [log[i]] == log[..i + 1];
    CompletionsPrefix(log, i + 1);
  }
}
