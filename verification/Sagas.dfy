/**
 * Sagas: forward steps, and compensation in reverse order when one fails. Handlers change a world that
 * outlives them; every invocation is recorded, so that the order of effects can be stated.
 */
module Sagas {
  import opened Types

  /** An action on the world, as a saga or a retry combinator calls it. */
  type Action<!W> = (W, Json) -> (W, Result<Json>)

  datatype SagaStep<!W> = SagaStep(name: string, forward: Action<W>, compensate: Action<W>)

  datatype Invocation = Forward(index: nat, input: Json) | Compensate(index: nat, input: Json)

  /** The world, and what has been invoked in it so far. */
  datatype Scene<W> = Scene(world: W, trace: seq<Invocation>)

  // ---------------------------------------------------------------------------------------------
  // What a saga does
  // ---------------------------------------------------------------------------------------------

  /** Compensates steps k-1 down to 0; an error stops it. */
  function Unwind<W>(steps: seq<SagaStep<W>>, scene: Scene<W>, k: nat, input: Json, show: WorkflowError -> string)
    : (Scene<W>, Option<string>)
    requires k <= |steps|
    decreases k
  {
    if k == 0 then (scene, None)
    else
      var (world, result) := steps[k - 1].compensate(scene.world, input);
      var scene1 := Scene(world, scene.trace + [Compensate(k - 1, input)]);
      match result
      case Ok(output) => Unwind(steps, scene1, k - 1, output, show)
      case Err(error) => (scene1, Some("compensation for '" + steps[k - 1].name + "' failed: " + show(error)))
  }

  /** Runs the action, again on every error, up to `left` times; `last` is what the attempts so far came to. */
  function Retried<W>(action: Action<W>, scene: Scene<W>, index: nat, input: Json, left: int, last: Result<Json>)
    : (Scene<W>, Result<Json>)
    decreases left
  {
    if left <= 0 then (scene, last)
    else
      var (world, result) := action(scene.world, input);
      var scene1 := Scene(world, scene.trace + [Forward(index, input)]);
      if result.Ok? then (scene1, result) else Retried(action, scene1, index, input, left - 1, result)
  }

  const NO_ATTEMPTS := Err(StepFailedError("retry", "no attempts"))

  /** How a saga run differs in kind: plain, or with retries of each forward step. */
  datatype Mode = Plain | Retry(maxRetry: int)

  function GoForward<W>(mode: Mode, step: SagaStep<W>, scene: Scene<W>, index: nat, input: Json)
    : (Scene<W>, Result<Json>)
  {
    match mode
    case Plain =>
      var (world, result) := step.forward(scene.world, input);
      (Scene(world, scene.trace + [Forward(index, input)]), result)
    case Retry(maxRetry) => Retried(step.forward, scene, index, input, maxRetry + 1, NO_ATTEMPTS)
  }

  /** What the caller is told when step `error` failed and compensation came to `failure`. */
  function Blame(mode: Mode, error: WorkflowError, failure: Option<string>): WorkflowError {
    if mode.Plain? && failure.Some?
    then StorageError("Saga failed and compensation also failed: " + failure.value)
    else error
  }

  /** The saga from step i on. */
  function RunSaga<W>(mode: Mode, steps: seq<SagaStep<W>>, scene: Scene<W>, i: nat, input: Json,
                      show: WorkflowError -> string)
    : (Scene<W>, Result<Json>)
    decreases |steps| - i
  {
    if i >= |steps| then (scene, Ok(input))
    else
      var (scene1, result) := GoForward(mode, steps[i], scene, i, input);
      match result
      case Ok(output) => RunSaga(mode, steps, scene1, i + 1, output, show)
      case Err(error) =>
        var (scene2, failure) := Unwind(steps, scene1, i, input, show);
        (scene2, Err(Blame(mode, error, failure)))
  }

  // ---------------------------------------------------------------------------------------------
  // The saga as an object
  // ---------------------------------------------------------------------------------------------

  class Saga<W> {
    var steps: seq<SagaStep<W>>
    var scene: Scene<W>
    const show: WorkflowError -> string

    constructor (world: W, show: WorkflowError -> string)
      ensures steps == [] && scene == Scene(world, []) && this.show == show
    {
      steps, scene, this.show := [], Scene(world, []), show;
    }

    method Step(name: string, forward: Action<W>, compensate: Action<W>)
      modifies this`steps
      ensures steps == old(steps) + [SagaStep(name, forward, compensate)]
    {
      steps := steps + [SagaStep(name, forward, compensate)];
    }

    /** The completed steps are always the first ones, so the indices to compensate are 0 to |completed| - 1. */
    method CompensateAll(completed: seq<nat>, input: Json) returns (failure: Option<string>)
      requires |completed| <= |steps| && forall j :: 0 <= j < |completed| ==> completed[j] == j
      modifies this`scene
      ensures (scene, failure) == Unwind(steps, old(scene), |completed|, input, show)
    {
      var current, i := input, |completed|;
      while i > 0
        invariant 0 <= i <= |completed|
        invariant Unwind(steps, old(scene), |completed|, input, show) == Unwind(steps, scene, i, current, show)
      {
        i := i - 1;
        var index := completed[i];
        var (world, result) := steps[index].compensate(scene.world, current);
        scene := Scene(world, scene.trace + [Compensate(index, current)]);
        match result {
          case Ok(output) => current := output;
          case Err(error) => return Some("compensation for '" + steps[index].name + "' failed: " + show(error));
        }
      }
      return None;
    }

    method RetryUntil(index: nat, input: Json, maxRetry: int) returns (result: Result<Json>)
      requires index < |steps|
      modifies this`scene
      ensures (scene, result) == Retried(steps[index].forward, old(scene), index, input, maxRetry + 1, NO_ATTEMPTS)
    {
      var attempt := 0;
      result := NO_ATTEMPTS;
      while attempt <= maxRetry
        invariant 0 <= attempt && (attempt > 0 ==> attempt <= maxRetry + 1)
        invariant Retried(steps[index].forward, old(scene), index, input, maxRetry + 1, NO_ATTEMPTS) ==
                  Retried(steps[index].forward, scene, index, input, maxRetry + 1 - attempt, result)
        decreases maxRetry + 1 - attempt
      {
        var (world, outcome) := steps[index].forward(scene.world, input);
        scene := Scene(world, scene.trace + [Forward(index, input)]);
        result := outcome;
        if result.Ok? {
          return;
        }
        attempt := attempt + 1;
      }
    }

    method Execute(input: Json) returns (result: Result<Json>)
      modifies this`scene
      ensures (scene, result) == RunSaga(Plain, steps, old(scene), 0, input, show)
    {
      var current := input;
      var completed: seq<nat> := [];
      for i := 0 to |steps|
        invariant |completed| == i && forall j :: 0 <= j < i ==> completed[j] == j
        invariant RunSaga(Plain, steps, old(scene), 0, input, show) == RunSaga(Plain, steps, scene, i, current, show)
      {
        var (world, outcome) := steps[i].forward(scene.world, current);
        scene := Scene(world, scene.trace + [Forward(i, current)]);
        match outcome {
          case Ok(output) =>
            current := output;
            completed := completed + [i];
          case Err(error) =>
            var failure := CompensateAll(completed, current);
            if failure.Some? {
              return Err(StorageError("Saga failed and compensation also failed: " + failure.value));
            }
            return Err(error);
        }
      }
      return Ok(current);
    }

    method ExecuteWithRetry(input: Json, maxRetry: int) returns (result: Result<Json>)
      modifies this`scene
      ensures (scene, result) == RunSaga(Retry(maxRetry), steps, old(scene), 0, input, show)
    {
      var current := input;
      var completed: seq<nat> := [];
      for i := 0 to |steps|
        invariant |completed| == i && forall j :: 0 <= j < i ==> completed[j] == j
        invariant RunSaga(Retry(maxRetry), steps, old(scene), 0, input, show) ==
                  RunSaga(Retry(maxRetry), steps, scene, i, current, show)
      {
        var outcome := RetryUntil(i, current, maxRetry);
        match outcome {
          case Ok(output) =>
            current := output;
            completed := completed + [i];
          case Err(error) =>
            var _ := CompensateAll(completed, current);
            return Err(error);
        }
      }
      return Ok(current);
    }
  }

  // ---------------------------------------------------------------------------------------------
  // Rollback
  // ---------------------------------------------------------------------------------------------

  /** The forward succeeds, from this world and input to that world and output. */
  predicate Leads<W(==)>(step: SagaStep<W>, w: W, x: Json, w': W, y: Json) {
    step.forward(w, x) == (w', Ok(y))
  }

  /** Compensation takes back the effect of a successful forward, input and all; a failed forward has none. */
  ghost predicate Reversible<W(!new)>(step: SagaStep<W>) {
    && (forall w: W, x: Json, w': W, y: Json :: Leads(step, w, x, w', y) ==> step.compensate(w', y) == (w, Ok(x)))
    && (forall w: W, x: Json :: step.forward(w, x).1.Err? ==> step.forward(w, x).0 == w)
  }

  /** The worlds and carried values that the forwards of the first |worlds| - 1 steps lead through. */
  ghost predicate Path<W>(steps: seq<SagaStep<W>>, worlds: seq<W>, values: seq<Json>) {
    && 0 < |worlds| == |values| <= |steps| + 1
    && forall m :: 0 <= m < |worlds| - 1 ==> Leads(steps[m], worlds[m], values[m], worlds[m + 1], values[m + 1])
  }

  /** Compensations k - 1 down to 0, each given what the forward after it had been given. */
  function Mirror(values: seq<Json>, k: nat): (r: seq<Invocation>)
    requires k < |values|
    ensures |r| == k
    decreases k
  {
    if k == 0 then [] else [Compensate(k - 1, values[k])] + Mirror(values, k - 1)
  }

  /** Unwinding a path succeeds and hands world and value back, step by step, to where it began. */
  lemma {:induction false} UnwindRestores<W(!new)>(steps: seq<SagaStep<W>>, scene: Scene<W>, k: nat, worlds: seq<W>,
                                                   values: seq<Json>, show: WorkflowError -> string)
    requires k < |worlds| && Path(steps, worlds, values) && scene.world == worlds[k]
    requires forall j :: 0 <= j < |steps| ==> Reversible(steps[j])
    ensures Unwind(steps, scene, k, values[k], show) == (Scene(worlds[0], scene.trace + Mirror(values, k)), None)
    decreases k
  {
    if k == 0 {
      assert scene.trace + Mirror(values, 0) == scene.trace;
    } else {
      assert Leads(steps[k - 1], worlds[k - 1], values[k - 1], worlds[k - 1 + 1], values[k - 1 + 1]);
      var first := Compensate(k - 1, values[k]);
      UnwindRestores(steps, Scene(worlds[k - 1], scene.trace + [first]), k - 1, worlds, values, show);
      assert scene.trace + [first] + Mirror(values, k - 1) == scene.trace + Mirror(values, k);
    }
  }

  /** Retrying a reversible step that never succeeds leaves the world alone; otherwise one success is all it took. */
  lemma {:induction false} RetriedWorld<W(!new)>(step: SagaStep<W>, scene: Scene<W>, index: nat, input: Json, left: int,
                                                 last: Result<Json>)
    requires Reversible(step) && last.Err?
    ensures var (scene', result) := Retried(step.forward, scene, index, input, left, last);
      if result.Ok? then Leads(step, scene.world, input, scene'.world, result.value) else scene'.world == scene.world
    decreases left
  {
    if left > 0 {
      var (world, result) := step.forward(scene.world, input);
      if result.Err? {
        RetriedWorld(step, Scene(world, scene.trace + [Forward(index, input)]), index, input, left - 1, result);
      }
    }
  }

  lemma ForwardWorld<W(!new)>(mode: Mode, step: SagaStep<W>, scene: Scene<W>, index: nat, input: Json)
    requires Reversible(step)
    ensures var (scene', result) := GoForward(mode, step, scene, index, input);
      if result.Ok? then Leads(step, scene.world, input, scene'.world, result.value) else scene'.world == scene.world
  {
    match mode
    case Plain =>
    case Retry(maxRetry) => RetriedWorld(step, scene, index, input, maxRetry + 1, NO_ATTEMPTS);
  }

  lemma PathExtends<W(!new)>(steps: seq<SagaStep<W>>, worlds: seq<W>, values: seq<Json>, world: W, value: Json)
    requires Path(steps, worlds, values) && |worlds| <= |steps|
    requires Leads(steps[|worlds| - 1], worlds[|worlds| - 1], values[|worlds| - 1], world, value)
    ensures Path(steps, worlds + [world], values + [value])
  {
    var worlds', values' := worlds + [world], values + [value];
    forall m | 0 <= m < |worlds'| - 1
      ensures Leads(steps[m], worlds'[m], values'[m], worlds'[m + 1], values'[m + 1])
    {
      if m < |worlds| - 1 {
        assert Leads(steps[m], worlds[m], values[m], worlds[m + 1], values[m + 1]);
      }
    }
  }

  lemma {:induction false} SagaRestoresFrom<W(!new)>(mode: Mode, steps: seq<SagaStep<W>>, scene: Scene<W>,
                                                     worlds: seq<W>, values: seq<Json>, show: WorkflowError -> string)
    returns (worlds': seq<W>, values': seq<Json>)
    requires Path(steps, worlds, values) && scene.world == worlds[|worlds| - 1]
    requires forall j :: 0 <= j < |steps| ==> Reversible(steps[j])
    ensures var (scene', result) := RunSaga(mode, steps, scene, |worlds| - 1, values[|worlds| - 1], show);
      && Path(steps, worlds', values') && worlds'[0] == worlds[0] && values'[0] == values[0]
      && var k := |worlds'| - 1;
         && (result.Ok? ==> k == |steps| && scene'.world == worlds'[k] && result.value == values'[k])
         && (result.Err? ==>
               && k < |steps| && scene'.world == worlds[0]
               && (mode.Plain? ==> result == steps[k].forward(worlds'[k], values'[k]).1)
               && k <= |scene'.trace| && scene'.trace[|scene'.trace| - k..] == Mirror(values', k))
    decreases |steps| - |worlds|
  {
    hide Reversible, Unwind, Mirror, Leads;
    var i := |worlds| - 1;
    worlds', values' := worlds, values;
    if i < |steps| {
      ForwardWorld(mode, steps[i], scene, i, values[i]);
      var (scene1, result) := GoForward(mode, steps[i], scene, i, values[i]);
      if result.Ok? {
        PathExtends(steps, worlds, values, scene1.world, result.value);
        worlds', values' :=
          SagaRestoresFrom(mode, steps, scene1, worlds + [scene1.world], values + [result.value], show);
      } else {
        UnwindRestores(steps, scene1, i, worlds, values, show);
      }
    }
  }

  /**
   * All or nothing: if every compensation reverses its forward and failing forwards change nothing, a saga
   * that fails ends in exactly the world it began in, with or without retries, its last invocations being the
   * compensations of the steps before the failure, last first, each given what the following forward had been
   * given; without retries it returns the failed forward's own error. A saga that succeeds has applied every
   * forward once, each to the one before's output.
   */
  lemma SagaRollsBack<W(!new)>(mode: Mode, steps: seq<SagaStep<W>>, world: W, input: Json,
                               show: WorkflowError -> string)
    returns (worlds: seq<W>, values: seq<Json>)
    requires forall j :: 0 <= j < |steps| ==> Reversible(steps[j])
    ensures var (scene, result) := RunSaga(mode, steps, Scene(world, []), 0, input, show);
      && Path(steps, worlds, values) && worlds[0] == world && values[0] == input
      && var k := |worlds| - 1;
         && (result.Ok? ==> k == |steps| && scene.world == worlds[k] && result.value == values[k])
         && (result.Err? ==>
               && k < |steps| && scene.world == world
               && (mode.Plain? ==> result == steps[k].forward(worlds[k], values[k]).1)
               && k <= |scene.trace| && scene.trace[|scene.trace| - k..] == Mirror(values, k))
  {
    worlds, values := SagaRestoresFrom(mode, steps, Scene(world, []), [world], [input], show);
  }

  // ---------------------------------------------------------------------------------------------
  // The order of effects, for arbitrary actions
  // ---------------------------------------------------------------------------------------------

  /** Forwards 0 to k - 1, once each, in order, on the given values. */
  function Forwards(values: seq<Json>, k: nat): (r: seq<Invocation>)
    requires k <= |values|
    ensures |r| == k && forall m :: 0 <= m < k ==> r[m] == Forward(m, values[m])
  {
    seq(k, m requires 0 <= m < k => Forward(m, values[m]))
  }

  /** Compensations k - 1 down to k - n, once each, in that order, on the given values. */
  function Backs(values: seq<Json>, k: nat, n: nat): (r: seq<Invocation>)
    requires n <= |values| && n <= k
    ensures |r| == n && forall m :: 0 <= m < n ==> r[m] == Compensate(k - 1 - m, values[m])
  {
    seq(n, m requires 0 <= m < n => Compensate(k - 1 - m, values[m]))
  }

  /** The compensation succeeds, from this world and input to that world and output. */
  predicate TakesBack<W(==)>(step: SagaStep<W>, w: W, x: Json, w': W, y: Json) {
    step.compensate(w, x) == (w', Ok(y))
  }

  /** The worlds and values that |worlds| - 1 successful compensations, of step k - 1 downwards, lead through. */
  ghost predicate BackPath<W>(steps: seq<SagaStep<W>>, k: nat, worlds: seq<W>, values: seq<Json>) {
    && 0 < |worlds| == |values| <= k + 1 <= |steps| + 1
    && forall m :: 0 <= m < |worlds| - 1 ==>
         TakesBack(steps[k - 1 - m], worlds[m], values[m], worlds[m + 1], values[m + 1])
  }

  /**
   * Compensation as it went: along the path, all the way to step 0 when nothing is reported; otherwise to the
   * first compensation that failed, which is the last one run, left the world as it is and is reported.
   */
  ghost predicate Unwound<W>(steps: seq<SagaStep<W>>, k: nat, worlds: seq<W>, values: seq<Json>, scene: Scene<W>,
                             failure: Option<string>, show: WorkflowError -> string) {
    && BackPath(steps, k, worlds, values)
    && var n := |worlds| - 1;
       match failure
       case None => n == k && scene == Scene(worlds[k], Backs(values, k, k))
       case Some(message) =>
         && n < k && scene.trace == Backs(values, k, n + 1)
         && var (world, result) := steps[k - 1 - n].compensate(worlds[n], values[n]);
            && world == scene.world && result.Err?
            && message == "compensation for '" + steps[k - 1 - n].name + "' failed: " + show(result.error)
  }

  lemma BackPathExtends<W(!new)>(steps: seq<SagaStep<W>>, k: nat, worlds: seq<W>, values: seq<Json>, world: W,
                                 value: Json)
    requires BackPath(steps, k, worlds, values) && |worlds| <= k
    requires TakesBack(steps[k - |worlds|], worlds[|worlds| - 1], values[|worlds| - 1], world, value)
    ensures BackPath(steps, k, worlds + [world], values + [value])
  {
    var worlds', values' := worlds + [world], values + [value];
    forall m | 0 <= m < |worlds'| - 1
      ensures TakesBack(steps[k - 1 - m], worlds'[m], values'[m], worlds'[m + 1], values'[m + 1])
    {
      if m < |worlds| - 1 {
        assert TakesBack(steps[k - 1 - m], worlds[m], values[m], worlds[m + 1], values[m + 1]);
      }
    }
  }

  /** From wherever it has got to, compensation goes on along the path to its end or to its first failure. */
  lemma {:induction false} UnwindOrder<W(!new)>(steps: seq<SagaStep<W>>, scene: Scene<W>, k: nat, worlds: seq<W>,
                                                values: seq<Json>, before: seq<Invocation>,
                                                show: WorkflowError -> string)
    returns (worlds': seq<W>, values': seq<Json>)
    requires BackPath(steps, k, worlds, values)
    requires scene == Scene(worlds[|worlds| - 1], before + Backs(values, k, |worlds| - 1))
    ensures var (scene', failure) := Unwind(steps, scene, k + 1 - |worlds|, values[|worlds| - 1], show);
      && worlds <= worlds' && values <= values' && before <= scene'.trace
      && Unwound(steps, k, worlds', values', Scene(scene'.world, scene'.trace[|before|..]), failure, show)
    decreases k - |worlds|
  {
    var n := |worlds| - 1;
    worlds', values' := worlds, values;
    if n < k {
      var (world, result) := steps[k - 1 - n].compensate(scene.world, values[n]);
      var trace := scene.trace + [Compensate(k - 1 - n, values[n])];
      assert trace == before + Backs(values, k, n + 1);
      if result.Ok? {
        BackPathExtends(steps, k, worlds, values, world, result.value);
        assert Backs(values + [result.value], k, n + 1) == Backs(values, k, n + 1);
        worlds', values' :=
          UnwindOrder(steps, Scene(world, trace), k, worlds + [world], values + [result.value], before, show);
      }
    }
  }

  /**
   * A saga as it went: the worlds and values its successful forwards led through, those its successful
   * compensations led through, the error of the forward that failed and what compensation reported.
   */
  datatype Story<W> = Story(
    worlds: seq<W>, values: seq<Json>, backWorlds: seq<W>, backValues: seq<Json>,
    error: WorkflowError, failure: Option<string>)

  ghost predicate Tells<W>(story: Story<W>, steps: seq<SagaStep<W>>, scene: Scene<W>, result: Result<Json>,
                           show: WorkflowError -> string) {
    && Path(steps, story.worlds, story.values)
    && var k := |story.worlds| - 1;
       && (result.Ok? ==>
             && k == |steps| && scene == Scene(story.worlds[k], Forwards(story.values, k))
             && result.value == story.values[k])
       && (result.Err? ==>
             && k < |steps| && Forwards(story.values, k + 1) <= scene.trace
             && Unwound(steps, k, story.backWorlds, story.backValues, Scene(scene.world, scene.trace[k + 1..]),
                        story.failure, show)
             && steps[k].forward(story.worlds[k], story.values[k]) == (story.backWorlds[0], Err(story.error))
             && story.backValues[0] == story.values[k]
             && result.error ==
                match story.failure
                case None => story.error
                case Some(message) => StorageError("Saga failed and compensation also failed: " + message))
  }

  /** A single attempt is a plain forward. */
  lemma OneAttempt<W>(step: SagaStep<W>, scene: Scene<W>, index: nat, input: Json)
    ensures GoForward(Retry(0), step, scene, index, input) == GoForward(Plain, step, scene, index, input)
  {
    var (world, result) := step.forward(scene.world, input);
    var scene1 := Scene(world, scene.trace + [Forward(index, input)]);
    assert Retried(step.forward, scene1, index, input, 0, result) == (scene1, result);
  }

  lemma {:induction false} SagaOrderFrom<W(!new)>(steps: seq<SagaStep<W>>, scene: Scene<W>, worlds: seq<W>,
                                                  values: seq<Json>, show: WorkflowError -> string)
    returns (story: Story<W>)
    requires Path(steps, worlds, values)
    requires scene == Scene(worlds[|worlds| - 1], Forwards(values, |worlds| - 1))
    ensures var (scene', result) := RunSaga(Plain, steps, scene, |worlds| - 1, values[|worlds| - 1], show);
      && worlds <= story.worlds && values <= story.values
      && Tells(story, steps, scene', result, show)
      && RunSaga(Retry(0), steps, scene, |worlds| - 1, values[|worlds| - 1], show) ==
         (scene', if result.Ok? then result else Err(story.error))
    decreases |steps| - |worlds|
  {
    hide Unwind, Unwound, BackPath, Leads;
    var i := |worlds| - 1;
    if i == |steps| {
      story := Story(worlds, values, [], [], NO_ATTEMPTS.error, None);
    } else {
      OneAttempt(steps[i], scene, i, values[i]);
      var (scene1, outcome) := GoForward(Plain, steps[i], scene, i, values[i]);
      assert scene1.trace == Forwards(values, i + 1);
      if outcome.Ok? {
        ForwardLeads(steps[i], scene, i, values[i]);
        PathExtends(steps, worlds, values, scene1.world, outcome.value);
        assert Forwards(values + [outcome.value], i + 1) == Forwards(values, i + 1);
        story := SagaOrderFrom(steps, scene1, worlds + [scene1.world], values + [outcome.value], show);
      } else {
        NoneBack(steps, i, scene1.world, values[i]);
        assert scene1.trace == scene1.trace + Backs([values[i]], i, 0);
        var backWorlds, backValues := UnwindOrder(steps, scene1, i, [scene1.world], [values[i]], scene1.trace, show);
        story := Story(worlds, values, backWorlds, backValues, outcome.error,
                       Unwind(steps, scene1, i, values[i], show).1);
      }
    }
  }

  lemma ForwardLeads<W(!new)>(step: SagaStep<W>, scene: Scene<W>, index: nat, input: Json)
    ensures var (scene1, result) := GoForward(Plain, step, scene, index, input);
      result.Ok? ==> Leads(step, scene.world, input, scene1.world, result.value)
  {
  }

  lemma NoneBack<W(!new)>(steps: seq<SagaStep<W>>, k: nat, world: W, value: Json)
    requires k <= |steps|
    ensures BackPath(steps, k, [world], [value])
  {
  }

  /**
   * For arbitrary forwards and compensations: a saga runs its forwards in order, each on the world and output
   * of the one before, up to the one that fails, if any; then compensations from the step before it downwards,
   * the first on the world the failing forward left and the input it had, each other on the world and output of
   * the one before, down to step 0 unless one fails, and no further. It returns the failed forward's error, or,
   * exactly if a compensation failed, a storage error that says which and how.
   */
  lemma SagaOrder<W(!new)>(steps: seq<SagaStep<W>>, world: W, input: Json, show: WorkflowError -> string)
    returns (story: Story<W>)
    ensures story.worlds != [] && story.worlds[0] == world && story.values != [] && story.values[0] == input
    ensures var (scene, result) := RunSaga(Plain, steps, Scene(world, []), 0, input, show);
      Tells(story, steps, scene, result, show)
  {
    assert Forwards([input], 0) == [];
    story := SagaOrderFrom(steps, Scene(world, []), [world], [input], show);
  }

  /**
   * With no retries allowed, the retrying saga goes as the plain one, effect by effect. It returns the same on
   * success and the failed forward's own error otherwise: something else exactly if a compensation failed and
   * the forward's error was not the very report of that.
   */
  lemma NoRetryIsPlain<W(!new)>(steps: seq<SagaStep<W>>, world: W, input: Json, show: WorkflowError -> string)
    returns (story: Story<W>)
    ensures story.worlds != [] && story.worlds[0] == world && story.values != [] && story.values[0] == input
    ensures var (plain, r) := RunSaga(Plain, steps, Scene(world, []), 0, input, show);
      var (retried, r') := RunSaga(Retry(0), steps, Scene(world, []), 0, input, show);
      && Tells(story, steps, plain, r, show)
      && retried == plain
      && r' == (if r.Ok? then r else Err(story.error))
      && (r' != r ==> story.failure.Some?)
  {
    assert Forwards([input], 0) == [];
    story := SagaOrderFrom(steps, Scene(world, []), [world], [input], show);
  }
}
