/** The retry combinators, related to one count of attempts. Actions may change the world at every attempt. */
module Retries {
  import opened Types
  import opened Sagas

  function RetryWithDelay<W>(inner: Action<W>, w: W, input: Json, maxAttempts: int, attempt: int): (W, Result<Json>)
    decreases maxAttempts - attempt
  {
    var (w1, result) := inner(w, input);
    if result.Err? && attempt < maxAttempts then RetryWithDelay(inner, w1, input, maxAttempts, attempt + 1)
    else (w1, result)
  }

  /** The action wrapped by the retry middleware. */
  function RetryMiddleware<W>(maxAttempts: int, inner: Action<W>): Action<W> {
    (w: W, input: Json) => RetryWithDelay(inner, w, input, maxAttempts, 1)
  }

  function TryWithBackoff<W>(inner: Action<W>, w: W, input: Json, maxAttempts: int, attempt: int,
                             shouldRetry: WorkflowError -> bool): (W, Result<Json>)
    decreases maxAttempts - attempt
  {
    var (w1, result) := inner(w, input);
    if result.Err? && attempt < maxAttempts && shouldRetry(result.error)
    then TryWithBackoff(inner, w1, input, maxAttempts, attempt + 1, shouldRetry)
    else (w1, result)
  }

  /** Up to n attempts, stopping at the first success. */
  function UpTo<W>(inner: Action<W>, w: W, input: Json, n: nat): (W, Result<Json>)
    requires n > 0
    decreases n
  {
    var (w1, result) := inner(w, input);
    if result.Err? && n > 1 then UpTo(inner, w1, input, n - 1) else (w1, result)
  }

  function AtLeastOne(n: int): nat {
    if n > 1 then n else 1
  }

  lemma {:induction false} RetryIsUpTo<W>(inner: Action<W>, w: W, input: Json, maxAttempts: int, attempt: int)
    ensures RetryWithDelay(inner, w, input, maxAttempts, attempt) ==
            UpTo(inner, w, input, AtLeastOne(maxAttempts - attempt + 1))
    decreases maxAttempts - attempt
  {
    var (w1, result) := inner(w, input);
    if result.Err? && attempt < maxAttempts {
      RetryIsUpTo(inner, w1, input, maxAttempts, attempt + 1);
    }
  }

  lemma {:induction false} UpToSplits<W>(inner: Action<W>, w: W, input: Json, a: nat, b: nat)
    requires a > 0 && b > 0
    ensures UpTo(inner, w, input, a + b) ==
            var (w1, result) := UpTo(inner, w, input, a);
            if result.Err? then UpTo(inner, w1, input, b) else (w1, result)
    decreases a
  {
    var (w1, result) := inner(w, input);
    if result.Err? && a > 1 {
      UpToSplits(inner, w1, input, a - 1, b);
    }
  }

  lemma {:induction false} UpToNests<W>(inner: Action<W>, outer: Action<W>, w: W, input: Json, m: nat, n: nat)
    requires m > 0 && n > 0
    requires forall w: W, x: Json :: outer(w, x) == UpTo(inner, w, x, n)
    ensures m * n > 0 && UpTo(outer, w, input, m) == UpTo(inner, w, input, m * n)
    decreases m
  {
    if m == 1 {
      assert m * n == n;
    } else {
      var (w1, result) := outer(w, input);
      UpToNests(inner, outer, w1, input, m - 1, n);
      assert m * n == n + (m - 1) * n;
      UpToSplits(inner, w, input, n, (m - 1) * n);
    }
  }

  /** Retrying m times what retries n times is retrying max(1, m) * max(1, n) times, in result and in effects. */
  lemma RetriesMultiply<W(!new)>(inner: Action<W>, w: W, input: Json, m: int, n: int)
    ensures RetryMiddleware(m, RetryMiddleware(n, inner))(w, input) ==
            RetryMiddleware(AtLeastOne(m) * AtLeastOne(n), inner)(w, input)
  {
    var outer := RetryMiddleware(n, inner);
    var a, b := AtLeastOne(m), AtLeastOne(n);
    RetryIsUpTo(outer, w, input, m, 1);
    forall w: W, x: Json
      ensures outer(w, x) == UpTo(inner, w, x, b)
    {
      RetryIsUpTo(inner, w, x, n, 1);
    }
    UpToNests(inner, outer, w, input, a, b);
    RetryIsUpTo(inner, w, input, a * b, 1);
  }

  /** The saga's retry_until(r) agrees with the middleware's r + 1 attempts; below r = 0 it makes none at all. */
  lemma {:induction false} RetryUntilAgrees<W>(action: Action<W>, scene: Scene<W>, index: nat, input: Json, r: int,
                                               last: Result<Json>)
    ensures var (scene', result) := Retried(action, scene, index, input, r + 1, last);
      if r >= 0 then (scene'.world, result) == RetryWithDelay(action, scene.world, input, r + 1, 1)
      else scene' == scene && result == last
    decreases r
  {
    if r >= 0 {
      var (world, result) := action(scene.world, input);
      RetryIsUpTo(action, scene.world, input, r + 1, 1);
      if result.Err? && r > 0 {
        RetryUntilAgrees(action, Scene(world, scene.trace + [Forward(index, input)]), index, input, r - 1, result);
        RetryIsUpTo(action, world, input, r, 1);
      }
    }
  }

  /**
   * What the saga's retries leave in the trace: one forward per attempt, always on the same input, as many as
   * it takes to the first success, or all that are allowed.
   */
  lemma {:induction false} RetriedTrace<W>(action: Action<W>, scene: Scene<W>, index: nat, input: Json, left: int,
                                           last: Result<Json>) returns (k: nat)
    ensures var (scene', result) := Retried(action, scene, index, input, left, last);
      && k <= AtLeastOne(left) && (k == 0 <==> left <= 0)
      && scene'.trace == scene.trace + seq(k, _ => Forward(index, input))
      && (k > 0 ==> (scene'.world, result) == UpTo(action, scene.world, input, k))
      && (0 < k < left ==> result.Ok?)
      && (forall m :: 1 <= m < k ==> UpTo(action, scene.world, input, m).1.Err?)
    decreases left
  {
    k := 0;
    if left > 0 {
      var (world, result) := action(scene.world, input);
      var scene1 := Scene(world, scene.trace + [Forward(index, input)]);
      k := 1;
      if result.Err? && left > 1 {
        var rest := RetriedTrace(action, scene1, index, input, left - 1, result);
        k := rest + 1;
        assert [Forward(index, input)] + seq(rest, _ => Forward(index, input)) == seq(k, _ => Forward(index, input));
        forall m | 1 <= m < k
          ensures UpTo(action, scene.world, input, m).1 ==
                  if m == 1 then result else UpTo(action, world, input, m - 1).1
        {
        }
      } else {
        assert Retried(action, scene1, index, input, 0, result) == (scene1, result);
        assert scene1.trace == scene.trace + seq(1, _ => Forward(index, input));
      }
    }
  }

  /**
   * Backing off is retrying, cut short exactly after the first error that is not worth a retry: all attempts
   * before the last were errors worth one, and the last is a success, an error that is not, or the last allowed.
   */
  lemma {:induction false} BackoffIsShorterRetry<W>(inner: Action<W>, w: W, input: Json, maxAttempts: int, attempt: int,
                                                    shouldRetry: WorkflowError -> bool) returns (k: nat)
    ensures 1 <= k <= AtLeastOne(maxAttempts - attempt + 1)
    ensures TryWithBackoff(inner, w, input, maxAttempts, attempt, shouldRetry) == UpTo(inner, w, input, k)
    ensures forall m :: 1 <= m < k ==>
              var result := UpTo(inner, w, input, m).1;
              result.Err? && shouldRetry(result.error)
    ensures k < AtLeastOne(maxAttempts - attempt + 1) ==>
              var result := UpTo(inner, w, input, k).1;
              result.Ok? || !shouldRetry(result.error)
    decreases maxAttempts - attempt
  {
    var (w1, result) := inner(w, input);
    if result.Err? && attempt < maxAttempts && shouldRetry(result.error) {
      var rest := BackoffIsShorterRetry(inner, w1, input, maxAttempts, attempt + 1, shouldRetry);
      k := rest + 1;
      forall m | 1 <= m < k
        ensures UpTo(inner, w, input, m).1 == if m == 1 then result else UpTo(inner, w1, input, m - 1).1
      {
      }
    } else {
      k := 1;
    }
  }

  // ---------------------------------------------------------------------------------------------
  // Sagas with retries
  // ---------------------------------------------------------------------------------------------

  /** The same steps, each forward wrapped by the retry middleware. */
  function Wrapped<W>(steps: seq<SagaStep<W>>, maxAttempts: int): (r: seq<SagaStep<W>>)
    ensures |r| == |steps|
    ensures forall i :: 0 <= i < |steps| ==>
              && r[i].name == steps[i].name && r[i].compensate == steps[i].compensate
              && r[i].forward == RetryMiddleware(maxAttempts, steps[i].forward)
  {
    seq(|steps|, i requires 0 <= i < |steps| =>
      SagaStep(steps[i].name, RetryMiddleware(maxAttempts, steps[i].forward), steps[i].compensate))
  }

  /** Compensation does not look at the forwards. */
  lemma {:induction false} UnwindWrapped<W>(steps: seq<SagaStep<W>>, scene: Scene<W>, scene': Scene<W>, k: nat,
                                            input: Json, maxAttempts: int, show: WorkflowError -> string)
    requires k <= |steps| && scene.world == scene'.world
    ensures var (a, failure) := Unwind(steps, scene, k, input, show);
      var (b, failure') := Unwind(Wrapped(steps, maxAttempts), scene', k, input, show);
      a.world == b.world && failure == failure'
    decreases k
  {
    if k > 0 {
      var (world, result) := steps[k - 1].compensate(scene.world, input);
      if result.Ok? {
        var undone := Compensate(k - 1, input);
        UnwindWrapped(steps, Scene(world, scene.trace + [undone]), Scene(world, scene'.trace + [undone]), k - 1,
                      result.value, maxAttempts, show);
      }
    }
  }

  lemma ForwardWrapped<W>(steps: seq<SagaStep<W>>, scene: Scene<W>, scene': Scene<W>, i: nat, input: Json,
                          maxRetry: nat)
    requires i < |steps| && scene.world == scene'.world
    ensures var (a, result) := GoForward(Retry(maxRetry), steps[i], scene, i, input);
      var (b, result') := GoForward(Retry(0), Wrapped(steps, maxRetry + 1)[i], scene', i, input);
      a.world == b.world && result == result'
  {
    RetryUntilAgrees(steps[i].forward, scene, i, input, maxRetry, NO_ATTEMPTS);
    OneAttempt(Wrapped(steps, maxRetry + 1)[i], scene', i, input);
  }

  lemma {:induction false} SagaWrapped<W>(steps: seq<SagaStep<W>>, scene: Scene<W>, scene': Scene<W>, i: nat,
                                          input: Json, maxRetry: nat, show: WorkflowError -> string)
    requires i <= |steps| && scene.world == scene'.world
    ensures var (a, result) := RunSaga(Retry(maxRetry), steps, scene, i, input, show);
      var (b, result') := RunSaga(Retry(0), Wrapped(steps, maxRetry + 1), scene', i, input, show);
      a.world == b.world && result == result'
    decreases |steps| - i
  {
    hide GoForward, Unwind;
    if i < |steps| {
      ForwardWrapped(steps, scene, scene', i, input, maxRetry);
      var (a, result) := GoForward(Retry(maxRetry), steps[i], scene, i, input);
      var (b, _) := GoForward(Retry(0), Wrapped(steps, maxRetry + 1)[i], scene', i, input);
      if result.Ok? {
        SagaWrapped(steps, a, b, i + 1, result.value, maxRetry, show);
      } else {
        UnwindWrapped(steps, a, b, i, input, maxRetry + 1, show);
      }
    }
  }

  /**
   * A saga that retries its forwards, for arbitrary actions: it leaves the world that the plain saga leaves
   * whose forwards are each wrapped by the middleware for maxRetry + 1 attempts, and goes as that saga's story
   * tells. It returns the same on success, and the failed forward's own error otherwise, so something else
   * only if a compensation failed.
   */
  lemma RetryingSaga<W(!new)>(steps: seq<SagaStep<W>>, world: W, input: Json, maxRetry: nat,
                              show: WorkflowError -> string) returns (story: Story<W>)
    ensures story.worlds != [] && story.worlds[0] == world && story.values != [] && story.values[0] == input
    ensures var wrapped := Wrapped(steps, maxRetry + 1);
      var (plain, r) := RunSaga(Plain, wrapped, Scene(world, []), 0, input, show);
      var (retried, r') := RunSaga(Retry(maxRetry), steps, Scene(world, []), 0, input, show);
      && Tells(story, wrapped, plain, r, show)
      && retried.world == plain.world
      && r' == (if r.Ok? then r else Err(story.error))
      && (r' != r ==> story.failure.Some?)
  {
    hide RunSaga, Tells;
    SagaWrapped(steps, Scene(world, []), Scene(world, []), 0, input, maxRetry, show);
    story := NoRetryIsPlain(Wrapped(steps, maxRetry + 1), world, input, show);
  }

  /** With a negative number of retries nothing is attempted at all. */
  lemma NegativeRetries<W>(steps: seq<SagaStep<W>>, scene: Scene<W>, input: Json, maxRetry: int,
                           show: WorkflowError -> string)
    requires maxRetry < 0 && steps != []
    ensures RunSaga(Retry(maxRetry), steps, scene, 0, input, show) ==
            (scene, Err(StepFailedError("retry", "no attempts")))
  {
  }
}
