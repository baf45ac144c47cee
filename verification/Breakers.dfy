/** The two circuit breakers, which decide alike, the rate at which they let calls through, and the bulkhead. */
module Breakers {
  import opened Types

  /**
   * What the outside contributes to one call: the clock before, what the inner handler would answer, and the
   * clock when that answer is in. A rejected call uses only the first.
   */
  datatype Stimulus = Stimulus(before: int, result: Result<Json>, after: int)

  /** What the caller sees. */
  datatype Reply = Reply(admitted: bool, result: Result<Json>)

  const REJECTED := Reply(false, Err(StorageError("circuit breaker open")))

  datatype CircuitState = Closed | Open | HalfOpen

  datatype ThreeState = ThreeState(failures: int, threshold: int, resetMs: int, lastFailure: int, state: CircuitState)

  datatype TwoState = TwoState(failures: int, threshold: int, resetMs: int, lastFailure: int, isOpen: bool)

  function CallThree(b: ThreeState, s: Stimulus): (ThreeState, Reply) {
    if b.state.Open? && !(s.before - b.lastFailure > b.resetMs) then (b, REJECTED)
    else
      match s.result
      case Ok(_) => (b.(failures := 0, state := Closed), Reply(true, s.result))
      case Err(_) =>
        var count := b.failures + 1;
        var state := if count >= b.threshold then Open else if b.state.Open? then HalfOpen else b.state;
        (b.(failures := count, lastFailure := s.after, state := state), Reply(true, s.result))
  }

  function CallTwo(b: TwoState, s: Stimulus): (TwoState, Reply) {
    if b.isOpen && !(s.before - b.lastFailure > b.resetMs) then (b, REJECTED)
    else
      match s.result
      case Ok(_) => (b.(failures := 0, isOpen := false), Reply(true, s.result))
      case Err(_) =>
        var count := b.failures + 1;
        (b.(failures := count, lastFailure := s.after, isOpen := count >= b.threshold), Reply(true, s.result))
  }

  class CircuitBreaker {
    var failureCount: int
    const failureThreshold: int
    const resetTimeoutMs: int
    var lastFailureTime: int
    var state: CircuitState

    ghost function View(): ThreeState
      reads this
    {
      ThreeState(failureCount, failureThreshold, resetTimeoutMs, lastFailureTime, state)
    }

    constructor (threshold: int, resetMs: int)
      ensures View() == ThreeState(0, threshold, resetMs, 0, Closed)
    {
      failureCount, failureThreshold, resetTimeoutMs, lastFailureTime, state := 0, threshold, resetMs, 0, Closed;
    }

    method Call(s: Stimulus) returns (reply: Reply)
      modifies this
      ensures (View(), reply) == CallThree(old(View()), s)
    {
      if state.Open? {
        if s.before - lastFailureTime > resetTimeoutMs {
          state := HalfOpen;
        } else {
          return REJECTED;
        }
      }
      match s.result {
        case Ok(_) =>
          failureCount := 0;
          state := Closed;
        case Err(_) =>
          failureCount := failureCount + 1;
          lastFailureTime := s.after;
          if failureCount >= failureThreshold {
            state := Open;
          }
      }
      return Reply(true, s.result);
    }
  }

  class PatternCircuitBreaker {
    var failureCount: int
    const threshold: int
    const resetMs: int
    var lastFailureTs: int
    var isOpen: bool

    ghost function View(): TwoState
      reads this
    {
      TwoState(failureCount, threshold, resetMs, lastFailureTs, isOpen)
    }

    constructor (threshold: int, resetMs: int)
      ensures View() == TwoState(0, threshold, resetMs, 0, false)
    {
      failureCount, this.threshold, this.resetMs, lastFailureTs, isOpen := 0, threshold, resetMs, 0, false;
    }

    method Call(s: Stimulus) returns (reply: Reply)
      modifies this
      ensures (View(), reply) == CallTwo(old(View()), s)
    {
      if isOpen {
        if s.before - lastFailureTs > resetMs {
          isOpen := false;
        } else {
          return REJECTED;
        }
      }
      match s.result {
        case Ok(_) =>
          failureCount := 0;
          isOpen := false;
        case Err(_) =>
          failureCount := failureCount + 1;
          lastFailureTs := s.after;
          if failureCount >= threshold {
            isOpen := true;
          }
      }
      return Reply(true, s.result);
    }
  }

  // ---------------------------------------------------------------------------------------------
  // Bisimulation
  // ---------------------------------------------------------------------------------------------

  /** The states correspond; half-open is never left behind by a call, since an open circuit has its failures. */
  predicate Similar(b: ThreeState, c: TwoState) {
    && b.failures == c.failures && b.threshold == c.threshold && b.resetMs == c.resetMs
    && b.lastFailure == c.lastFailure
    && !b.state.HalfOpen?
    && (b.state.Open? <==> c.isOpen)
    && (c.isOpen ==> c.failures >= c.threshold)
  }

  function RepliesThree(b: ThreeState, calls: seq<Stimulus>): seq<Reply>
    decreases |calls|
  {
    if calls == [] then []
    else
      var (b1, reply) := CallThree(b, calls[0]);
      [reply] + RepliesThree(b1, calls[1..])
  }

  function RepliesTwo(c: TwoState, calls: seq<Stimulus>): seq<Reply>
    decreases |calls|
  {
    if calls == [] then []
    else
      var (c1, reply) := CallTwo(c, calls[0]);
      [reply] + RepliesTwo(c1, calls[1..])
  }

  /** The breaker after all the calls. */
  function AfterThree(b: ThreeState, calls: seq<Stimulus>): ThreeState
    decreases |calls|
  {
    if calls == [] then b else AfterThree(CallThree(b, calls[0]).0, calls[1..])
  }

  function AfterTwo(c: TwoState, calls: seq<Stimulus>): TwoState
    decreases |calls|
  {
    if calls == [] then c else AfterTwo(CallTwo(c, calls[0]).0, calls[1..])
  }

  lemma {:induction false} SimilarBreakersAgree(b: ThreeState, c: TwoState, calls: seq<Stimulus>)
    requires Similar(b, c)
    ensures RepliesThree(b, calls) == RepliesTwo(c, calls)
    ensures Similar(AfterThree(b, calls), AfterTwo(c, calls))
    decreases |calls|
  {
    if calls != [] {
      SimilarBreakersAgree(CallThree(b, calls[0]).0, CallTwo(c, calls[0]).0, calls[1..]);
    }
  }

  /**
   * Given the same thresholds, clock readings and inner answers, the three-state and the two-state breaker
   * admit and answer the same on every sequence of calls; and no call leaves the three-state one half-open.
   */
  lemma BreakersAgree(threshold: int, resetMs: int, calls: seq<Stimulus>)
    ensures var b, c := ThreeState(0, threshold, resetMs, 0, Closed), TwoState(0, threshold, resetMs, 0, false);
      RepliesThree(b, calls) == RepliesTwo(c, calls) && !AfterThree(b, calls).state.HalfOpen?
  {
    SimilarBreakersAgree(ThreeState(0, threshold, resetMs, 0, Closed), TwoState(0, threshold, resetMs, 0, false),
                         calls);
  }

  // ---------------------------------------------------------------------------------------------
  // When a call is rejected
  // ---------------------------------------------------------------------------------------------

  /** How many of the first n calls, counted back from the newest admitted one, were admitted and failed in a row. */
  function Streak(calls: seq<Stimulus>, replies: seq<Reply>, n: nat): nat
    requires n <= |calls| && n <= |replies|
  {
    if n == 0 then 0
    else if !replies[n - 1].admitted then Streak(calls, replies, n - 1)
    else if calls[n - 1].result.Err? then Streak(calls, replies, n - 1) + 1
    else 0
  }

  /** When the newest admitted failure among the first n calls was in; 0 when there is none. */
  function NewestFailure(calls: seq<Stimulus>, replies: seq<Reply>, n: nat): int
    requires n <= |calls| && n <= |replies|
  {
    if n == 0 then 0
    else if replies[n - 1].admitted && calls[n - 1].result.Err? then calls[n - 1].after
    else NewestFailure(calls, replies, n - 1)
  }

  lemma {:induction false} ReplyAt(c: TwoState, calls: seq<Stimulus>, n: nat)
    requires n < |calls|
    ensures |RepliesTwo(c, calls)| == |calls|
    ensures RepliesTwo(c, calls)[n] == CallTwo(AfterTwo(c, calls[..n]), calls[n]).1
    ensures AfterTwo(c, calls[..n + 1]) == CallTwo(AfterTwo(c, calls[..n]), calls[n]).0
    decreases |calls|
  {
    hide CallTwo;
    var c1, rest := CallTwo(c, calls[0]).0, calls[1..];
    RepliesLength(c1, rest);
    assert calls[..n + 1][0] == calls[0] && calls[..n + 1][1..] == rest[..n];
    if n > 0 {
      assert calls[..n][0] == calls[0] && calls[..n][1..] == rest[..n - 1];
      ReplyAt(c1, rest, n - 1);
    } else {
      assert rest[..0] == [] && calls[..0] == [];
    }
  }

  lemma {:induction false} RepliesLength(c: TwoState, calls: seq<Stimulus>)
    ensures |RepliesTwo(c, calls)| == |calls|
    decreases |calls|
  {
    if calls != [] {
      RepliesLength(CallTwo(c, calls[0]).0, calls[1..]);
    }
  }

  /** What the breaker knows after n calls is what they and their replies say. */
  lemma {:induction false} BreakerKnows(threshold: int, resetMs: int, calls: seq<Stimulus>, n: nat)
    requires n <= |calls|
    ensures var c := TwoState(0, threshold, resetMs, 0, false);
      var replies := RepliesTwo(c, calls);
      && |replies| == |calls|
      && var streak := Streak(calls, replies, n);
         AfterTwo(c, calls[..n]) ==
         TwoState(streak, threshold, resetMs, NewestFailure(calls, replies, n), streak > 0 && streak >= threshold)
    decreases n
  {
    hide RepliesTwo, AfterTwo;
    var c := TwoState(0, threshold, resetMs, 0, false);
    RepliesLength(c, calls);
    if n == 0 {
      assert calls[..0] == [];
      NothingCalled(c);
    } else {
      BreakerKnows(threshold, resetMs, calls, n - 1);
      ReplyAt(c, calls, n - 1);
    }
  }

  lemma NothingCalled(c: TwoState)
    ensures AfterTwo(c, []) == c
  {
  }

  /**
   * Over every sequence of calls, under any clock, and for either breaker: a call is rejected exactly if at
   * least `threshold` of the admitted calls have failed in a row up to the newest one, and no more than the
   * reset time has passed since that. A rejected call is answered by the breaker's error, an admitted one by
   * the inner handler.
   */
  lemma RejectsExactlyWhen(threshold: int, resetMs: int, calls: seq<Stimulus>, n: nat)
    requires n < |calls|
    ensures var replies := RepliesTwo(TwoState(0, threshold, resetMs, 0, false), calls);
      && replies == RepliesThree(ThreeState(0, threshold, resetMs, 0, Closed), calls)
      && |replies| == |calls|
      && var streak, newest := Streak(calls, replies, n), NewestFailure(calls, replies, n);
         && (!replies[n].admitted <==> streak > 0 && streak >= threshold && calls[n].before - newest <= resetMs)
         && replies[n].result ==
            if replies[n].admitted then calls[n].result else Err(StorageError("circuit breaker open"))
  {
    hide RepliesTwo, RepliesThree, AfterTwo;
    BreakersAgree(threshold, resetMs, calls);
    BreakerKnows(threshold, resetMs, calls, n);
    ReplyAt(TwoState(0, threshold, resetMs, 0, false), calls, n);
  }

  // ---------------------------------------------------------------------------------------------
  // Rate of calls let through to a failing handler
  // ---------------------------------------------------------------------------------------------

  /** Clock readings never run backwards, and every inner call fails. */
  predicate FailingRun(calls: seq<Stimulus>) {
    && (forall i :: 0 <= i < |calls| ==> calls[i].before <= calls[i].after && calls[i].result.Err?)
    && (forall i :: 0 <= i < |calls| - 1 ==> calls[i].after <= calls[i + 1].before)
  }

  /** The times at which admitted calls failed. */
  function Stamps(c: TwoState, calls: seq<Stimulus>): seq<int>
    decreases |calls|
  {
    if calls == [] then []
    else
      var (c1, reply) := CallTwo(c, calls[0]);
      (if reply.admitted then [calls[0].after] else []) + Stamps(c1, calls[1..])
  }

  lemma FailingTail(calls: seq<Stimulus>)
    requires FailingRun(calls) && calls != []
    ensures FailingRun(calls[1..])
  {
    var rest := calls[1..];
    forall i | 0 <= i < |rest| - 1
      ensures rest[i].after <= rest[i + 1].before
    {
      assert calls[i + 1].after <= calls[i + 1 + 1].before;
    }
  }

  /** Once open, a breaker lets the j-th failing call through no sooner than j + 1 full reset periods later. */
  lemma {:induction false} OpenSpacing(c: TwoState, calls: seq<Stimulus>, j: nat)
    requires FailingRun(calls) && c.isOpen && c.failures >= c.threshold && c.resetMs >= 0
    requires j < |Stamps(c, calls)|
    ensures Stamps(c, calls)[j] - c.lastFailure >= (j + 1) * (c.resetMs + 1)
    decreases |calls|
  {
    var (c1, reply) := CallTwo(c, calls[0]);
    FailingTail(calls);
    if !reply.admitted {
      OpenSpacing(c1, calls[1..], j);
    } else if j > 0 {
      OpenSpacing(c1, calls[1..], j - 1);
      assert (j + 1) * (c.resetMs + 1) == j * (c.resetMs + 1) + (c.resetMs + 1);
    }
  }

  lemma {:induction false} ClosedSpacing(c: TwoState, calls: seq<Stimulus>, j: nat)
    requires FailingRun(calls) && !c.isOpen && 0 <= c.failures < c.threshold && c.resetMs >= 0
    requires c.threshold - c.failures <= j + 1 <= |Stamps(c, calls)|
    ensures var t := Stamps(c, calls);
      t[j] - t[c.threshold - c.failures - 1] >= (j + 1 - (c.threshold - c.failures)) * (c.resetMs + 1)
    decreases |calls|
  {
    var c1 := CallTwo(c, calls[0]).0;
    FailingTail(calls);
    if c.failures + 1 < c.threshold {
      ClosedSpacing(c1, calls[1..], j - 1);
    } else if j > 0 {
      OpenSpacing(c1, calls[1..], j - 1);
    }
  }

  /**
   * Under a clock that never runs backwards, a breaker with threshold >= 1 and reset >= 0 lets n >= threshold
   * calls through to a handler that always fails only over (n - threshold) * (reset + 1) milliseconds: the
   * probes are more than a reset period apart, over every sequence of calls, and for either breaker.
   */
  lemma RateBound(threshold: int, resetMs: int, calls: seq<Stimulus>)
    requires FailingRun(calls) && threshold >= 1 && resetMs >= 0
    ensures var c := TwoState(0, threshold, resetMs, 0, false);
      var t := Stamps(c, calls);
      |t| >= threshold ==> (|t| - threshold) * (resetMs + 1) <= t[|t| - 1] - t[threshold - 1]
    ensures var b := ThreeState(0, threshold, resetMs, 0, Closed);
      Admitted(RepliesThree(b, calls)) == |Stamps(TwoState(0, threshold, resetMs, 0, false), calls)|
  {
    var c := TwoState(0, threshold, resetMs, 0, false);
    if |Stamps(c, calls)| >= threshold {
      ClosedSpacing(c, calls, |Stamps(c, calls)| - 1);
    }
    BreakersAgree(threshold, resetMs, calls);
    StampsCountAdmitted(c, calls);
  }

  function Admitted(replies: seq<Reply>): nat {
    if replies == [] then 0 else (if replies[0].admitted then 1 else 0) + Admitted(replies[1..])
  }

  lemma {:induction false} StampsCountAdmitted(c: TwoState, calls: seq<Stimulus>)
    ensures Admitted(RepliesTwo(c, calls)) == |Stamps(c, calls)|
    decreases |calls|
  {
    if calls != [] {
      var (c1, reply) := CallTwo(c, calls[0]);
      StampsCountAdmitted(c1, calls[1..]);
      assert ([reply] + RepliesTwo(c1, calls[1..]))[1..] == RepliesTwo(c1, calls[1..]);
    }
  }

  // ---------------------------------------------------------------------------------------------
  // Bulkhead
  // ---------------------------------------------------------------------------------------------

  /** A call that, while it runs, makes the nested calls through the same bulkhead. */
  datatype CallTree = CallTree(nested: seq<CallTree>)

  /** The calls fewer than `room` levels below the root, root included. */
  function Nodes(t: CallTree, room: int): nat
    decreases t, 0
  {
    if room <= 0 then 0 else 1 + NodesOf(t.nested, room - 1)
  }

  function NodesOf(ts: seq<CallTree>, room: int): nat
    decreases ts, 1
  {
    if ts == [] then 0 else NodesOf(ts[..|ts| - 1], room) + Nodes(ts[|ts| - 1], room)
  }

  /** n calls, each made by the one before. */
  function Chain(n: nat): CallTree
    requires n > 0
  {
    CallTree(if n == 1 then [] else [Chain(n - 1)])
  }

  /** Of n calls nested in one another as many as the limit are let through, of none if the limit is not positive. */
  lemma {:induction false} ChainAdmits(n: nat, limit: int)
    requires n > 0
    ensures Nodes(Chain(n), limit) == if limit <= 0 then 0 else if n < limit then n else limit
    decreases n
  {
    if limit > 0 {
      var nested := Chain(n).nested;
      if n > 1 {
        ChainAdmits(n - 1, limit - 1);
        assert nested[..0] == [] && nested[0] == Chain(n - 1);
        assert NodesOf(nested, limit - 1) == NodesOf(nested[..0], limit - 1) + Nodes(nested[0], limit - 1);
      }
    }
  }

  lemma {:induction false} LeavesAdmitted(ts: seq<CallTree>, room: int)
    requires forall i :: 0 <= i < |ts| ==> ts[i] == CallTree([])
    ensures NodesOf(ts, room) == if room <= 0 then 0 else |ts|
    decreases |ts|
  {
    if ts != [] {
      LeavesAdmitted(ts[..|ts| - 1], room);
      assert NodesOf([], room - 1) == 0;
    }
  }

  /** Calls that one call makes in turn do not stand in each other's way: beside it all go through, or none. */
  lemma RowAdmits(ts: seq<CallTree>, limit: int)
    requires forall i :: 0 <= i < |ts| ==> ts[i] == CallTree([])
    ensures Nodes(CallTree(ts), limit) == if limit <= 0 then 0 else if limit == 1 then 1 else 1 + |ts|
  {
    LeavesAdmitted(ts, limit - 1);
  }

  class Bulkhead {
    const maxConcurrent: int
    var activeCount: int
    ghost var peak: int

    constructor (maxConcurrent: int)
      ensures this.maxConcurrent == maxConcurrent && activeCount == 0 && peak == 0
    {
      this.maxConcurrent, activeCount, peak := maxConcurrent, 0, 0;
    }

    /**
     * Exactly the calls above the limit's depth are let through, the slots taken are given back, and no more
     * calls than the limit are ever active at once.
     */
    method Call(t: CallTree) returns (admitted: nat)
      requires 0 <= activeCount <= peak && (peak == 0 || peak <= maxConcurrent)
      modifies this
      ensures activeCount == old(activeCount) && activeCount <= peak
      ensures old(peak) <= peak && (peak == 0 || peak <= maxConcurrent)
      ensures admitted == Nodes(t, maxConcurrent - activeCount)
      decreases t
    {
      if activeCount >= maxConcurrent {
        return 0;
      }
      activeCount := activeCount + 1;
      peak := if activeCount > peak then activeCount else peak;
      admitted := 1;
      for i := 0 to |t.nested|
        invariant activeCount == old(activeCount) + 1 && activeCount <= peak
        invariant old(peak) <= peak <= maxConcurrent
        invariant admitted == 1 + NodesOf(t.nested[..i], maxConcurrent - activeCount)
      {
        assert t.nested[..i + 1][..i] == t.nested[..i];
        var more := Call(t.nested[i]);
        admitted := admitted + more;
      }
      assert t.nested[..|t.nested|] == t.nested;
      activeCount := activeCount - 1;
    }
  }
}
