/** Snapshots through JSON: what they keep, what they drop, and what can still be replayed on top of them. */
module Snapshots {
  import opened Types
  import opened Replay

  const MIN32 := -0x8000_0000
  const MAX32 := 0x7FFF_FFFF

  type int32 = x: int | MIN32 <= x <= MAX32

  type int64 = x: int | -0x8000_0000_0000_0000 <= x <= 0x7FFF_FFFF_FFFF_FFFF

  datatype Snapshot = Snapshot(workflowId: WorkflowId, state: State, eventCount: int32, createdAt: int64)

  /** Int64 to Int keeps the low 32 bits. */
  function Low32(x: int64): int32 {
    var low := x % 0x1_0000_0000;
    if low <= MAX32 then low else low - 0x1_0000_0000
  }

  /** Double to Int drops the fraction and stays within range. */
  function ToInt(n: real): int32 {
    var whole := if n >= 0.0 then n.Floor else -((-n).Floor);
    if whole > MAX32 then MAX32 else if whole < MIN32 then MIN32 else whole
  }

  function StatusToString(s: WorkflowStatus): string {
    match s
    case Pending => "Pending"
    case Running => "Running"
    case Completed => "Completed"
    case Failed => "Failed"
    case Cancelled => "Cancelled"
  }

  function StringToStatus(s: string): WorkflowStatus {
    if s == "Pending" then Pending
    else if s == "Running" then Running
    else if s == "Completed" then Completed
    else if s == "Failed" then Failed
    else if s == "Cancelled" then Cancelled
    else Pending
  }

  function StateToJson(s: State): Json {
    Object(map["workflow_id" := String(s.workflowId),
               "status" := String(StatusToString(s.status)),
               "current_step" := String(s.currentStep)])
  }

  function StateFromJson(fields: map<string, Json>): Result<State> {
    if !("workflow_id" in fields && fields["workflow_id"].String?) then Err(SerializationError("missing workflow_id"))
    else
      var status :=
        if "status" in fields && fields["status"].String? then StringToStatus(fields["status"].s) else Pending;
      var current :=
        if "current_step" in fields && fields["current_step"].String? then fields["current_step"].s else "";
      Ok(NewState(fields["workflow_id"].s).(status := status, currentStep := current))
  }

  function ToJson(s: Snapshot): Json {
    Object(map["workflow_id" := String(s.workflowId),
               "state" := StateToJson(s.state),
               "event_count" := Number(s.eventCount as real),
               "created_at" := Number(Low32(s.createdAt) as real)])
  }

  function FromJson(json: Json): Result<Snapshot> {
    match json
    case Object(fields) =>
      if !("workflow_id" in fields && fields["workflow_id"].String?) then Err(SerializationError("missing workflow_id"))
      else if !("state" in fields && fields["state"].Object?) then Err(SerializationError("missing state"))
      else
        (match StateFromJson(fields["state"].fields)
         case Err(e) => Err(e)
         case Ok(state) =>
           var count :=
             if "event_count" in fields && fields["event_count"].Number? then ToInt(fields["event_count"].n) else 0;
           var created :=
             if "created_at" in fields && fields["created_at"].Number? then ToInt(fields["created_at"].n) else 0;
           Ok(Snapshot(fields["workflow_id"].s, state, count, created)))
    case _ => Err(SerializationError("expected object"))
  }

  lemma StatusRoundTrip(s: WorkflowStatus)
    ensures StringToStatus(StatusToString(s)) == s
  {
    assert |"Pending"| == 7 && |"Running"| == 7 && |"Completed"| == 9 && |"Failed"| == 6 && |"Cancelled"| == 9;
    assert "Pending"[0] == 'P' && "Running"[0] == 'R' && "Completed"[1] == 'o' && "Cancelled"[1] == 'a';
  }

  lemma IntRoundTrip(x: int32)
    ensures ToInt(x as real) == x
  {
    var i: int := x;
    assert -(i as real) == (-i) as real;
  }

  lemma Low32Exact(x: int64)
    ensures Low32(x) == x <==> MIN32 <= x <= MAX32
  {
  }

  /** What is left of a state: its id, its status and the step it was at. */
  function Projected(s: State): State {
    NewState(s.workflowId).(status := s.status, currentStep := s.currentStep)
  }

  /**
   * A snapshot comes back with its ids, status, current step and event count, without completed or failed
   * steps and attempts; its creation time comes back exactly when it fits 32 bits.
   */
  lemma SnapshotRoundTrip(s: Snapshot)
    ensures FromJson(ToJson(s)) == Ok(Snapshot(s.workflowId, Projected(s.state), s.eventCount, Low32(s.createdAt)))
    ensures FromJson(ToJson(s)).value.createdAt == s.createdAt <==> MIN32 <= s.createdAt <= MAX32
    ensures FromJson(ToJson(s)) == Ok(s) <==>
            && MIN32 <= s.createdAt <= MAX32
            && s.state.completedSteps == map[] && s.state.completedOrder == []
            && s.state.failedSteps == map[] && s.state.stepAttempts == map[]
  {
    hide StatusToString, StringToStatus, ToInt, Low32;
    StatusRoundTrip(s.state.status);
    IntRoundTrip(s.eventCount);
    IntRoundTrip(Low32(s.createdAt));
    Low32Exact(s.createdAt);
    StateRoundTrip(s.state);
    FieldsDiffer();
  }

  lemma FieldsDiffer()
    ensures "workflow_id" != "state" && "workflow_id" != "event_count" && "workflow_id" != "created_at"
    ensures "state" != "event_count" && "state" != "created_at" && "event_count" != "created_at"
    ensures "workflow_id" != "status" && "workflow_id" != "current_step" && "status" != "current_step"
  {
    assert |"workflow_id"| == 11 && |"state"| == 5 && |"event_count"| == 11 && |"created_at"| == 10;
    assert |"status"| == 6 && |"current_step"| == 12;
    assert "workflow_id"[0] == 'w' && "event_count"[0] == 'e';
  }

  lemma StateRoundTrip(s: State)
    ensures StateToJson(s).Object? && StateFromJson(StateToJson(s).fields) == Ok(Projected(s))
  {
    hide StatusToString, StringToStatus;
    StatusRoundTrip(s.status);
    FieldsDiffer();
  }

  predicate HasString(fields: map<string, Json>, key: string) {
    key in fields && fields[key].String?
  }

  /**
   * What any JSON is restored to: it is rejected exactly if an id or the state is missing, and the message says
   * which; a status that is missing or unknown counts as pending, a missing step as none.
   */
  lemma RestoreAccepts(json: Json)
    ensures FromJson(json).Ok? <==>
            && json.Object? && HasString(json.fields, "workflow_id")
            && "state" in json.fields && json.fields["state"].Object?
            && HasString(json.fields["state"].fields, "workflow_id")
    ensures !json.Object? ==> FromJson(json) == Err(SerializationError("expected object"))
    ensures json.Object? && FromJson(json).Err? ==>
              FromJson(json).error == SerializationError(
                if HasString(json.fields, "workflow_id") && !("state" in json.fields && json.fields["state"].Object?)
                then "missing state" else "missing workflow_id")
    ensures FromJson(json).Ok? ==>
              var restored, inner := FromJson(json).value, json.fields["state"].fields;
              var status := if HasString(inner, "status") then inner["status"].s else "";
              && restored.workflowId == json.fields["workflow_id"].s
              && restored.state.workflowId == inner["workflow_id"].s
              && restored.state.currentStep ==
                 (if HasString(inner, "current_step") then inner["current_step"].s else "")
              && (restored.state.status == Running <==> status == "Running")
              && (restored.state.status == Completed <==> status == "Completed")
              && (restored.state.status == Failed <==> status == "Failed")
              && (restored.state.status == Cancelled <==> status == "Cancelled")
              && restored.state.completedSteps == map[] && restored.state.completedOrder == []
              && restored.state.failedSteps == map[] && restored.state.stepAttempts == map[]
  {
    hide ToInt;
    StatusLabels();
  }

  lemma StatusLabels()
    ensures forall s ::
              && (StringToStatus(s) == Running <==> s == "Running")
              && (StringToStatus(s) == Completed <==> s == "Completed")
              && (StringToStatus(s) == Failed <==> s == "Failed")
              && (StringToStatus(s) == Cancelled <==> s == "Cancelled")
  {
    assert |"Pending"| == 7 && |"Running"| == 7 && |"Completed"| == 9 && |"Failed"| == 6 && |"Cancelled"| == 9;
    assert "Pending"[0] == 'P' && "Running"[0] == 'R' && "Completed"[1] == 'o' && "Cancelled"[1] == 'a';
  }

  /** Numbers lose their fraction, towards zero, and stay within 32 bits; creation times wrap around. */
  lemma NumbersKept(n: real, x: int64)
    ensures MIN32 as real <= n <= MAX32 as real && n >= 0.0 ==> ToInt(n) as real <= n < ToInt(n) as real + 1.0
    ensures MIN32 as real <= n <= MAX32 as real && n < 0.0 ==> ToInt(n) as real - 1.0 < n <= ToInt(n) as real
    ensures (n > MAX32 as real ==> ToInt(n) == MAX32) && (n < MIN32 as real ==> ToInt(n) == MIN32)
    ensures (Low32(x) - x) % 0x1_0000_0000 == 0
  {
    assert (x % 0x1_0000_0000 - x) % 0x1_0000_0000 == 0;
  }

  lemma AppliedAlike(a: State, b: State, e: Event)
    requires a.status == b.status && a.currentStep == b.currentStep
    ensures var a', b' := Apply(Some(a), e), Apply(Some(b), e);
      a'.status == b'.status && a'.currentStep == b'.currentStep
  {
  }

  /** Status and current step of a continued replay depend on nothing but status and current step. */
  lemma {:induction false} ContinuedAlike(a: State, b: State, events: seq<Event>)
    requires a.status == b.status && a.currentStep == b.currentStep
    ensures var a', b' := ReplayFrom(Some(a), events).value, ReplayFrom(Some(b), events).value;
      a'.status == b'.status && a'.currentStep == b'.currentStep
  {
    hide Apply;
    if events != [] {
      var n := |events| - 1;
      ContinuedAlike(a, b, events[..n]);
      AppliedAlike(ReplayFrom(Some(a), events[..n]).value, ReplayFrom(Some(b), events[..n]).value, events[n]);
    }
  }

  /**
   * Recovery from a snapshot taken after `before`: continuing over `after` from the restored snapshot gives
   * the status and the current step of a full replay, for every suffix.
   */
  lemma SnapshotRecovery(before: seq<Event>, after: seq<Event>, id: WorkflowId, createdAt: int64)
    requires before != [] && |before| <= MAX32
    ensures var restored := FromJson(ToJson(Snapshot(id, StateOf(before), |before|, createdAt)));
      && restored.Ok? && restored.value.eventCount == |before|
      && var continued := ReplayFrom(Some(restored.value.state), after);
         && continued.Some?
         && continued.value.status == StateOf(before + after).status
         && continued.value.currentStep == StateOf(before + after).currentStep
  {
    hide ToJson, FromJson;
    SnapshotRoundTrip(Snapshot(id, StateOf(before), |before|, createdAt));
    ReplayComposes(None, before, after);
    ContinuedAlike(Projected(StateOf(before)), StateOf(before), after);
  }

  /** The completed steps do not survive: a continued replay knows only those completed after the snapshot. */
  lemma {:induction false} SnapshotForgets(s: State, events: seq<Event>, step: string)
    ensures step in ReplayFrom(Some(Projected(s)), events).value.completedSteps <==>
            exists i :: 0 <= i < |events| && events[i].StepCompleted? && events[i].step == step
  {
    if events != [] {
      var n := |events| - 1;
      SnapshotForgets(s, events[..n], step);
      var before := ReplayFrom(Some(Projected(s)), events[..n]).value;
      var after := ReplayFrom(Some(Projected(s)), events).value;
      assert after == Apply(Some(before), events[n]);
      if step in before.completedSteps {
        var i :| 0 <= i < n && events[..n][i].StepCompleted? && events[..n][i].step == step;
        assert events[i] == events[..n][i];
      }
      if i :| 0 <= i < |events| && events[i].StepCompleted? && events[i].step == step {
        if i < n {
          assert events[..n][i] == events[i];
        }
      }
    }
  }
}
