/** Counting the stored workflows by status. */
module StatusReport {
  import opened Types
  import opened Replay
  import opened WorkflowEngine

  function StatusLabel(s: WorkflowStatus): string {
    match s
    case Pending => "Pending"
    case Running => "Running"
    case Completed => "Completed"
    case Failed => "Failed"
    case Cancelled => "Cancelled"
  }

  /** How many of the listed workflows have the status. */
  function WithStatus(ids: seq<WorkflowId>, logs: map<WorkflowId, seq<Event>>, status: WorkflowStatus): nat
    requires forall id :: id in ids ==> id in logs && logs[id] != []
  {
    if ids == [] then 0
    else
      var id := ids[|ids| - 1];
      WithStatus(ids[..|ids| - 1], logs, status) + if StateOf(logs[id]).status == status then 1 else 0
  }

  function CountOf(counts: map<string, nat>, status: WorkflowStatus): nat {
    if StatusLabel(status) in counts then counts[StatusLabel(status)] else 0
  }

  function Total(counts: map<string, nat>): nat {
    CountOf(counts, Pending) + CountOf(counts, Running) + CountOf(counts, Completed)
    + CountOf(counts, Failed) + CountOf(counts, Cancelled)
  }

  lemma LabelsDiffer(a: WorkflowStatus, b: WorkflowStatus)
    ensures StatusLabel(a) == StatusLabel(b) <==> a == b
  {
    assert |"Pending"| == 7 && |"Running"| == 7 && |"Completed"| == 9 && |"Failed"| == 6 && |"Cancelled"| == 9;
    assert "Pending"[0] == 'P' && "Running"[0] == 'R' && "Completed"[1] == 'o' && "Cancelled"[1] == 'a';
  }

  /** One more workflow with the status. */
  function Bump(counts: map<string, nat>, status: WorkflowStatus): map<string, nat> {
    counts[StatusLabel(status) := CountOf(counts, status) + 1]
  }

  lemma BumpCounts(counts: map<string, nat>, status: WorkflowStatus)
    ensures forall other ::
              CountOf(Bump(counts, status), other) == CountOf(counts, other) + if other == status then 1 else 0
    ensures Total(Bump(counts, status)) == Total(counts) + 1
    ensures forall key :: key in Bump(counts, status) <==> key in counts || key == StatusLabel(status)
  {
    hide StatusLabel;
    forall other
      ensures CountOf(Bump(counts, status), other) == CountOf(counts, other) + if other == status then 1 else 0
    {
      LabelsDiffer(other, status);
    }
  }

  lemma WithStatusStep(ids: seq<WorkflowId>, i: nat, logs: map<WorkflowId, seq<Event>>, status: WorkflowStatus)
    requires i < |ids| && forall id :: id in ids ==> id in logs && logs[id] != []
    ensures WithStatus(ids[..i + 1], logs, status) ==
            WithStatus(ids[..i], logs, status) + if StateOf(logs[ids[i]]).status == status then 1 else 0
  {
    assert ids[..i + 1][..i] == ids[..i];
  }

  /** The number under a key, 0 if there is none. */
  function Under(counts: map<string, nat>, key: string): nat {
    if key in counts then counts[key] else 0
  }

  /** The stored workflows that replay to the status. */
  ghost function Having(logs: map<WorkflowId, seq<Event>>, status: WorkflowStatus): set<WorkflowId>
    requires forall id :: id in logs ==> logs[id] != []
  {
    set id | id in logs && StateOf(logs[id]).status == status
  }

  /** Listed once each, the workflows with the status are as many as there are. */
  lemma {:induction false} WithStatusCounts(ids: seq<WorkflowId>, logs: map<WorkflowId, seq<Event>>,
                                            status: WorkflowStatus)
    returns (having: set<WorkflowId>)
    requires NoDuplicates(ids) && forall id :: id in ids ==> id in logs && logs[id] != []
    ensures WithStatus(ids, logs, status) == |having|
    ensures forall id :: id in having <==> id in ids && StateOf(logs[id]).status == status
  {
    hide StateOf;
    having := {};
    if ids != [] {
      var init, last := ids[..|ids| - 1], ids[|ids| - 1];
      assert ids == init + [last];
      NoDuplicatesSnoc(init, last);
      having := WithStatusCounts(init, logs, status);
      if StateOf(logs[last]).status == status {
        having := having + {last};
      }
    }
  }

  lemma LabelledCounts(storage: MemoryStorage, counts: map<string, nat>)
    requires storage.Valid()
    requires forall status :: CountOf(counts, status) == WithStatus(storage.ids, storage.eventLogs, status)
    ensures forall status :: CountOf(counts, status) == |Having(storage.eventLogs, status)|
    ensures Under(counts, "Pending") == |Having(storage.eventLogs, Pending)|
    ensures Under(counts, "Running") == |Having(storage.eventLogs, Running)|
    ensures Under(counts, "Completed") == |Having(storage.eventLogs, Completed)|
    ensures Under(counts, "Failed") == |Having(storage.eventLogs, Failed)|
    ensures Under(counts, "Cancelled") == |Having(storage.eventLogs, Cancelled)|
  {
    forall status
      ensures CountOf(counts, status) == |Having(storage.eventLogs, status)|
    {
      var having := WithStatusCounts(storage.ids, storage.eventLogs, status);
      assert having == Having(storage.eventLogs, status);
    }
    assert CountOf(counts, Pending) == Under(counts, "Pending");
    assert CountOf(counts, Running) == Under(counts, "Running");
    assert CountOf(counts, Completed) == Under(counts, "Completed");
    assert CountOf(counts, Failed) == Under(counts, "Failed");
    assert CountOf(counts, Cancelled) == Under(counts, "Cancelled");
  }

  /**
   * Each status is counted exactly, under its own label and no other, and the counts add up to the workflows
   * listed.
   */
  method CountByStatus(storage: MemoryStorage) returns (counts: map<string, nat>)
    requires storage.Valid()
    ensures Under(counts, "Pending") == |Having(storage.eventLogs, Pending)|
    ensures Under(counts, "Running") == |Having(storage.eventLogs, Running)|
    ensures Under(counts, "Completed") == |Having(storage.eventLogs, Completed)|
    ensures Under(counts, "Failed") == |Having(storage.eventLogs, Failed)|
    ensures Under(counts, "Cancelled") == |Having(storage.eventLogs, Cancelled)|
    ensures forall status :: CountOf(counts, status) == WithStatus(storage.ids, storage.eventLogs, status)
    ensures forall key :: key in counts ==> exists status :: key == StatusLabel(status)
    ensures Total(counts) == |storage.ids|
  {
    hide CountOf, Total, StatusLabel, WithStatus, Bump;
    counts := map[];
    EmptyCounts(storage.eventLogs);
    var ids := storage.ListWorkflows();
    for i := 0 to |ids|
      invariant forall status :: CountOf(counts, status) == WithStatus(ids[..i], storage.eventLogs, status)
      invariant forall key :: key in counts ==> exists status :: key == StatusLabel(status)
      invariant Total(counts) == i
    {
      var events := storage.LoadEvents(ids[i]);
      var state := Rebuild(events);
      BumpCounts(counts, state.status);
      forall status {
        WithStatusStep(ids, i, storage.eventLogs, status);
      }
      counts := Bump(counts, state.status);
    }
    assert ids[..|ids|] == ids;
    LabelledCounts(storage, counts);
  }

  lemma EmptyCounts(logs: map<WorkflowId, seq<Event>>)
    ensures Total(map[]) == 0
    ensures forall status :: CountOf(map[], status) == WithStatus([], logs, status) == 0
  {
  }
}
