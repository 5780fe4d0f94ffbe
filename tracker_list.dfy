/**
  The task records of the tracker sync, read off classified lines of
  `tasks.md`: the tracker numbers the tasks and keeps the raw current group.
*/
module TrackerList {
  import opened Wrappers
  import opened TaskList

  /** A task record of the tracker sync. */
  datatype TrackerTask = TrackerTask(
    externalId: string,
    title: string,
    description: string,
    status: string,
    priority: string,
    storyPoints: nat,
    order: nat,
    group: Option<string>)

  /** The record a task line yields under the current group, with its order number. */
  function RecordOf(e: Entry, group: Option<string>, order: nat): (t: TrackerTask)
    ensures t.externalId == e.id && t.title == e.description && t.order == order && t.group == group
    ensures t.status == "done" <==> e.completed
    ensures t.status in {"done", "todo"} && t.priority == "medium" && t.storyPoints == 1
  {
    TrackerTask(e.id, e.description, "Task " + e.id + " from " + GroupName(group),
                if e.completed then "done" else "todo", "medium", 1, order, group)
  }

  /** The tracker's records for `kinds`, numbered from 1 in line order. */
  function TrackerParse(kinds: seq<LineKind<Entry>>): seq<TrackerTask> {
    if |kinds| == 0 then []
    else
      var last := |kinds| - 1;
      var earlier := TrackerParse(kinds[..last]);
      earlier + if kinds[last].item.Some? then [RecordOf(kinds[last].item.value, GroupAt(kinds, last), |earlier| + 1)] else []
  }

  /**
    The tracker reads the same tasks as the state detector: one record per
    task line, in order, with the same ID, title, completion and group name,
    and the `k`-th record has order `k + 1`.
  */
  lemma {:induction false} TrackerAgreesWithParse(kinds: seq<LineKind<Entry>>)
    ensures |TrackerParse(kinds)| == |Parse(kinds)|
    ensures forall k :: 0 <= k < |Parse(kinds)| ==> SameTask(TrackerParse(kinds)[k], Parse(kinds)[k], k)
  {
    if |kinds| > 0 {
      var last := |kinds| - 1;
      TrackerAgreesWithParse(kinds[..last]);
    }
  }

  /** A tracker record and a detector task say the same of the `k`-th task line. */
  predicate SameTask(r: TrackerTask, t: Task, k: nat) {
    && r.externalId == t.id && r.title == t.description && (r.status == "done" <==> t.completed)
    && GroupName(r.group) == t.group && r.order == k + 1
    && r.description == "Task " + t.id + " from " + t.group
  }

  /** Reading line `i` after `kinds[..i]` appends at most one record, numbered after the others. */
  lemma ReadOneMoreTracker(kinds: seq<LineKind<Entry>>, i: nat)
    requires i < |kinds|
    ensures TrackerParse(kinds[..i + 1]) ==
            TrackerParse(kinds[..i]) +
            if kinds[i].item.Some? then [RecordOf(kinds[i].item.value, GroupAfter(kinds[..i + 1]), |TrackerParse(kinds[..i])| + 1)] else []
  {
    var ks := kinds[..i + 1];
    assert ks[..i] == kinds[..i];
    assert ks[i] == kinds[i];
  }
}
