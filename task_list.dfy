/**
  The line-by-line reading of a whole `tasks.md` text into task records, as
  the state detector and the Notion sync do it; the specification their
  parsing loops are proved against.
*/
module TaskList {
  import opened Wrappers

  /** What a task line says on its own: ID, description, checkbox state and indent. */
  datatype Entry = Entry(id: string, description: string, completed: bool, indent: nat)

  /** What one line means to a reader: the group it sets, if any, and the item (a task or a test) it holds, if any. */
  datatype LineKind<T> = LineKind(heading: Option<string>, item: Option<T>)

  /** The group current once line `i` has been read: a heading replaces it, other lines keep it. */
  function GroupAt<T>(kinds: seq<LineKind<T>>, i: nat): Option<string>
    requires i < |kinds|
  {
    if kinds[i].heading.Some? then kinds[i].heading
    else if i == 0 then None
    else GroupAt(kinds, i - 1)
  }

  /** The current group after reading all of `kinds`. */
  function GroupAfter<T>(kinds: seq<LineKind<T>>): Option<string> {
    if |kinds| == 0 then None else GroupAt(kinds, |kinds| - 1)
  }

  /** The reading of each line of a text, in order, by the given reading of one line. */
  function ClassifyAll<T>(lines: seq<string>, classify: string -> LineKind<T>): (kinds: seq<LineKind<T>>)
    ensures |kinds| == |lines| && forall i :: 0 <= i < |lines| ==> kinds[i] == classify(lines[i])
  {
    seq(|lines|, i requires 0 <= i < |lines| => classify(lines[i]))
  }

  /** A task record of the state detector and the Notion sync. */
  datatype Task = Task(id: string, description: string, completed: bool, group: string, indent: nat)

  /**
    JavaScript's `text || fallback` on the current heading text: no text and
    the empty text, which is falsy, both give the fallback.
  */
  function OrElse(text: Option<string>, fallback: string): (name: string)
    ensures name == fallback <==> text == None || text.value in {"", fallback}
    ensures name != fallback ==> text == Some(name)
  {
    if text.Some? && text.value != "" then text.value else fallback
  }

  /** `currentGroup || 'Ungrouped'`. */
  function GroupName(group: Option<string>): string {
    OrElse(group, "Ungrouped")
  }

  /** The task a task line yields under the current group. */
  function TaskOf(e: Entry, group: Option<string>): Task {
    Task(e.id, e.description, e.completed, GroupName(group), e.indent)
  }

  /**
    The tasks read from `kinds`, in order. A line's task is filed under the
    group as that same line leaves it, since the scripts update the group
    before they look for a task.
  */
  function Parse(kinds: seq<LineKind<Entry>>): seq<Task> {
    if |kinds| == 0 then []
    else
      var last := kinds[|kinds| - 1];
      Parse(kinds[..|kinds| - 1]) + (if last.item.Some? then [TaskOf(last.item.value, GroupAt(kinds, |kinds| - 1))] else [])
  }

  /** The indices of the lines that hold a task, in line order. */
  function TaskLineIndices(kinds: seq<LineKind<Entry>>): seq<nat> {
    if |kinds| == 0 then []
    else
      var ix := TaskLineIndices(kinds[..|kinds| - 1]);
      if kinds[|kinds| - 1].item.Some? then ix + [|kinds| - 1] else ix
  }

  /** `TaskLineIndices` lists every line that holds a task, and only those, in increasing order. */
  lemma {:induction false} TaskLineIndicesSound(kinds: seq<LineKind<Entry>>)
    ensures forall a, b :: 0 <= a < b < |TaskLineIndices(kinds)| ==> TaskLineIndices(kinds)[a] < TaskLineIndices(kinds)[b]
    ensures forall k :: 0 <= k < |TaskLineIndices(kinds)| ==>
              TaskLineIndices(kinds)[k] < |kinds| && kinds[TaskLineIndices(kinds)[k]].item.Some?
    ensures forall i :: 0 <= i < |kinds| && kinds[i].item.Some? ==> i in TaskLineIndices(kinds)
  {
    if |kinds| > 0 {
      var last := |kinds| - 1;
      var prefix := kinds[..last];
      TaskLineIndicesSound(prefix);
      var ix, ix' := TaskLineIndices(kinds), TaskLineIndices(prefix);
      forall k | 0 <= k < |ix'| ensures ix[k] == ix'[k] && ix[k] < last && kinds[ix[k]] == prefix[ix[k]] {
      }
      forall i | 0 <= i < |kinds| && kinds[i].item.Some? ensures i in ix {
        if i < last {
          assert prefix[i] == kinds[i];
          var k :| 0 <= k < |ix'| && ix'[k] == i;
          assert ix[k] == i;
        } else {
          assert ix[|ix| - 1] == i;
        }
      }
    }
  }

  /** The `k`-th task of `ts` comes from the `k`-th task line `ix[k]` of `kinds`, under the group current there. */
  predicate TaskFromLineAt(kinds: seq<LineKind<Entry>>, ts: seq<Task>, ix: seq<nat>, k: nat) {
    && k < |ts| && k < |ix| && ix[k] < |kinds| && kinds[ix[k]].item.Some?
    && ts[k] == TaskOf(kinds[ix[k]].item.value, GroupAt(kinds, ix[k]))
  }

  /**
    Exactly one task per task line, in line order: the k-th task comes from
    the k-th line that holds one, under the group current at that line.
  */
  lemma {:induction false} ParseByLine(kinds: seq<LineKind<Entry>>)
    ensures |Parse(kinds)| == |TaskLineIndices(kinds)|
    ensures forall k :: 0 <= k < |Parse(kinds)| ==> TaskFromLineAt(kinds, Parse(kinds), TaskLineIndices(kinds), k)
  {
    if |kinds| > 0 {
      var last := |kinds| - 1;
      var prefix := kinds[..last];
      ParseByLine(prefix);
      forall k | 0 <= k < |Parse(prefix)|
        ensures TaskFromLineAt(kinds, Parse(kinds), TaskLineIndices(kinds), k)
      {
        EarlierTaskKept(kinds, k);
      }
    }
  }

  /** Step of `ParseByLine`: reading one more line keeps the tasks read so far and where they came from. */
  lemma EarlierTaskKept(kinds: seq<LineKind<Entry>>, k: nat)
    requires |kinds| > 0
    requires TaskFromLineAt(kinds[..|kinds| - 1], Parse(kinds[..|kinds| - 1]), TaskLineIndices(kinds[..|kinds| - 1]), k)
    ensures TaskFromLineAt(kinds, Parse(kinds), TaskLineIndices(kinds), k)
  {
    var last := |kinds| - 1;
    var prefix := kinds[..last];
    var ts, ix := Parse(prefix), TaskLineIndices(prefix);
    var i := ix[k];
    assert i < |prefix| && prefix[i].item.Some? && ts[k] == TaskOf(prefix[i].item.value, GroupAt(prefix, i));
    PrefixesKept(kinds, k);
    assert prefix[i] == kinds[i];
    GroupAtPrefix(kinds, last, i);
  }

  /** Reading one more line keeps the tasks and the task lines found so far. */
  lemma PrefixesKept(kinds: seq<LineKind<Entry>>, k: nat)
    requires |kinds| > 0 && k < |Parse(kinds[..|kinds| - 1])| && k < |TaskLineIndices(kinds[..|kinds| - 1])|
    ensures k < |Parse(kinds)| && Parse(kinds)[k] == Parse(kinds[..|kinds| - 1])[k]
    ensures k < |TaskLineIndices(kinds)| && TaskLineIndices(kinds)[k] == TaskLineIndices(kinds[..|kinds| - 1])[k]
  {
  }

  /** Reading more lines does not change the group current at line `i`. */
  lemma {:induction false} GroupAtPrefix<T>(kinds: seq<LineKind<T>>, m: nat, i: nat)
    requires i < m <= |kinds|
    ensures GroupAt(kinds[..m], i) == GroupAt(kinds, i)
  {
    assert kinds[..m][i] == kinds[i];
    if i > 0 && kinds[i].heading.None? {
      GroupAtPrefix(kinds, m, i - 1);
    }
  }

  /** With no heading at or before line `i`, there is no current group there. */
  lemma {:induction false} NoHeadingNoGroup<T>(kinds: seq<LineKind<T>>, i: nat)
    requires i < |kinds| && forall j :: 0 <= j <= i ==> kinds[j].heading.None?
    ensures GroupAt(kinds, i) == None
  {
    if i > 0 {
      NoHeadingNoGroup(kinds, i - 1);
    }
  }

  /** The group current at line `i` is the text of the last heading at or before it. */
  lemma {:induction false} GroupIsLastHeading<T>(kinds: seq<LineKind<T>>, j: nat, i: nat)
    requires j <= i < |kinds| && kinds[j].heading.Some?
    requires forall k :: j < k <= i ==> kinds[k].heading.None?
    ensures GroupAt(kinds, i) == kinds[j].heading
    decreases i - j
  {
    if j < i {
      GroupIsLastHeading(kinds, j, i - 1);
    }
  }

  /** Reading line `i` after `kinds[..i]`: a heading replaces the group, other lines keep it. */
  lemma GroupAfterStep<T>(kinds: seq<LineKind<T>>, i: nat)
    requires i < |kinds|
    ensures GroupAfter(kinds[..i + 1]) == if kinds[i].heading.Some? then kinds[i].heading else GroupAfter(kinds[..i])
  {
    assert kinds[..i + 1][i] == kinds[i];
    if i > 0 {
      GroupAtPrefix(kinds, i + 1, i - 1);
      GroupAtPrefix(kinds, i, i - 1);
    }
  }

  /** Reading line `i` after `kinds[..i]`: a task line adds one task under the group as the line leaves it. */
  lemma ReadOneMore(kinds: seq<LineKind<Entry>>, i: nat)
    requires i < |kinds|
    ensures GroupAfter(kinds[..i + 1]) == if kinds[i].heading.Some? then kinds[i].heading else GroupAfter(kinds[..i])
    ensures Parse(kinds[..i + 1]) ==
            Parse(kinds[..i]) + if kinds[i].item.Some? then [TaskOf(kinds[i].item.value, GroupAfter(kinds[..i + 1]))] else []
  {
    var ks := kinds[..i + 1];
    assert ks[..i] == kinds[..i];
    assert ks[i] == kinds[i];
    GroupAfterStep(kinds, i);
  }

  /** Every task read comes from some task line, under the group current at that line. */
  lemma ParseMember(kinds: seq<LineKind<Entry>>, t: Task)
    requires t in Parse(kinds)
    ensures exists i :: 0 <= i < |kinds| && kinds[i].item.Some? && t == TaskOf(kinds[i].item.value, GroupAt(kinds, i))
  {
    ParseByLine(kinds);
    var k :| 0 <= k < |Parse(kinds)| && Parse(kinds)[k] == t;
    assert TaskFromLineAt(kinds, Parse(kinds), TaskLineIndices(kinds), k);
  }

  /** `tasks.filter(t => !t.completed)`. */
  function Incomplete(tasks: seq<Task>): (r: seq<Task>)
    ensures |r| <= |tasks|
    ensures forall t :: t in r <==> t in tasks && !t.completed
  {
    if |tasks| == 0 then []
    else (if tasks[0].completed then [] else [tasks[0]]) + Incomplete(tasks[1..])
  }

  /** The first unfinished task is the first task, in order, that is not completed. */
  lemma {:induction false} FirstIncomplete(tasks: seq<Task>)
    requires |Incomplete(tasks)| > 0
    ensures exists k :: 0 <= k < |tasks| && tasks[k] == Incomplete(tasks)[0] &&
                        !tasks[k].completed && forall j :: 0 <= j < k ==> tasks[j].completed
  {
    if tasks[0].completed {
      var rest := tasks[1..];
      assert Incomplete(tasks) == [] + Incomplete(rest);
      FirstIncomplete(rest);
      var k :| 0 <= k < |rest| && rest[k] == Incomplete(rest)[0] && !rest[k].completed && forall j :: 0 <= j < k ==> rest[j].completed;
      assert tasks[k + 1] == rest[k];
      forall j | 0 <= j < k + 1 ensures tasks[j].completed {
        if j > 0 {
          assert tasks[j] == rest[j - 1];
        }
      }
    } else {
      assert Incomplete(tasks)[0] == tasks[0];
    }
  }
}
