/**
  A whole `tasks.md` text as the state detector and the Notion sync read it:
  the text is split into lines, each line is classified, and the tasks are
  read off the classified lines.
*/
module TasksFile {
  import opened Wrappers
  import opened Text
  import opened Checklist
  import opened TaskList

  /** The task record fields a matched line gives: the description is the trimmed tail, `completed` an `x` in the box. */
  function EntryOf(m: TaskLine): Entry {
    Entry(m.id, Trim(m.tail), m.box == 'x', m.indent)
  }

  /** How the state detector and the Notion sync read one line. */
  function Classify(line: string): LineKind<Entry> {
    var m := MatchTask(line, Dotted);
    LineKind(if IsHeading(line) then Some(HeadingText(line)) else None, if m.Some? then Some(EntryOf(m.value)) else None)
  }

  /** The tasks of a whole `tasks.md` text. */
  function ParseText(content: string): seq<Task> {
    Parse(ClassifyAll(Split(content, '\n'), Classify))
  }

  /**
    `parseTasks`: one pass over the lines of `tasks.md`, carrying the current
    group. A section heading or a "Task Group N:" label sets the group, and a
    task line adds a task filed under the group as it stands after that line.
  */
  method ParseTasks(content: string) returns (tasks: seq<Task>)
    ensures tasks == ParseText(content)
  {
    var lines := Split(content, '\n');
    ghost var kinds := ClassifyAll(lines, Classify);
    tasks := [];
    var currentGroup: Option<string> := None;
    for i := 0 to |lines|
      invariant tasks == Parse(kinds[..i])
      invariant currentGroup == GroupAfter(kinds[..i])
    {
      var line := lines[i];
      ghost var g0, ts0 := currentGroup, tasks;
      if StartsWith(line, "###") && !Contains(line, "Task Group") {
        currentGroup := Some(Trim(line[SpaceEnd(line, 3)..]));
      }
      ghost var g1 := currentGroup;
      if HasTaskGroupLabel(line) {
        currentGroup := Some(Trim(if StartsWith(line, "####") then line[SpaceEnd(line, 4)..] else line));
      }
      HeadingStep(line, g0, g1, currentGroup);
      var m := MatchTask(line, Dotted);
      if m.Some? {
        tasks := tasks + [Task(m.value.id, Trim(m.value.tail), m.value.box == 'x', GroupName(currentGroup), m.value.indent)];
      }
      TaskStep(line, currentGroup, ts0, tasks);
      ReadOneMore(kinds, i);
    }
    assert kinds[..|lines|] == kinds;
  }

  /** Step of `ParseTasks`: the two heading tests, one after the other, set the group `Classify` reads off the line. */
  lemma HeadingStep(line: string, g0: Option<string>, g1: Option<string>, g2: Option<string>)
    requires g1 == if StartsWith(line, "###") && !Contains(line, "Task Group") then Some(Trim(line[SpaceEnd(line, 3)..])) else g0
    requires g2 == if HasTaskGroupLabel(line) then Some(Trim(if StartsWith(line, "####") then line[SpaceEnd(line, 4)..] else line)) else g1
    ensures g2 == if Classify(line).heading.Some? then Classify(line).heading else g0
  {
    if HasTaskGroupLabel(line) {
      LabelIsNotSection(line);
    }
  }

  /** Step of `ParseTasks`: the task pushed for a line is the one `Classify` reads off it. */
  lemma TaskStep(line: string, group: Option<string>, ts0: seq<Task>, ts1: seq<Task>)
    requires var m := MatchTask(line, Dotted);
             ts1 == if m.Some? then ts0 + [Task(m.value.id, Trim(m.value.tail), m.value.box == 'x', GroupName(group), m.value.indent)] else ts0
    ensures ts1 == ts0 + if Classify(line).item.Some? then [TaskOf(Classify(line).item.value, group)] else []
  {
  }

  /**
    Each field of a task is what the pattern captured on its line: the indent
    is the leading run of spaces, `completed` holds exactly for an `x` in the
    checkbox, the ID is the pattern's ID group and the description the
    trimmed rest of the line.
  */
  lemma TaskFromLine(line: string, group: Option<string>)
    requires MatchTask(line, Dotted).Some?
    ensures var t := TaskOf(EntryOf(MatchTask(line, Dotted).value), group);
            && t.indent < |line| && SpacesIn(line, 0, t.indent) && line[t.indent] == '-'
            && (t.completed <==> line[t.indent + 3] == 'x')
            && (!t.completed <==> line[t.indent + 3] == ' ')
            && IsDottedId(t.id)
            && Trim(t.description) == t.description
            && t.group == GroupName(group)
            && exists q, e :: TaskPatternAt(line, Dotted, t.indent, q, e) && t.id == line[q..e]
                              && t.description == Trim(line[e..])
  {
    var n, q, e := MatchTaskOffsets(line, Dotted);
    assert TaskPatternAt(line, Dotted, n, q, e);
    TrimIdempotent(line[e..]);
  }

  /** Every task of a `tasks.md` text has a dotted ID, a trimmed description, and a group that is a trimmed heading text or "Ungrouped". */
  lemma ParsedTaskShape(content: string, t: Task)
    requires t in ParseText(content)
    ensures IsDottedId(t.id) && Trim(t.description) == t.description
    ensures t.group == "Ungrouped" || Trim(t.group) == t.group
  {
    var lines := Split(content, '\n');
    var kinds := ClassifyAll(lines, Classify);
    ParseMember(kinds, t);
    var i :| 0 <= i < |kinds| && kinds[i].item.Some? && t == TaskOf(kinds[i].item.value, GroupAt(kinds, i));
    MatchTaskFields(lines[i], Dotted);
    TrimIdempotent(MatchTask(lines[i], Dotted).value.tail);
    HeadingsTrimmed(lines, kinds, i);
  }

  /** The group current at any line is a trimmed heading text, when there is one. */
  lemma {:induction false} HeadingsTrimmed(lines: seq<string>, kinds: seq<LineKind<Entry>>, i: nat)
    requires kinds == ClassifyAll(lines, Classify) && i < |kinds|
    ensures GroupAt(kinds, i).Some? ==> Trim(GroupAt(kinds, i).value) == GroupAt(kinds, i).value
  {
    if IsHeading(lines[i]) {
      HeadingGroup(lines[i]);
    } else if i > 0 {
      HeadingsTrimmed(lines, kinds, i - 1);
    }
  }
}
