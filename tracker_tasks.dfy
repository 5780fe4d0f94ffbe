/**
  `parseTasks` of the tracker sync: its own group headings, the
  integer-or-dotted task IDs, and the order counter.
*/
module TrackerTasks {
  import opened Wrappers
  import opened Text
  import opened Checklist
  import opened TaskList
  import opened TrackerList
  import TasksFile

  /** The end of the run of `#` that starts at `i`. */
  function HashEnd(s: string, i: nat): (j: nat)
    requires i <= |s|
    ensures i <= j <= |s| && (forall k :: i <= k < j ==> s[k] == '#') && (j < |s| ==> s[j] != '#')
    decreases |s| - i
  {
    if i < |s| && s[i] == '#' then HashEnd(s, i + 1) else i
  }

  /** `/^###\s+/` or `/^####\s*Task Group/` matches. */
  predicate IsTrackerHeading(line: string) {
    || (StartsWith(line, "###") && 3 < |line| && IsSpace(line[3]))
    || (StartsWith(line, "####") && OccursAt(line, "Task Group", SpaceEnd(line, 4)))
  }

  /** The replacement of `^#+\s*` by nothing: a leading run of `#` and the spaces after it removed. */
  function StripHashes(line: string): (s: string)
    ensures |s| <= |line| && s == line[|line| - |s|..]
  {
    var h := HashEnd(line, 0);
    if h == 0 then line else line[SpaceEnd(line, h)..]
  }

  /** `/Task Group \d+:/` matches at offset `p`; its `\d+` is followed by the colon, so it is the greedy run. */
  predicate LabelAt(s: string, p: nat) {
    OccursAt(s, "Task Group ", p) &&
    var d := DigitEnd(s, p + 11);
    p + 11 < d < |s| && s[d] == ':'
  }

  /** The leftmost offset at or after `p` where a label starts. */
  function FirstLabel(s: string, p: nat): (r: Option<nat>)
    ensures r.Some? ==> p <= r.value < |s| && LabelAt(s, r.value) && forall k :: p <= k < r.value ==> !LabelAt(s, k)
    ensures r.None? ==> forall k :: p <= k < |s| ==> !LabelAt(s, k)
    decreases |s| - p
  {
    if p >= |s| then None
    else if LabelAt(s, p) then Some(p)
    else FirstLabel(s, p + 1)
  }

  /** The replacement of the first `Task Group \d+:\s*` by nothing: the leftmost label and the spaces after it removed. */
  function RemoveLabel(s: string): string {
    match FirstLabel(s, 0)
    case None => s
    case Some(p) => s[..p] + s[SpaceEnd(s, DigitEnd(s, p + 11) + 1)..]
  }

  /** The group a tracker heading sets. */
  function GroupText(line: string): string {
    Trim(RemoveLabel(StripHashes(line)))
  }

  /** How the tracker sync reads one line. */
  function Classify(line: string): LineKind<Entry> {
    var m := MatchTask(line, IntegerOrDotted);
    LineKind(if IsTrackerHeading(line) then Some(GroupText(line)) else None,
             if m.Some? then Some(TasksFile.EntryOf(m.value)) else None)
  }

  /** The tracker's records for a whole `tasks.md` text. */
  function ParseText(content: string): seq<TrackerTask> {
    TrackerParse(ClassifyAll(Split(content, '\n'), Classify))
  }

  /**
    `parseTasks`: no tasks when `tasks.md` is missing; otherwise one pass over
    its lines carrying the current group and the order counter.
  */
  method ParseTasks(tasksPresent: bool, content: string) returns (tasks: seq<TrackerTask>)
    ensures tasks == if tasksPresent then ParseText(content) else []
  {
    if !tasksPresent {
      return [];
    }
    var lines := Split(content, '\n');
    ghost var kinds := ClassifyAll(lines, Classify);
    tasks := [];
    var currentGroup: Option<string> := None;
    var order := 0;
    for i := 0 to |lines|
      invariant tasks == TrackerParse(kinds[..i])
      invariant currentGroup == GroupAfter(kinds[..i])
      invariant order == |tasks|
    {
      var line := lines[i];
      ghost var g0, ts0 := currentGroup, tasks;
      if IsTrackerHeading(line) {
        currentGroup := Some(GroupText(line));
      }
      var m := MatchTask(line, IntegerOrDotted);
      if m.Some? {
        order := order + 1;
        tasks := tasks + [RecordOf(TasksFile.EntryOf(m.value), currentGroup, order)];
      }
      LineStep(line, g0, currentGroup, ts0, tasks);
      GroupAfterStep(kinds, i);
      ReadOneMoreTracker(kinds, i);
    }
    assert kinds[..|lines|] == kinds;
  }

  /** Step of `ParseTasks`: the group and the record a line gives are the ones `Classify` reads off it. */
  lemma LineStep(line: string, g0: Option<string>, g1: Option<string>, ts0: seq<TrackerTask>, ts1: seq<TrackerTask>)
    requires g1 == if IsTrackerHeading(line) then Some(GroupText(line)) else g0
    requires var m := MatchTask(line, IntegerOrDotted);
             ts1 == if m.Some? then ts0 + [RecordOf(TasksFile.EntryOf(m.value), g1, |ts0| + 1)] else ts0
    ensures g1 == if Classify(line).heading.Some? then Classify(line).heading else g0
    ensures ts1 == ts0 + if Classify(line).item.Some? then [RecordOf(Classify(line).item.value, g1, |ts0| + 1)] else []
  {
  }

  /**
    The tracker accepts every task line the state detector accepts, with the
    same groups: a dotted ID is also an integer-or-dotted one.
  */
  lemma AcceptsDetectorLines(line: string)
    requires MatchTask(line, Dotted).Some?
    ensures MatchTask(line, IntegerOrDotted) == MatchTask(line, Dotted)
  {
    MatchTaskSound(line, Dotted);
    var n, q, e :| TaskPatternAt(line, Dotted, n, q, e);
    MatchTaskUnique(line, Dotted, n, q, e);
    assert TaskPatternAt(line, IntegerOrDotted, n, q, e);
    MatchTaskUnique(line, IntegerOrDotted, n, q, e);
  }

  /**
    A "Task Group N:" heading sets the group to the name after the colon,
    trimmed: `#### Task Group 2: Backend API` gives `Backend API`.
  */
  lemma LabelHeadingName(line: string, d: nat)
    requires StartsWith(line, "#### Task Group ") && 16 < d < |line| && DigitsIn(line, 16, d) && line[d] == ':'
    ensures IsTrackerHeading(line)
    ensures GroupText(line) == Trim(line[d + 1..])
  {
    LabelHeadingStrip(line);
    var s := line[5..];
    assert DigitsIn(s, 11, d - 5) by {
      forall k | 11 <= k < d - 5 ensures IsDigit(s[k]) {
        assert s[k] == line[k + 5];
      }
    }
    RemoveLeadingLabel(s, d - 5);
    assert s[d - 4..] == line[d + 1..];
    StripThenTrim(s, d - 4);
  }

  /** Step of `LabelHeadingName`: such a line is a heading, and stripping its `####` and space leaves the label in front. */
  lemma LabelHeadingStrip(line: string)
    requires StartsWith(line, "#### Task Group ")
    ensures IsTrackerHeading(line)
    ensures StripHashes(line) == line[5..] && OccursAt(line[5..], "Task Group ", 0)
  {
    assert line[..16][4] == ' ' && line[..16][5] == 'T';
    PrintableNotSpace('T');
    SpaceEndIs(line, 4, 5);
    assert line[..4] == line[..16][..4];
    assert line[5..15] == line[..16][5..15];
    assert OccursAt(line, "Task Group", 5);
    StripHashesAt(line, 4);
    assert line[5..][..11] == line[..16][5..16];
  }

  /** A `### ` heading whose text holds no "Task Group N:" label sets the group to the trimmed rest of the line. */
  lemma SectionHeadingName(line: string)
    requires StartsWith(line, "### ") && FirstLabel(StripHashes(line), 0).None?
    ensures IsTrackerHeading(line)
    ensures GroupText(line) == Trim(line[4..])
  {
    assert line[..4][3] == ' ' && line[..3] == line[..4][..3];
    assert StartsWith(line, "###") && IsSpace(line[3]);
    StripHashesAt(line, 3);
    var w := SpaceEnd(line, 3);
    var s := line[w..];
    NoLabel(s);
    StripThenTrim(line, 3);
    StripThenTrim(line, 4);
    SpaceEndIs(line, 3, SpaceEnd(line, 4));
  }

  /** The leading `#` run of a heading and the spaces after it are what the first replacement removes. */
  lemma StripHashesAt(line: string, h: nat)
    requires 0 < h <= |line| && (forall k :: 0 <= k < h ==> line[k] == '#') && (h < |line| ==> line[h] != '#')
    ensures StripHashes(line) == line[SpaceEnd(line, h)..]
  {
    HashEndIs(line, 0, h);
  }

  /** A text that starts with a label loses it and the spaces after its colon. */
  lemma RemoveLeadingLabel(s: string, d: nat)
    requires OccursAt(s, "Task Group ", 0) && 11 < d < |s| && DigitsIn(s, 11, d) && s[d] == ':'
    ensures RemoveLabel(s) == s[SpaceEnd(s, d + 1)..]
  {
    DigitEndIs(s, 11, d);
    assert LabelAt(s, 0);
    assert s[..0] + s[SpaceEnd(s, d + 1)..] == s[SpaceEnd(s, d + 1)..];
  }

  /** A text without a label is left as it is. */
  lemma NoLabel(s: string)
    requires forall k: nat :: k < |s| ==> !LabelAt(s, k)
    ensures RemoveLabel(s) == s
  {
  }

  /** The `#` run ending at `j` is the greedy one. */
  lemma {:induction false} HashEndIs(s: string, i: nat, j: nat)
    requires i <= j <= |s| && (forall k :: i <= k < j ==> s[k] == '#') && (j < |s| ==> s[j] != '#')
    ensures HashEnd(s, i) == j
    decreases j - i
  {
    if i < j {
      HashEndIs(s, i + 1, j);
    }
  }

  /** A task ID the tracker accepts holds at most one dot. */
  lemma AtMostOneDot(line: string)
    requires MatchTask(line, IntegerOrDotted).Some?
    ensures var id := MatchTask(line, IntegerOrDotted).value.id;
            forall i, j :: 0 <= i < j < |id| && id[i] == '.' ==> id[j] != '.'
  {
    MatchTaskFields(line, IntegerOrDotted);
    var id := MatchTask(line, IntegerOrDotted).value.id;
    if IsDottedId(id) {
      var k :| 0 < k < |id| - 1 && id[k] == '.' && DigitsIn(id, 0, k) && DigitsIn(id, k + 1, |id|);
    }
  }

  /** An example of `AtMostOneDot`: the line `- [ ] 1.1.2 x` yields no task. */
  lemma TwoDotsRefused()
    ensures MatchTask("- [ ] 1.1.2 x", IntegerOrDotted) == None
  {
    var line := "- [ ] 1.1.2 x";
    PrintableNotSpace('-');
    PrintableNotSpace('1');
    PrintableNotSpace('.');
    SpaceEndIs(line, 0, 0);
    SpaceEndIs(line, 5, 6);
    DigitEndIs(line, 6, 7);
    DigitEndIs(line, 8, 9);
    assert IdEnd(line, 6, IntegerOrDotted) == 9;
    assert !SpacesThenText(line, 9, 1);
  }
}
