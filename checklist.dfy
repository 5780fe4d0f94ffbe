/**
  One line of the Markdown task checklist `tasks.md` as the workflow scripts
  read it: the task-line pattern `^(\s*)- \[([ x])\]\s*(ID)\s+(.+)$`, matched
  greedily, and the group headings of the state detector and the Notion sync.
*/
module Checklist {
  import opened Wrappers
  import opened Text

  /** The task-ID shapes: `\d+\.\d+` (state detector, Notion sync) or `\d+(?:\.\d+)?` (tracker sync). */
  datatype IdShape = Dotted | IntegerOrDotted

  /** `\d+\.\d+`. */
  predicate IsDottedId(s: string) {
    exists k :: 0 < k < |s| - 1 && s[k] == '.' && DigitsIn(s, 0, k) && DigitsIn(s, k + 1, |s|)
  }

  /** An ID of the given shape. */
  predicate IsTaskId(s: string, shape: IdShape) {
    IsDottedId(s) || (shape == IntegerOrDotted && |s| > 0 && DigitsIn(s, 0, |s|))
  }

  /**
    `\s+(.+)$` matches `line` from offset `e` on (with at least `min` spaces):
    a run of spaces, then a non-empty rest of the line that holds no line
    terminator.
  */
  predicate SpacesThenText(line: string, e: int, min: nat) {
    exists j :: 0 <= e && e + min <= j < |line| && SpacesIn(line, e, j) && NoTerminatorIn(line, j, |line|)
  }

  /** The groups of a matched task line: indent length, checkbox, ID, and everything after the ID. */
  datatype TaskLine = TaskLine(indent: nat, box: char, id: string, tail: string)

  /** Where a greedy match of the ID that starts at `q` ends; `q` itself when no ID of the shape starts there. */
  function IdEnd(line: string, q: nat, shape: IdShape): (e: nat)
    requires q <= |line|
    ensures q <= e <= |line|
  {
    var d := DigitEnd(line, q);
    if d == q then q
    else if d < |line| && line[d] == '.' && DigitEnd(line, d + 1) > d + 1 then DigitEnd(line, d + 1)
    else if shape == IntegerOrDotted then d
    else q
  }

  /** `- [ ]` or `- [x]` starts at offset `n`. */
  predicate BoxAt(line: string, n: int) {
    0 <= n && n + 5 <= |line| && line[n] == '-' && line[n + 1] == ' ' && line[n + 2] == '['
    && (line[n + 3] == ' ' || line[n + 3] == 'x') && line[n + 4] == ']'
  }

  /** The task pattern, matched greedily as the regular-expression engine does. */
  function MatchTask(line: string, shape: IdShape): Option<TaskLine> {
    var n := SpaceEnd(line, 0);
    if BoxAt(line, n) then
      var q := SpaceEnd(line, n + 5);
      var e := IdEnd(line, q, shape);
      if e > q && SpacesThenText(line, e, 1) then Some(TaskLine(n, line[n + 3], line[q..e], line[e..])) else None
    else None
  }

  /**
    The task pattern matches `line` with its groups at these offsets: the
    indent is `line[..n]`, the checkbox `line[n + 3]`, the ID `line[q..e]`,
    and `line[e..]` is the `\s+(.+)` part.
  */
  ghost predicate TaskPatternAt(line: string, shape: IdShape, n: int, q: int, e: int) {
    && BoxAt(line, n) && SpacesIn(line, 0, n)
    && SpacesIn(line, n + 5, q) && q <= e <= |line|
    && IsTaskId(line[q..e], shape)
    && SpacesThenText(line, e, 1)
  }

  /** Digits of a slice are digits of the text it is cut from. */
  lemma DigitsOfSlice(s: string, q: nat, e: nat, a: nat, b: nat)
    requires q <= e <= |s| && a <= b <= e - q
    ensures DigitsIn(s[q..e], a, b) <==> DigitsIn(s, q + a, q + b)
  {
    if DigitsIn(s, q + a, q + b) {
      forall k | a <= k < b ensures IsDigit(s[q..e][k]) {
        assert s[q..e][k] == s[q + k];
      }
    }
    if DigitsIn(s[q..e], a, b) {
      forall k | q + a <= k < q + b ensures IsDigit(s[k]) {
        assert s[q..e][k - q] == s[k];
      }
    }
  }

  /** The greedy ID is an ID of the shape. */
  lemma IdEndIsId(line: string, q: nat, shape: IdShape)
    requires q <= |line| && IdEnd(line, q, shape) > q
    ensures IsTaskId(line[q..IdEnd(line, q, shape)], shape)
  {
    var d := DigitEnd(line, q);
    var e := IdEnd(line, q, shape);
    var id := line[q..e];
    DigitsOfSlice(line, q, e, 0, d - q);
    if d < |line| && line[d] == '.' && DigitEnd(line, d + 1) > d + 1 {
      assert id[d - q] == '.';
      DigitsOfSlice(line, q, e, d - q + 1, e - q);
      assert IsDottedId(id);
    }
  }

  /** An ID followed by a space is exactly what the greedy ID run takes. */
  lemma IdEndOfId(line: string, q: nat, e: nat, shape: IdShape)
    requires q <= e < |line| && IsTaskId(line[q..e], shape) && IsSpace(line[e])
    ensures IdEnd(line, q, shape) == e
  {
    var id := line[q..e];
    PrintableNotSpace('.');
    assert !IsDigit(line[e]) by { if IsDigit(line[e]) { PrintableNotSpace(line[e]); } }
    if IsDottedId(id) {
      var k :| 0 < k < |id| - 1 && id[k] == '.' && DigitsIn(id, 0, k) && DigitsIn(id, k + 1, |id|);
      DigitsOfSlice(line, q, e, 0, k);
      DigitsOfSlice(line, q, e, k + 1, e - q);
      assert line[q + k] == '.';
      DigitEndIs(line, q, q + k);
      DigitEndIs(line, q + k + 1, e);
    } else {
      DigitsOfSlice(line, q, e, 0, e - q);
      DigitEndIs(line, q, e);
    }
  }

  /** A task ID starts with a digit. */
  lemma IdStartsWithDigit(id: string, shape: IdShape)
    requires IsTaskId(id, shape)
    ensures |id| > 0 && IsDigit(id[0])
  {
  }

  /** Every match the pattern admits is the one `MatchTask` returns. */
  lemma MatchTaskUnique(line: string, shape: IdShape, n: int, q: int, e: int)
    requires TaskPatternAt(line, shape, n, q, e)
    ensures MatchTask(line, shape) == Some(TaskLine(n, line[n + 3], line[q..e], line[e..]))
  {
    PrintableNotSpace(line[n]);
    SpaceEndIs(line, 0, n);
    IdStartsWithDigit(line[q..e], shape);
    assert line[q] == line[q..e][0];
    PrintableNotSpace(line[q]);
    SpaceEndIs(line, n + 5, q);
    var j :| e + 1 <= j < |line| && SpacesIn(line, e, j) && NoTerminatorIn(line, j, |line|);
    IdEndOfId(line, q, e, shape);
  }

  /** What `MatchTask` returns is a match the pattern admits. */
  lemma MatchTaskSound(line: string, shape: IdShape)
    requires MatchTask(line, shape).Some?
    ensures exists n, q, e :: TaskPatternAt(line, shape, n, q, e)
  {
    var n := SpaceEnd(line, 0);
    var q := SpaceEnd(line, n + 5);
    IdEndIsId(line, q, shape);
    assert TaskPatternAt(line, shape, n, q, IdEnd(line, q, shape));
  }

  /** `MatchTask` succeeds exactly on the lines the task pattern matches, and returns the pattern's groups. */
  lemma MatchTaskIsPattern(line: string, shape: IdShape)
    ensures MatchTask(line, shape).Some? <==> exists n, q, e :: TaskPatternAt(line, shape, n, q, e)
    ensures forall n, q, e :: TaskPatternAt(line, shape, n, q, e) ==>
              MatchTask(line, shape) == Some(TaskLine(n, line[n + 3], line[q..e], line[e..]))
  {
    forall n, q, e | TaskPatternAt(line, shape, n, q, e)
      ensures MatchTask(line, shape) == Some(TaskLine(n, line[n + 3], line[q..e], line[e..]))
    {
      MatchTaskUnique(line, shape, n, q, e);
    }
    if MatchTask(line, shape).Some? {
      MatchTaskSound(line, shape);
    }
  }

  /**
    The fields of a match, read back from the line: the indent is the
    leading run of spaces before `-`, the checkbox holds ` ` or `x`, the ID
    is an ID of the shape, and the tail starts with a space and holds a
    non-empty text.
  */
  lemma MatchTaskFields(line: string, shape: IdShape)
    requires MatchTask(line, shape).Some?
    ensures var m := MatchTask(line, shape).value;
            && SpacesIn(line, 0, m.indent) && m.indent + 5 <= |line| && line[m.indent] == '-'
            && m.box == line[m.indent + 3] && (m.box == ' ' || m.box == 'x')
            && IsTaskId(m.id, shape)
            && |m.tail| >= 2 && IsSpace(m.tail[0]) && line[|line| - |m.tail|..] == m.tail
  {
    var n, q, e := MatchTaskOffsets(line, shape);
    TailShape(line, e);
  }

  /** Step of `MatchTaskFields`: the offsets of a match and what holds at them. */
  lemma MatchTaskOffsets(line: string, shape: IdShape) returns (n: nat, q: nat, e: nat)
    requires MatchTask(line, shape).Some?
    ensures BoxAt(line, n) && n <= q <= e <= |line| && MatchTask(line, shape) == Some(TaskLine(n, line[n + 3], line[q..e], line[e..]))
    ensures SpacesIn(line, 0, n) && SpacesIn(line, n + 5, q) && IsTaskId(line[q..e], shape) && SpacesThenText(line, e, 1)
  {
    n := SpaceEnd(line, 0);
    q := SpaceEnd(line, n + 5);
    e := IdEnd(line, q, shape);
    IdEndIsId(line, q, shape);
  }

  /** Step of `MatchTaskFields`: the `\s+(.+)` part starts with a space, holds two characters or more, and ends the line. */
  lemma TailShape(line: string, e: nat)
    requires e <= |line| && SpacesThenText(line, e, 1)
    ensures |line[e..]| >= 2 && IsSpace(line[e..][0]) && line[|line| - |line[e..]|..] == line[e..]
  {
    var j :| e + 1 <= j < |line| && SpacesIn(line, e, j) && NoTerminatorIn(line, j, |line|);
    assert line[e..][0] == line[e];
  }

  // ---- Group headings (state detector and Notion sync) ----

  /**
    `/####\s*Task Group \d+:/` matches at offset `i`. The `\s*` is followed by
    a letter and the `\d+` by a colon, so both runs are the greedy ones.
  */
  predicate TaskGroupLabelAt(line: string, i: nat) {
    OccursAt(line, "####", i) &&
    var w := SpaceEnd(line, i + 4);
    OccursAt(line, "Task Group ", w) &&
    var d := DigitEnd(line, w + 11);
    w + 11 < d < |line| && line[d] == ':'
  }

  /** The unanchored `line.match(/####\s*Task Group \d+:/)`. */
  predicate HasTaskGroupLabel(line: string) {
    exists i: nat :: i < |line| && TaskGroupLabelAt(line, i)
  }

  /** `line.startsWith('###') && !line.includes('Task Group')`. */
  predicate IsSectionHeading(line: string) {
    StartsWith(line, "###") && !Contains(line, "Task Group")
  }

  /** A line that sets the current group. */
  predicate IsHeading(line: string) {
    HasTaskGroupLabel(line) || IsSectionHeading(line)
  }

  /**
    The group a heading sets. A "Task Group N:" label loses a leading `####`
    and the spaces after it; a section heading loses `###` and the spaces
    after it; the rest is trimmed in both cases.
  */
  function HeadingText(line: string): string
    requires IsHeading(line)
  {
    if HasTaskGroupLabel(line) then Trim(if StartsWith(line, "####") then line[SpaceEnd(line, 4)..] else line)
    else Trim(line[SpaceEnd(line, 3)..])
  }

  /** A label holds "Task Group" after its `####`. */
  lemma LabelText(line: string) returns (p: nat)
    requires HasTaskGroupLabel(line)
    ensures 4 <= p && OccursAt(line, "Task Group", p)
  {
    var i: nat :| i < |line| && TaskGroupLabelAt(line, i);
    p := SpaceEnd(line, i + 4);
    var tag := line[p..p + 11];
    assert tag == "Task Group ";
    assert line[p..p + 10] == tag[..10];
    assert tag[..10] == "Task Group";
  }

  /** The two heading kinds never overlap: a label always contains "Task Group". */
  lemma LabelIsNotSection(line: string)
    requires HasTaskGroupLabel(line)
    ensures !IsSectionHeading(line)
  {
    var p := LabelText(line);
  }

  /** Stripping spaces and then trimming is trimming. */
  lemma StripThenTrim(line: string, i: nat)
    requires i <= |line|
    ensures Trim(line[SpaceEnd(line, i)..]) == Trim(line[i..])
  {
    var j := SpaceEnd(line, i);
    SpacesOfSlice(line, i, j);
    TrimAfterSpaces(line[i..], j - i);
  }

  /** The `Task Group` text of a label survives the stripping of `####` and the trimming. */
  lemma LabelKept(line: string)
    requires HasTaskGroupLabel(line)
    ensures Contains(HeadingText(line), "Task Group")
  {
    var p := LabelText(line);
    PrintableNotSpace('T');
    PrintableNotSpace('p');
    if StartsWith(line, "####") {
      StrippedKeeps(line, p);
    } else {
      TrimKeeps(line, "Task Group", p);
    }
  }

  /** Step of `LabelKept`: "Task Group" after offset 4 survives the stripping of the spaces after `####`. */
  lemma StrippedKeeps(line: string, p: nat)
    requires 4 <= p && OccursAt(line, "Task Group", p)
    ensures Contains(Trim(line[SpaceEnd(line, 4)..]), "Task Group")
  {
    var w := SpaceEnd(line, 4);
    assert line[p] == 'T';
    PrintableNotSpace('T');
    PrintableNotSpace('p');
    assert w <= p;
    assert line[w..][p - w..p - w + 10] == line[p..p + 10];
    TrimKeeps(line[w..], "Task Group", p - w);
  }

  /**
    What a heading sets the group to: for a section heading the trimmed text
    after `###`; for a label the trimmed text after a leading `####`, or the
    whole trimmed line when it does not start with `####`, so that the label
    "Task Group N: ..." is kept.
  */
  lemma HeadingGroup(line: string)
    requires IsHeading(line)
    ensures IsSectionHeading(line) ==> HeadingText(line) == Trim(line[3..])
    ensures HasTaskGroupLabel(line) && StartsWith(line, "####") ==> HeadingText(line) == Trim(line[4..])
    ensures HasTaskGroupLabel(line) && !StartsWith(line, "####") ==> HeadingText(line) == Trim(line)
    ensures HasTaskGroupLabel(line) ==> Contains(HeadingText(line), "Task Group")
    ensures Trim(HeadingText(line)) == HeadingText(line)
  {
    if HasTaskGroupLabel(line) {
      LabelKept(line);
      LabelIsNotSection(line);
      if StartsWith(line, "####") {
        StripThenTrim(line, 4);
      }
    } else {
      StripThenTrim(line, 3);
    }
    var r := Trim(if HasTaskGroupLabel(line) then (if StartsWith(line, "####") then line[SpaceEnd(line, 4)..] else line)
                  else line[SpaceEnd(line, 3)..]);
    TrimIdempotent(if HasTaskGroupLabel(line) then (if StartsWith(line, "####") then line[SpaceEnd(line, 4)..] else line)
                   else line[SpaceEnd(line, 3)..]);
  }
}
