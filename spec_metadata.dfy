/**
  `extractSpecMetadata` of the tracker sync. The title is the text of the
  first `#` heading of the feature's spec file, matched with `/^#\s+(.+)$/m`; the
  description is the first line of the Overview section, matched with
  `/##\s*Overview\s*\n+([\s\S]*?)(?=\n##|$)/i`; when that gives nothing, the
  first non-blank line of `raw-idea.md` is the description. Both patterns
  are modelled as the regular-expression engine runs them: the leftmost
  start, greedy runs backing off as far as needed, the lazy group stopping
  as early as it can.
*/
module SpecMetadata {
  import opened Wrappers
  import opened Text

  /** `^` in multiline mode holds at `i`: the start of the text, or just after a line terminator. */
  predicate LineStartAt(s: string, i: int) {
    0 <= i <= |s| && (i == 0 || IsLineTerminator(s[i - 1]))
  }

  /** The end of the line holding offset `j`: the first line terminator at or after `j`, or the end of the text. */
  function LineEnd(s: string, j: nat): (e: nat)
    requires j <= |s|
    ensures j <= e <= |s| && NoTerminatorIn(s, j, e) && (e < |s| ==> IsLineTerminator(s[e]))
    decreases |s| - j
  {
    if j < |s| && !IsLineTerminator(s[j]) then LineEnd(s, j + 1) else j
  }

  /**
    The title pattern matches with its `#` at `i`: a line starts there, and
    `\s+` can end at some `j` that leaves a character for `.+`. The `\s+`
    may run over line ends.
  */
  predicate TitleAt(s: string, i: int) {
    LineStartAt(s, i) && i < |s| && s[i] == '#' &&
    exists j :: i + 2 <= j < |s| && SpacesIn(s, i + 1, j) && !IsLineTerminator(s[j])
  }

  /** The last offset in `[lo, hi)` whose character is not a line terminator. */
  function LastNonTerminator(s: string, lo: nat, hi: nat): (r: Option<nat>)
    requires lo <= hi <= |s|
    ensures r.Some? ==> lo <= r.value < hi && !IsLineTerminator(s[r.value]) && forall k :: r.value < k < hi ==> IsLineTerminator(s[k])
    ensures r.None? ==> forall k :: lo <= k < hi ==> IsLineTerminator(s[k])
    decreases hi
  {
    if hi == lo then None
    else if !IsLineTerminator(s[hi - 1]) then Some(hi - 1)
    else LastNonTerminator(s, lo, hi - 1)
  }

  /**
    Where the group `(.+)` starts when the title pattern matches at `i`:
    the greedy `\s+` gives back characters only until `.+` can start, so the
    group starts at the last offset that allows it.
  */
  function TitleStart(s: string, i: nat): (j: nat)
    requires TitleAt(s, i)
    ensures i + 2 <= j < |s| && SpacesIn(s, i + 1, j) && !IsLineTerminator(s[j])
    ensures forall k :: j < k < |s| && SpacesIn(s, i + 1, k) ==> IsLineTerminator(s[k])
  {
    var j0 :| i + 2 <= j0 < |s| && SpacesIn(s, i + 1, j0) && !IsLineTerminator(s[j0]);
    var w := SpaceEnd(s, i + 1);
    assert IsSpace(s[i + 1]);
    SpaceEndIs(s, i + 2, w);
    if w < |s| then
      TerminatorIsSpace(s[w]);
      w
    else
      LastNonTerminator(s, i + 2, |s|).value
  }

  /** The leftmost offset at or after `p` where the title pattern matches. */
  function FirstTitle(s: string, p: nat): (r: Option<nat>)
    ensures r.Some? ==> p <= r.value < |s| && TitleAt(s, r.value) && forall k :: p <= k < r.value ==> !TitleAt(s, k)
    ensures r.None? ==> forall k :: p <= k < |s| ==> !TitleAt(s, k)
    decreases |s| - p
  {
    if p >= |s| then None
    else if TitleAt(s, p) then Some(p)
    else FirstTitle(s, p + 1)
  }

  /**
    The group `(.+)` of the leftmost title match: the greedy `.+` runs to the
    end of its line, where `$` holds. It is never empty and never holds a
    line terminator.
  */
  function TitleGroup(s: string): (g: Option<string>)
    ensures g.Some? ==> |g.value| > 0 && NoTerminatorIn(g.value, 0, |g.value|)
  {
    match FirstTitle(s, 0)
    case None => None
    case Some(i) =>
      var j := TitleStart(s, i);
      var e := LineEnd(s, j);
      NoTerminatorOfSlice(s, j, e, j, e);
      Some(s[j..e])
  }

  /**
    The Overview pattern can start at `p`: `##`, the spaces after it,
    "overview" in any case, then spaces holding a `\n` for `\n+`. The `\s*`
    before "overview" cannot give anything back, since a space is never the
    letter `o`.
  */
  predicate OverviewAt(s: string, p: nat) {
    OccursAt(s, "##", p) &&
    var o := SpaceEnd(s, p + 2);
    FoldedAt(s, "overview", o) &&
    exists j :: o + 8 <= j < |s| && SpacesIn(s, o + 8, j) && s[j] == '\n'
  }

  /** The last offset in `[lo, hi)` holding a `\n`. */
  function LastNewline(s: string, lo: nat, hi: nat): (r: Option<nat>)
    requires lo <= hi <= |s|
    ensures r.Some? ==> lo <= r.value < hi && s[r.value] == '\n' && forall k :: r.value < k < hi ==> s[k] != '\n'
    ensures r.None? ==> forall k :: lo <= k < hi ==> s[k] != '\n'
    decreases hi
  {
    if hi == lo then None
    else if s[hi - 1] == '\n' then Some(hi - 1)
    else LastNewline(s, lo, hi - 1)
  }

  /**
    Where the group `([\s\S]*?)` starts when the Overview pattern matches at
    `p`: the greedy `\s*` after "overview" gives back characters only until
    a `\n` follows it, so `\n+` takes the last `\n` of those spaces and the
    group starts just after it.
  */
  function OverviewStart(s: string, p: nat): (a: nat)
    requires OverviewAt(s, p)
    ensures var o := SpaceEnd(s, p + 2);
            && o + 8 < a <= |s| && SpacesIn(s, o + 8, a - 1) && s[a - 1] == '\n'
            && forall k :: a - 1 < k < |s| && SpacesIn(s, o + 8, k) ==> s[k] != '\n'
  {
    var lo := SpaceEnd(s, p + 2) + 8;
    NewlineInSpaces(s, lo);
    LastNewline(s, lo, SpaceEnd(s, lo)).value + 1
  }

  /** Step of `OverviewStart`: a `\n` that spaces lead to lies in the space run, and the last one in it is the last one spaces lead to. */
  lemma NewlineInSpaces(s: string, lo: nat)
    requires lo <= |s| && exists j :: lo <= j < |s| && SpacesIn(s, lo, j) && s[j] == '\n'
    ensures LastNewline(s, lo, SpaceEnd(s, lo)).Some?
    ensures var a := LastNewline(s, lo, SpaceEnd(s, lo)).value + 1;
            && lo < a <= |s| && SpacesIn(s, lo, a - 1) && s[a - 1] == '\n'
            && forall k :: a - 1 < k < |s| && SpacesIn(s, lo, k) ==> s[k] != '\n'
  {
    var j0 :| lo <= j0 < |s| && SpacesIn(s, lo, j0) && s[j0] == '\n';
    var w := SpaceEnd(s, lo);
    TerminatorIsSpace('\n');
    assert j0 < w;
    var r := LastNewline(s, lo, w).value;
    forall k | r < k < |s| && SpacesIn(s, lo, k) ensures s[k] != '\n' {
      if k >= w {
        assert !IsSpace(s[w]);
      }
    }
  }

  /** Where the lazy group stops looking: the first `\n##` at or after `a`, or the end of the text. */
  function SectionEnd(s: string, a: nat): (c: nat)
    requires a <= |s|
    ensures a <= c <= |s| && (c < |s| ==> OccursAt(s, "\n##", c)) && forall k :: a <= k < c ==> !OccursAt(s, "\n##", k)
    decreases |s| - a
  {
    if a == |s| || OccursAt(s, "\n##", a) then a else SectionEnd(s, a + 1)
  }

  /** The leftmost offset at or after `p` where the Overview pattern matches. */
  function FirstOverview(s: string, p: nat): (r: Option<nat>)
    ensures r.Some? ==> p <= r.value < |s| && OverviewAt(s, r.value) && forall k :: p <= k < r.value ==> !OverviewAt(s, k)
    ensures r.None? ==> forall k: nat :: p <= k < |s| ==> !OverviewAt(s, k)
    decreases |s| - p
  {
    if p >= |s| then None
    else if OverviewAt(s, p) then Some(p)
    else FirstOverview(s, p + 1)
  }

  /** The group `([\s\S]*?)` of the leftmost Overview match: it holds no `\n##`. */
  function OverviewGroup(s: string): (g: Option<string>)
    ensures g.Some? ==> forall k :: 0 <= k < |g.value| ==> !OccursAt(g.value, "\n##", k)
  {
    match FirstOverview(s, 0)
    case None => None
    case Some(p) =>
      var a := OverviewStart(s, p);
      NoSectionInGroup(s, a);
      Some(s[a..SectionEnd(s, a)])
  }

  /** The text up to `SectionEnd` holds no `\n##`. */
  lemma NoSectionInGroup(s: string, a: nat)
    requires a <= |s|
    ensures forall k :: 0 <= k < SectionEnd(s, a) - a ==> !OccursAt(s[a..SectionEnd(s, a)], "\n##", k)
  {
    var c := SectionEnd(s, a);
    forall k | 0 <= k < c - a ensures !OccursAt(s[a..c], "\n##", k) {
      if OccursAt(s[a..c], "\n##", k) {
        OccursInPiece(s, "\n##", a, c, k);
        assert false;
      }
    }
  }

  /** The description the Overview section gives: the first line of the trimmed group, empty when there is no match. */
  function OverviewDescription(s: string): (d: string)
    ensures '\n' !in d
  {
    match OverviewGroup(s)
    case None => ""
    case Some(g) => Split(Trim(g), '\n')[0]
  }

  /** `lines.find(line => line.trim().length > 0) || ''`: the first line that is not blank, untrimmed. */
  function FirstNonBlank(lines: seq<string>): (r: string)
    ensures r == "" <==> forall k :: 0 <= k < |lines| ==> Trim(lines[k]) == ""
    ensures r != "" ==> exists i :: 0 <= i < |lines| && lines[i] == r && Trim(r) != "" && forall k :: 0 <= k < i ==> Trim(lines[k]) == ""
  {
    match FirstNonBlankAt(lines, 0)
    case None => ""
    case Some(i) => lines[i]
  }

  /** The index of the first line at or after `p` that is not blank. */
  function FirstNonBlankAt(lines: seq<string>, p: nat): (r: Option<nat>)
    ensures r.Some? ==> p <= r.value < |lines| && |Trim(lines[r.value])| > 0
                        && forall k :: p <= k < r.value ==> |Trim(lines[k])| == 0
    ensures r.None? ==> forall k :: p <= k < |lines| ==> |Trim(lines[k])| == 0
    decreases |lines| - p
  {
    if p >= |lines| then None
    else if |Trim(lines[p])| > 0 then Some(p)
    else FirstNonBlankAt(lines, p + 1)
  }

  /** The fields `extractSpecMetadata` returns. */
  datatype Metadata = Metadata(title: string, description: string, externalId: string)

  /**
    `extractSpecMetadata`, with the texts of the feature's spec file and `raw-idea.md`
    given (`None` for a missing file). The spec name is the base name of
    the spec path; it is the title when the feature's spec file has no title match.
  */
  function Extract(specPath: string, specText: Option<string>, rawIdea: Option<string>): (m: Metadata)
    ensures m.externalId == Basename(specPath)
    ensures '\n' !in m.description
    ensures specText.None? || TitleGroup(specText.value).None? ==> m.title == Basename(specPath)
    ensures specText.Some? && OverviewDescription(specText.value) != "" ==> m.description == OverviewDescription(specText.value)
    ensures (specText.None? || OverviewDescription(specText.value) == "") && rawIdea.Some? ==>
              m.description == FirstNonBlank(Split(rawIdea.value, '\n'))
    ensures (specText.None? || OverviewDescription(specText.value) == "") && rawIdea.None? ==> m.description == ""
  {
    var name := Basename(specPath);
    var title := if specText.Some? && TitleGroup(specText.value).Some? then Trim(TitleGroup(specText.value).value) else name;
    var fromSpec := if specText.Some? then OverviewDescription(specText.value) else "";
    var description := if fromSpec == "" && rawIdea.Some? then FirstNonBlankLine(rawIdea.value) else fromSpec;
    Metadata(title, description, name)
  }

  /** The first non-blank line of a text; it holds no `\n`. */
  function FirstNonBlankLine(text: string): (r: string)
    ensures r == FirstNonBlank(Split(text, '\n')) && '\n' !in r
  {
    NoNewlineInLine(Split(text, '\n'));
    FirstNonBlank(Split(text, '\n'))
  }

  /** The first non-blank line of lines free of `\n` holds no `\n`. */
  lemma NoNewlineInLine(lines: seq<string>)
    requires forall k :: 0 <= k < |lines| ==> '\n' !in lines[k]
    ensures '\n' !in FirstNonBlank(lines)
  {
    if FirstNonBlank(lines) != "" {
      var i :| 0 <= i < |lines| && lines[i] == FirstNonBlank(lines);
    }
  }

  /** A title taken from the feature's spec file is a trimmed text on one line. */
  lemma TitleOneLine(specPath: string, specText: string, rawIdea: Option<string>)
    requires TitleGroup(specText).Some?
    ensures var t := Extract(specPath, Some(specText), rawIdea).title;
            t == Trim(TitleGroup(specText).value) && Trim(t) == t && NoTerminatorIn(t, 0, |t|)
  {
    var g := TitleGroup(specText).value;
    TrimIdempotent(g);
    TrimOneLine(g);
  }

  /** Step of `TitleOneLine`: trimming a text without line terminators leaves none. */
  lemma TrimOneLine(g: string)
    requires NoTerminatorIn(g, 0, |g|)
    ensures NoTerminatorIn(Trim(g), 0, |Trim(g)|)
  {
    var i := TrimShape(g);
    NoTerminatorOfSlice(g, 0, |g|, i, i + |Trim(g)|);
  }

  /** A spec that opens with `# ` and a non-space character is titled by the rest of that first line, trimmed. */
  lemma OpeningHeadingTitle(s: string)
    requires 2 < |s| && s[0] == '#' && s[1] == ' ' && !IsSpace(s[2])
    ensures TitleGroup(s) == Some(s[2..LineEnd(s, 2)])
  {
    TerminatorIsSpace(s[2]);
    assert SpacesIn(s, 1, 2);
    assert TitleAt(s, 0);
    SpaceEndIs(s, 1, 2);
  }

  /**
    A spec that opens with `## Overview` and a line end is described by its
    next line up to the next `\n##` heading: the group is all of the text
    after the first line when no `\n##` follows.
  */
  lemma OpeningOverviewGroup(s: string)
    requires 12 < |s| && OccursAt(s, "##", 0) && s[2] == ' ' && FoldedAt(s, "overview", 3) && s[11] == '\n'
    requires !IsSpace(s[12]) && forall k :: 12 <= k < |s| ==> !OccursAt(s, "\n##", k)
    ensures OverviewGroup(s) == Some(s[12..])
  {
    OpeningOverviewAt(s);
    OpeningOverviewStart(s);
    NoSectionEnd(s, 12);
    assert s[12..SectionEnd(s, 12)] == s[12..];
  }

  /** Step of `OpeningOverviewGroup`: the pattern matches at the start. */
  lemma OpeningOverviewAt(s: string)
    requires 12 < |s| && OccursAt(s, "##", 0) && s[2] == ' ' && FoldedAt(s, "overview", 3) && s[11] == '\n'
    ensures SpaceEnd(s, 2) == 3 && OverviewAt(s, 0) && FirstOverview(s, 0) == Some(0)
  {
    FoldedCharAt(s, "overview", 3, 0);
    PrintableNotSpace(s[3]);
    assert SpacesIn(s, 2, 3);
    SpaceEndIs(s, 2, 3);
    assert SpacesIn(s, 11, 11);
  }

  /** Step of `OpeningOverviewGroup`: the group starts on the second line. */
  lemma OpeningOverviewStart(s: string)
    requires 12 < |s| && SpaceEnd(s, 2) == 3 && OverviewAt(s, 0) && s[11] == '\n' && !IsSpace(s[12])
    ensures OverviewStart(s, 0) == 12
  {
    TerminatorIsSpace('\n');
    assert SpacesIn(s, 11, 12);
    SpaceEndIs(s, 11, 12);
  }

  /** With no `\n##` from `a` on, the lazy group runs to the end of the text. */
  lemma {:induction false} NoSectionEnd(s: string, a: nat)
    requires a <= |s| && forall k :: a <= k < |s| ==> !OccursAt(s, "\n##", k)
    ensures SectionEnd(s, a) == |s|
    decreases |s| - a
  {
    if a < |s| {
      NoSectionEnd(s, a + 1);
    }
  }
}
