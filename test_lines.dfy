/**
  One line of `test-plan.md` as the tracker sync reads it: the
  case-insensitive test-line pattern
  `^-\s*\[([ x])\]\s*(TEST-\d+|TC-\d+|\d+\.\d+):\s*(.+)$`, matched as the
  regular-expression engine does, and the `##` section headings.
*/
module TestLines {
  import opened Wrappers
  import opened Text
  import opened Checklist

  /** `TEST-\d+`, `TC-\d+` or `\d+\.\d+`, letters in either case. */
  predicate IsTestId(id: string) {
    || (|id| > 5 && FoldedAt(id, "test-", 0) && DigitsIn(id, 5, |id|))
    || (|id| > 3 && FoldedAt(id, "tc-", 0) && DigitsIn(id, 3, |id|))
    || IsDottedId(id)
  }

  /** `[ ]`, `[x]` or `[X]` (the case-insensitive flag lets an upper-case `X` through) at offset `b`. */
  predicate TestBoxAt(line: string, b: int) {
    0 <= b && b + 3 <= |line| && line[b] == '[' && line[b + 1] in {' ', 'x', 'X'} && line[b + 2] == ']'
  }

  /** The groups of a matched test line: checkbox, ID, and everything after the colon. */
  datatype TestLine = TestLine(box: char, id: string, tail: string)

  /**
    Where the ID that starts at `q` ends, trying the alternatives in order.
    The digit runs are followed by a colon or a dot, so the greedy runs are
    the only ones that can succeed.
  */
  function TestIdEnd(line: string, q: nat): (c: Option<nat>)
    requires q <= |line|
    ensures c.Some? ==> q < c.value <= |line|
  {
    if FoldedAt(line, "test-", q) then
      var d := DigitEnd(line, q + 5);
      if d > q + 5 then Some(d) else None
    else if FoldedAt(line, "tc-", q) then
      var d := DigitEnd(line, q + 3);
      if d > q + 3 then Some(d) else None
    else
      var d := DigitEnd(line, q);
      if q < d < |line| && line[d] == '.' && DigitEnd(line, d + 1) > d + 1 then Some(DigitEnd(line, d + 1)) else None
  }

  /** The test-line pattern, matched as the regular-expression engine does. */
  function MatchTest(line: string): Option<TestLine> {
    if |line| == 0 || line[0] != '-' then None
    else
      var b := SpaceEnd(line, 1);
      if !TestBoxAt(line, b) then None
      else
        var q := SpaceEnd(line, b + 3);
        match TestIdEnd(line, q)
        case None => None
        case Some(c) =>
          if c < |line| && line[c] == ':' && SpacesThenText(line, c + 1, 0) then Some(TestLine(line[b + 1], line[q..c], line[c + 1..]))
          else None
  }

  /**
    The test-line pattern matches `line` with its groups at these offsets:
    the checkbox is `line[b + 1]`, the ID `line[q..c]`, the colon at `c`, and
    `line[c + 1..]` is the `\s*(.+)` part.
  */
  ghost predicate TestPatternAt(line: string, b: int, q: int, c: int) {
    && 0 < |line| && line[0] == '-' && SpacesIn(line, 1, b) && TestBoxAt(line, b)
    && SpacesIn(line, b + 3, q) && q <= c < |line|
    && IsTestId(line[q..c]) && line[c] == ':'
    && SpacesThenText(line, c + 1, 0)
  }

  /** Case-folded words of a slice are case-folded words of the text it is cut from. */
  lemma FoldedOfSlice(s: string, q: nat, c: nat, word: string)
    requires q <= c <= |s|
    ensures FoldedAt(s[q..c], word, 0) <==> (q + |word| <= c && FoldedAt(s, word, q))
  {
    if q + |word| <= c {
      forall k | 0 <= k < |word| ensures s[q..c][k] == s[q + k] {
      }
    }
  }

  /** No text starts with both `test-` and `tc-`, nor with either and a digit, ignoring case. */
  lemma PrefixesExclusive(s: string, q: nat)
    ensures !(FoldedAt(s, "test-", q) && FoldedAt(s, "tc-", q))
    ensures q < |s| && IsDigit(s[q]) ==> !FoldedAt(s, "test-", q) && !FoldedAt(s, "tc-", q)
  {
    if FoldedAt(s, "test-", q) && FoldedAt(s, "tc-", q) {
      FoldedCharAt(s, "test-", q, 1);
      FoldedCharAt(s, "tc-", q, 1);
      assert false;
    }
    if q < |s| && IsDigit(s[q]) {
      if FoldedAt(s, "test-", q) {
        FoldedCharAt(s, "test-", q, 0);
        assert false;
      }
      if FoldedAt(s, "tc-", q) {
        FoldedCharAt(s, "tc-", q, 0);
        assert false;
      }
    }
  }

  /** The ID `TestIdEnd` finds is an ID, and it ends where the text says it ends. */
  lemma TestIdEndOfId(line: string, q: nat, c: nat)
    requires q <= c < |line| && IsTestId(line[q..c]) && line[c] == ':'
    ensures TestIdEnd(line, q) == Some(c)
  {
    var id := line[q..c];
    FoldedOfSlice(line, q, c, "test-");
    FoldedOfSlice(line, q, c, "tc-");
    if |id| > 5 && FoldedAt(id, "test-", 0) && DigitsIn(id, 5, |id|) {
      DigitsOfSlice(line, q, c, 5, c - q);
      PrefixedIdEnd(line, q, c, "test-");
    } else if |id| > 3 && FoldedAt(id, "tc-", 0) && DigitsIn(id, 3, |id|) {
      PrefixesExclusive(line, q);
      DigitsOfSlice(line, q, c, 3, c - q);
      PrefixedIdEnd(line, q, c, "tc-");
    } else {
      DottedIdEnd(line, q, c);
    }
  }

  /** Step of `TestIdEndOfId`: a `test-` or `tc-` ID ends where its digits end. */
  lemma PrefixedIdEnd(line: string, q: nat, c: nat, word: string)
    requires word in {"test-", "tc-"} && q + |word| < c < |line| && FoldedAt(line, word, q)
    requires DigitsIn(line, q + |word|, c) && line[c] == ':'
    requires word == "tc-" ==> !FoldedAt(line, "test-", q)
    ensures TestIdEnd(line, q) == Some(c)
  {
    DigitEndIs(line, q + |word|, c);
  }

  /** Step of `TestIdEndOfId`: a dotted ID ends where the digits after its dot end. */
  lemma DottedIdEnd(line: string, q: nat, c: nat)
    requires q <= c < |line| && IsDottedId(line[q..c]) && line[c] == ':'
    ensures TestIdEnd(line, q) == Some(c)
  {
    var id := line[q..c];
    var k :| 0 < k < |id| - 1 && id[k] == '.' && DigitsIn(id, 0, k) && DigitsIn(id, k + 1, |id|);
    assert IsDigit(id[0]) && id[0] == line[q];
    PrefixesExclusive(line, q);
    DigitsOfSlice(line, q, c, 0, k);
    DigitsOfSlice(line, q, c, k + 1, c - q);
    assert line[q + k] == '.';
    DigitEndIs(line, q, q + k);
    DigitEndIs(line, q + k + 1, c);
  }

  /** The ID `TestIdEnd` finds is an ID of the pattern. */
  lemma TestIdEndIsId(line: string, q: nat)
    requires q <= |line| && TestIdEnd(line, q).Some?
    ensures IsTestId(line[q..TestIdEnd(line, q).value])
  {
    var c := TestIdEnd(line, q).value;
    var id := line[q..c];
    FoldedOfSlice(line, q, c, "test-");
    FoldedOfSlice(line, q, c, "tc-");
    if FoldedAt(line, "test-", q) {
      DigitsOfSlice(line, q, c, 5, c - q);
    } else if FoldedAt(line, "tc-", q) {
      DigitsOfSlice(line, q, c, 3, c - q);
    } else {
      var d := DigitEnd(line, q);
      DigitsOfSlice(line, q, c, 0, d - q);
      DigitsOfSlice(line, q, c, d - q + 1, c - q);
      assert id[d - q] == '.';
      assert IsDottedId(id);
    }
  }

  /** A test ID starts with a letter `t` or `T` or with a digit, never with a space. */
  lemma TestIdNotSpace(id: string)
    requires IsTestId(id)
    ensures |id| > 0 && !IsSpace(id[0])
  {
    if IsDottedId(id) {
      assert IsDigit(id[0]);
    } else if FoldedAt(id, "test-", 0) {
      FoldedCharAt(id, "test-", 0, 0);
    } else {
      FoldedCharAt(id, "tc-", 0, 0);
    }
    PrintableNotSpace(id[0]);
  }

  /** Every match the pattern admits is the one `MatchTest` returns. */
  lemma MatchTestUnique(line: string, b: int, q: int, c: int)
    requires TestPatternAt(line, b, q, c)
    ensures MatchTest(line) == Some(TestLine(line[b + 1], line[q..c], line[c + 1..]))
  {
    TestOffsets(line, b, q, c);
  }

  /** Step of `MatchTestUnique`: the greedy runs of `MatchTest` stop at the pattern's offsets. */
  lemma TestOffsets(line: string, b: int, q: int, c: int)
    requires TestPatternAt(line, b, q, c)
    ensures SpaceEnd(line, 1) == b && SpaceEnd(line, b + 3) == q && TestIdEnd(line, q) == Some(c)
  {
    PrintableNotSpace('[');
    SpaceEndIs(line, 1, b);
    TestIdNotSpace(line[q..c]);
    assert line[q] == line[q..c][0];
    SpaceEndIs(line, b + 3, q);
    TestIdEndOfId(line, q, c);
  }

  /** What `MatchTest` returns is a match the pattern admits. */
  lemma MatchTestSound(line: string)
    requires MatchTest(line).Some?
    ensures exists b, q, c :: TestPatternAt(line, b, q, c)
  {
    var b := SpaceEnd(line, 1);
    var q := SpaceEnd(line, b + 3);
    TestIdEndIsId(line, q);
    assert TestPatternAt(line, b, q, TestIdEnd(line, q).value);
  }

  /** `MatchTest` succeeds exactly on the lines the pattern matches, and returns the pattern's groups. */
  lemma MatchTestIsPattern(line: string)
    ensures MatchTest(line).Some? <==> exists b, q, c :: TestPatternAt(line, b, q, c)
    ensures forall b, q, c :: TestPatternAt(line, b, q, c) ==>
              MatchTest(line) == Some(TestLine(line[b + 1], line[q..c], line[c + 1..]))
  {
    forall b, q, c | TestPatternAt(line, b, q, c)
      ensures MatchTest(line) == Some(TestLine(line[b + 1], line[q..c], line[c + 1..]))
    {
      MatchTestUnique(line, b, q, c);
    }
    if MatchTest(line).Some? {
      MatchTestSound(line);
    }
  }

  /** `/^##\s+/`: a section heading. */
  predicate IsSection(line: string) {
    StartsWith(line, "##") && 2 < |line| && IsSpace(line[2])
  }

  /** The section a heading opens: the line without `##` and the spaces after it, trimmed. */
  function SectionText(line: string): (r: string)
    requires IsSection(line)
    ensures r == Trim(line[2..]) && Trim(r) == r
  {
    StripThenTrim(line, 2);
    TrimIdempotent(line[2..]);
    Trim(line[SpaceEnd(line, 2)..])
  }
}
