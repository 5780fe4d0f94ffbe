/**
  Character classes and string helpers shared by the workflow scripts' parsers.
  Strings are sequences of Unicode scalar values; the JavaScript semantics of
  `\s`, `.`, `\d`, `trim`, `split` and `path.basename` are written out here.
*/
module Text {

  /**
    JavaScript's `\s` class, which `String.prototype.trim` strips: tab, line
    feed, vertical tab, form feed, carriage return, space, U+00A0, U+1680,
    U+2000 to U+200A, U+2028, U+2029, U+202F, U+205F, U+3000 and U+FEFF.
  */
  predicate IsSpace(c: char) {
    || c == ' ' || '\t' <= c <= '\r' || c == '\U{A0}' || c == '\U{1680}' || '\U{2000}' <= c <= '\U{200A}'
    || c == '\U{2028}' || c == '\U{2029}' || c == '\U{202F}' || c == '\U{205F}' || c == '\U{3000}' || c == '\U{FEFF}'
  }

  /** No printable ASCII character is a space, and neither is anything the task patterns match on. */
  lemma PrintableNotSpace(c: char)
    requires '!' <= c <= '~'
    ensures !IsSpace(c)
  {
  }

  /** Every line terminator is a space. */
  lemma TerminatorIsSpace(c: char)
    ensures IsLineTerminator(c) ==> IsSpace(c)
  {
  }

  /** The line terminators: a regular-expression `.` matches every character but these. */
  predicate IsLineTerminator(c: char) {
    c == '\n' || c == '\r' || c == '\U{2028}' || c == '\U{2029}'
  }

  /** JavaScript's `\d` class (ASCII digits only). */
  predicate IsDigit(c: char) {
    '0' <= c <= '9'
  }

  /** Every character of `s[i..j]` is a space. */
  predicate SpacesIn(s: string, i: int, j: int) {
    0 <= i <= j <= |s| && forall k :: i <= k < j ==> IsSpace(s[k])
  }

  /** Every character of `s[i..j]` is a digit. */
  predicate DigitsIn(s: string, i: int, j: int) {
    0 <= i <= j <= |s| && forall k :: i <= k < j ==> IsDigit(s[k])
  }

  /** No character of `s[i..j]` ends a line. */
  predicate NoTerminatorIn(s: string, i: int, j: int) {
    0 <= i <= j <= |s| && forall k :: i <= k < j ==> !IsLineTerminator(s[k])
  }

  /** A slice of a stretch without line terminators has none. */
  lemma NoTerminatorOfSlice(s: string, i: nat, j: nat, a: nat, b: nat)
    requires NoTerminatorIn(s, i, j) && i <= a <= b <= j
    ensures NoTerminatorIn(s[a..b], 0, b - a)
  {
    forall k | 0 <= k < b - a ensures !IsLineTerminator(s[a..b][k]) {
      assert s[a..b][k] == s[a + k];
    }
  }

  /** Where the run of spaces that starts at `i` stops: what a greedy `\s*` consumes from there. */
  function SpaceEnd(s: string, i: nat): (j: nat)
    requires i <= |s|
    ensures SpacesIn(s, i, j) && (j < |s| ==> !IsSpace(s[j]))
    decreases |s| - i
  {
    if i < |s| && IsSpace(s[i]) then SpaceEnd(s, i + 1) else i
  }

  /** Where the run of digits that starts at `i` stops: what a greedy `\d*` consumes from there. */
  function DigitEnd(s: string, i: nat): (j: nat)
    requires i <= |s|
    ensures DigitsIn(s, i, j) && (j < |s| ==> !IsDigit(s[j]))
    decreases |s| - i
  {
    if i < |s| && IsDigit(s[i]) then DigitEnd(s, i + 1) else i
  }

  /** Where the run of spaces that ends at `j` starts, looking no further back than `lo`. */
  function SpaceStart(s: string, lo: nat, j: nat): (i: nat)
    requires lo <= j <= |s|
    ensures lo <= i && SpacesIn(s, i, j) && (i > lo ==> !IsSpace(s[i - 1]))
    decreases j
  {
    if j > lo && IsSpace(s[j - 1]) then SpaceStart(s, lo, j - 1) else j
  }

  /** A greedy space run stops exactly where the spaces stop. */
  lemma {:induction false} SpaceEndIs(s: string, i: nat, j: nat)
    requires SpacesIn(s, i, j) && (j < |s| ==> !IsSpace(s[j]))
    ensures SpaceEnd(s, i) == j
    decreases j - i
  {
    if i < j {
      SpaceEndIs(s, i + 1, j);
    }
  }

  lemma {:induction false} DigitEndIs(s: string, i: nat, j: nat)
    requires DigitsIn(s, i, j) && (j < |s| ==> !IsDigit(s[j]))
    ensures DigitEnd(s, i) == j
    decreases j - i
  {
    if i < j {
      DigitEndIs(s, i + 1, j);
    }
  }

  lemma {:induction false} SpaceStartIs(s: string, lo: nat, i: nat, j: nat)
    requires lo <= i && SpacesIn(s, i, j) && (i > lo ==> !IsSpace(s[i - 1]))
    ensures SpaceStart(s, lo, j) == i
    decreases j - i
  {
    if i < j {
      SpaceStartIs(s, lo, i, j - 1);
    }
  }

  /**
    `String.prototype.trim`: what is left of `s` once the run of spaces at
    each end is removed; it neither starts nor ends with a space
    (`TrimShape` says where it sits in `s`, `TrimUnique` that it is the only
    such piece).
  */
  function Trim(s: string): (r: string)
    ensures |r| <= |s|
    ensures |r| > 0 ==> !IsSpace(r[0]) && !IsSpace(r[|r| - 1])
  {
    var a := SpaceEnd(s, 0);
    s[a..SpaceStart(s, a, |s|)]
  }

  /** The trimmed text is a piece of `s` with only spaces before and after it. */
  lemma TrimShape(s: string) returns (i: nat)
    ensures i + |Trim(s)| <= |s| && s[i..i + |Trim(s)|] == Trim(s)
    ensures SpacesIn(s, 0, i) && SpacesIn(s, i + |Trim(s)|, |s|)
  {
    i := SpaceEnd(s, 0);
  }

  /** `Trim` is determined by its characterisation: a piece of `s` with only spaces around it and none at its ends. */
  lemma TrimUnique(s: string, i: nat, r: string)
    requires i + |r| <= |s| && s[i..i + |r|] == r && SpacesIn(s, 0, i) && SpacesIn(s, i + |r|, |s|)
    requires |r| > 0 ==> !IsSpace(r[0]) && !IsSpace(r[|r| - 1])
    ensures Trim(s) == r
  {
    if |r| == 0 {
      assert SpacesIn(s, 0, |s|);
      SpaceEndIs(s, 0, |s|);
    } else {
      assert s[i] == r[0] && s[i + |r| - 1] == r[|r| - 1];
      SpaceEndIs(s, 0, i);
      SpaceStartIs(s, i, i + |r|, |s|);
    }
  }

  /** The spaces of a run stay spaces in the text cut from where the run starts. */
  lemma SpacesOfSlice(s: string, i: nat, j: nat)
    requires SpacesIn(s, i, j)
    ensures SpacesIn(s[i..], 0, j - i) && s[i..][j - i..] == s[j..]
  {
    forall k | 0 <= k < j - i ensures IsSpace(s[i..][k]) {
      assert s[i..][k] == s[i + k];
    }
  }

  /** Spaces in front of a text do not change its trimmed form. */
  lemma TrimAfterSpaces(s: string, j: nat)
    requires SpacesIn(s, 0, j)
    ensures Trim(s[j..]) == Trim(s)
  {
    var u := s[j..];
    var r := Trim(u);
    var i := TrimShape(u);
    assert SpacesIn(s, 0, j + i) by {
      forall k | 0 <= k < j + i ensures IsSpace(s[k]) {
        if k >= j { assert s[k] == u[k - j]; }
      }
    }
    assert SpacesIn(s, j + i + |r|, |s|) by {
      forall k | j + i + |r| <= k < |s| ensures IsSpace(s[k]) {
        assert s[k] == u[k - j];
      }
    }
    assert s[j + i..j + i + |r|] == u[i..i + |r|];
    TrimUnique(s, j + i, r);
  }

  lemma TrimIdempotent(s: string)
    ensures Trim(Trim(s)) == Trim(s)
  {
    var r := Trim(s);
    assert r[0..|r|] == r;
    TrimUnique(r, 0, r);
  }

  /** Trimming keeps every piece of the text that neither starts nor ends with a space. */
  lemma TrimKeeps(s: string, t: string, p: nat)
    requires OccursAt(s, t, p) && |t| > 0 && !IsSpace(t[0]) && !IsSpace(t[|t| - 1])
    ensures Contains(Trim(s), t)
  {
    var a := SpaceEnd(s, 0);
    var b := SpaceStart(s, a, |s|);
    assert !IsSpace(s[p]) by {
      assert s[p..p + |t|][0] == s[p];
    }
    assert !IsSpace(s[p + |t| - 1]) by {
      assert s[p..p + |t|][|t| - 1] == s[p + |t| - 1];
    }
    assert a <= p;
    assert p + |t| <= b;
    var r := Trim(s);
    assert r == s[a..b];
    SliceOfSlice(s, a, b, p - a, p - a + |t|);
    assert OccursAt(r, t, p - a);
  }

  /** A slice of a slice is a slice of the whole text. */
  lemma SliceOfSlice(s: string, a: nat, b: nat, i: nat, j: nat)
    requires a <= b <= |s| && i <= j <= b - a
    ensures s[a..b][i..j] == s[a + i..a + j]
  {
    forall k | 0 <= k < j - i ensures s[a..b][i..j][k] == s[a + i..a + j][k] {
      assert s[a..b][i..j][k] == s[a..b][i + k] == s[a + i + k];
    }
  }

  /** What occurs in a piece of a text occurs in the whole text, shifted by where the piece starts. */
  lemma OccursInPiece(s: string, t: string, w: nat, e: nat, k: nat)
    requires w <= e <= |s| && OccursAt(s[w..e], t, k)
    ensures OccursAt(s, t, w + k)
  {
    forall m | 0 <= m < |t| ensures s[w + k..w + k + |t|][m] == t[m] {
      assert s[w..e][k..k + |t|][m] == t[m];
    }
  }

  /** `s.startsWith(p)`. */
  predicate StartsWith(s: string, p: string) {
    |p| <= |s| && s[..|p|] == p
  }

  /** `p` occurs in `s` at offset `i`. */
  predicate OccursAt(s: string, p: string, i: int) {
    0 <= i && i + |p| <= |s| && s[i..i + |p|] == p
  }

  /** `s.includes(p)`. */
  predicate Contains(s: string, p: string) {
    exists i :: 0 <= i <= |s| - |p| && OccursAt(s, p, i)
  }

  /** ASCII lower-casing of one character. */
  function LowerChar(c: char): (d: char)
    ensures 'A' <= c <= 'Z' ==> d as int == c as int + 32
    ensures !('A' <= c <= 'Z') ==> d == c
  {
    if 'A' <= c <= 'Z' then (c as int + 32) as char else c
  }

  /**
    The lower-case ASCII `word` occurs at offset `i` of `s`, ignoring case.
    For ASCII text this is what the case-insensitive flag of a regular expression compares: no other
    character folds onto an ASCII letter.
  */
  predicate FoldedAt(s: string, word: string, i: int) {
    0 <= i && i + |word| <= |s| && forall k :: 0 <= k < |word| ==> LowerChar(s[i + k]) == word[k]
  }

  /** One character of a case-folded word. */
  lemma FoldedCharAt(s: string, word: string, i: int, k: nat)
    requires FoldedAt(s, word, i) && k < |word|
    ensures LowerChar(s[i + k]) == word[k]
  {
  }

  /** `s.toLowerCase()`, restricted to ASCII letters. */
  function Lower(s: string): (r: string)
    ensures |r| == |s| && forall i :: 0 <= i < |s| ==> r[i] == LowerChar(s[i])
  {
    seq(|s|, i requires 0 <= i < |s| => LowerChar(s[i]))
  }

  /** Lower-casing twice is lower-casing once. */
  lemma LowerIdempotent(s: string)
    ensures Lower(Lower(s)) == Lower(s)
  {
    forall i | 0 <= i < |s| ensures Lower(Lower(s))[i] == Lower(s)[i] {
      assert LowerChar(LowerChar(s[i])) == LowerChar(s[i]);
    }
  }

  /**
    `s.split(sep)` for a one-character separator: the pieces between the
    separators, so there is always at least one piece and none holds `sep`.
  */
  function Split(s: string, sep: char): (parts: seq<string>)
    ensures |parts| >= 1
    ensures forall k :: 0 <= k < |parts| ==> sep !in parts[k]
  {
    if |s| == 0 then [""]
    else
      var rest := Split(s[1..], sep);
      if s[0] == sep then [""] + rest else [[s[0]] + rest[0]] + rest[1..]
  }

  /** `parts.join(sep)`, the inverse of `Split`. */
  function Join(parts: seq<string>, sep: char): string {
    if |parts| == 0 then ""
    else if |parts| == 1 then parts[0]
    else parts[0] + [sep] + Join(parts[1..], sep)
  }

  /** Joining the pieces of a split gives back the text. */
  lemma {:induction false} JoinSplit(s: string, sep: char)
    ensures Join(Split(s, sep), sep) == s
  {
    if |s| > 0 {
      var rest := Split(s[1..], sep);
      JoinSplit(s[1..], sep);
      assert s == [s[0]] + s[1..];
      if s[0] == sep {
        assert ([""] + rest)[1..] == rest;
      } else {
        JoinExtendFirst(s[0], rest, sep);
      }
    }
  }

  /** Step of `JoinSplit`: a character put in front of the first piece comes first in the join. */
  lemma JoinExtendFirst(c: char, parts: seq<string>, sep: char)
    requires |parts| >= 1
    ensures Join([[c] + parts[0]] + parts[1..], sep) == [c] + Join(parts, sep)
  {
    var q := [[c] + parts[0]] + parts[1..];
    assert q[0] == [c] + parts[0] && q[1..] == parts[1..];
    if |parts| > 1 {
      assert Join(q, sep) == ([c] + parts[0]) + [sep] + Join(parts[1..], sep);
      assert Join(parts, sep) == parts[0] + [sep] + Join(parts[1..], sep);
    }
  }

  /** Splitting a join gives back the pieces, when no piece holds the separator. */
  lemma {:induction false} SplitJoin(parts: seq<string>, sep: char)
    requires |parts| >= 1
    requires forall k :: 0 <= k < |parts| ==> sep !in parts[k]
    ensures Split(Join(parts, sep), sep) == parts
  {
    if |parts| == 1 {
      SplitPiece(parts[0], sep);
    } else {
      SplitJoin(parts[1..], sep);
      SplitPrefix(parts[0], Join(parts[1..], sep), sep);
      assert [parts[0]] + parts[1..] == parts;
    }
  }

  /** A text without the separator splits into itself. */
  lemma {:induction false} SplitPiece(s: string, sep: char)
    requires sep !in s
    ensures Split(s, sep) == [s]
  {
    if |s| > 0 {
      assert s[0] in s;
      assert forall c :: c in s[1..] ==> c in s;
      SplitPiece(s[1..], sep);
      assert [s[0]] + s[1..] == s;
    }
  }

  /** Splitting `p + [sep] + t`, where `p` has no separator, yields `p` and then the pieces of `t`. */
  lemma {:induction false} SplitPrefix(p: string, t: string, sep: char)
    requires sep !in p
    ensures Split(p + [sep] + t, sep) == [p] + Split(t, sep)
  {
    if |p| == 0 {
      assert p + [sep] + t == [sep] + t;
      assert ([sep] + t)[1..] == t;
    } else {
      assert forall c :: c in p[1..] ==> c in p;
      assert p[0] in p;
      SplitPrefix(p[1..], t, sep);
      assert (p + [sep] + t)[1..] == p[1..] + [sep] + t;
      assert [p[0]] + p[1..] == p;
    }
  }

  /**
    Node's `path.posix.basename`: the last `/`-separated segment of `p` once
    trailing slashes are ignored; empty only when `p` holds nothing but slashes.
  */
  function Basename(p: string): (b: string)
    ensures '/' !in b
    ensures exists i, j :: 0 <= i <= j <= |p| && p[i..j] == b && (i == 0 || p[i - 1] == '/')
                           && (forall k :: j <= k < |p| ==> p[k] == '/')
    ensures b == [] <==> forall k :: 0 <= k < |p| ==> p[k] == '/'
  {
    var j := |p| - SlashRun(p);
    var q := p[..j];
    var i := j - SegmentRun(q);
    assert p[i..j] == q[i..];
    q[i..]
  }

  /** Number of trailing slashes. */
  function SlashRun(s: string): (n: nat)
    ensures n <= |s| && (forall k :: |s| - n <= k < |s| ==> s[k] == '/') && (n < |s| ==> s[|s| - n - 1] != '/')
  {
    if |s| > 0 && s[|s| - 1] == '/' then 1 + SlashRun(s[..|s| - 1]) else 0
  }

  /** Length of the trailing run of non-slash characters. */
  function SegmentRun(s: string): (n: nat)
    ensures n <= |s| && (forall k :: |s| - n <= k < |s| ==> s[k] != '/') && (n < |s| ==> s[|s| - n - 1] == '/')
  {
    if |s| > 0 && s[|s| - 1] != '/' then 1 + SegmentRun(s[..|s| - 1]) else 0
  }
}
