/**
  `parseTests` of the tracker sync: `test-plan.md` is split into lines, a
  `##` heading opens a section, and a test line gives a test filed under the
  section current at that line.
*/
module TrackerTests {
  import opened Wrappers
  import opened Text
  import opened TaskList
  import opened TestLines
  import opened TestPlan
  import opened Checklist

  /** The test record fields a matched line gives: the title is the trimmed tail, `passed` a lowercase `x` in the box. */
  function EntryOf(m: TestLine): TestEntry {
    TestEntry(m.id, Trim(m.tail), m.box == 'x')
  }

  /** How the tracker sync reads one line of `test-plan.md`. */
  function Classify(line: string): LineKind<TestEntry> {
    var m := MatchTest(line);
    LineKind(if IsSection(line) then Some(SectionText(line)) else None, if m.Some? then Some(EntryOf(m.value)) else None)
  }

  /** The tests of a whole `test-plan.md` text. */
  function ParseText(content: string): seq<TestCase> {
    Tests(ClassifyAll(Split(content, '\n'), Classify))
  }

  /**
    `parseTests`: no tests when `test-plan.md` is missing; otherwise one pass
    over its lines carrying the current section. The order counter is counted
    but goes into no record.
  */
  method ParseTests(planPresent: bool, content: string) returns (tests: seq<TestCase>)
    ensures tests == if planPresent then ParseText(content) else []
  {
    if !planPresent {
      return [];
    }
    var lines := Split(content, '\n');
    ghost var kinds := ClassifyAll(lines, Classify);
    tests := [];
    var currentSection: Option<string> := None;
    var order := 0;
    for i := 0 to |lines|
      invariant tests == Tests(kinds[..i])
      invariant currentSection == GroupAfter(kinds[..i])
    {
      var line := lines[i];
      ghost var s0, ts0 := currentSection, tests;
      if IsSection(line) {
        currentSection := Some(Trim(line[SpaceEnd(line, 2)..]));
      }
      var m := MatchTest(line);
      if m.Some? {
        order := order + 1;
        tests := tests + [TestCase(m.value.id, Trim(m.value.tail), "Test from " + SectionName(currentSection),
                                   if m.value.box == 'x' then "passed" else "pending", TypeOf(currentSection))];
      }
      LineStep(line, s0, currentSection, ts0, tests);
      GroupAfterStep(kinds, i);
      ReadOneMoreTest(kinds, i);
    }
    assert kinds[..|lines|] == kinds;
  }

  /** Step of `ParseTests`: the section and the test a line gives are the ones `Classify` reads off it. */
  lemma LineStep(line: string, s0: Option<string>, s1: Option<string>, ts0: seq<TestCase>, ts1: seq<TestCase>)
    requires s1 == if IsSection(line) then Some(Trim(line[SpaceEnd(line, 2)..])) else s0
    requires var m := MatchTest(line);
             ts1 == if m.Some? then ts0 + [TestCase(m.value.id, Trim(m.value.tail), "Test from " + SectionName(s1),
                                                     if m.value.box == 'x' then "passed" else "pending", TypeOf(s1))]
                    else ts0
    ensures s1 == if Classify(line).heading.Some? then Classify(line).heading else s0
    ensures ts1 == ts0 + if Classify(line).item.Some? then [CaseOf(Classify(line).item.value, s1)] else []
  {
  }

  /**
    Each field of a test is what the pattern captured on its line: the ID is
    the pattern's ID group, the title the trimmed rest after the colon, and
    the test passed exactly when its box holds a lowercase `x`; an upper-case
    `X` is matched but left pending.
  */
  lemma TestFromLine(line: string, section: Option<string>)
    requires MatchTest(line).Some?
    ensures var c := CaseOf(EntryOf(MatchTest(line).value), section);
            && exists b, q, k :: TestPatternAt(line, b, q, k) && c.externalId == line[q..k]
                                 && c.title == Trim(line[k + 1..])
                                 && (c.status == "passed" <==> line[b + 1] == 'x')
                                 && (c.status == "pending" <==> line[b + 1] in {' ', 'X'})
  {
    MatchTestSound(line);
    var b, q, k :| TestPatternAt(line, b, q, k);
    MatchTestUnique(line, b, q, k);
  }

  /** Every test read from a `test-plan.md` text has an ID of the pattern, a trimmed title, and a description naming a trimmed section. */
  lemma ParsedTestShape(content: string, c: TestCase)
    requires c in ParseText(content)
    ensures IsTestId(c.externalId) && Trim(c.title) == c.title
    ensures StartsWith(c.description, "Test from ") && Trim(c.description[10..]) == c.description[10..]
  {
    var lines := Split(content, '\n');
    var kinds := ClassifyAll(lines, Classify);
    TestMember(kinds, c);
    var i :| 0 <= i < |kinds| && kinds[i].item.Some? && c == CaseOf(kinds[i].item.value, GroupAt(kinds, i));
    EntryShape(lines[i]);
    SectionsTrimmed(lines, kinds, i);
    CaseShape(kinds[i].item.value, GroupAt(kinds, i));
  }

  /** Step of `ParsedTestShape`: a test record built from a well-formed entry under a trimmed section. */
  lemma CaseShape(e: TestEntry, g: Option<string>)
    requires IsTestId(e.id) && Trim(e.title) == e.title
    requires g.Some? ==> Trim(g.value) == g.value
    ensures var c := CaseOf(e, g);
            IsTestId(c.externalId) && Trim(c.title) == c.title
            && StartsWith(c.description, "Test from ") && Trim(c.description[10..]) == c.description[10..]
  {
    var name := SectionName(g);
    var d := CaseOf(e, g).description;
    assert d == "Test from " + name;
    assert d[10..] == name && d[..10] == "Test from ";
    if name == "General" {
      PrintableNotSpace('G');
      PrintableNotSpace('l');
      TrimUnique(name, 0, name);
    }
  }

  /** A test line gives an ID of the pattern and a trimmed title. */
  lemma EntryShape(line: string)
    requires MatchTest(line).Some?
    ensures IsTestId(EntryOf(MatchTest(line).value).id)
    ensures Trim(EntryOf(MatchTest(line).value).title) == EntryOf(MatchTest(line).value).title
  {
    MatchTestSound(line);
    var b, q, k :| TestPatternAt(line, b, q, k);
    MatchTestUnique(line, b, q, k);
    TrimIdempotent(line[k + 1..]);
  }

  /** The section current at any line is a trimmed heading text, when there is one. */
  lemma {:induction false} SectionsTrimmed(lines: seq<string>, kinds: seq<LineKind<TestEntry>>, i: nat)
    requires kinds == ClassifyAll(lines, Classify) && i < |kinds|
    ensures GroupAt(kinds, i).Some? ==> Trim(GroupAt(kinds, i).value) == GroupAt(kinds, i).value
  {
    if !IsSection(lines[i]) && i > 0 {
      SectionsTrimmed(lines, kinds, i - 1);
    }
  }
}
