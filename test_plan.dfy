/**
  The test records of the tracker sync, read off classified lines of
  `test-plan.md`: each test is filed under the current `##` section, which
  also decides its test type.
*/
module TestPlan {
  import opened Wrappers
  import opened Text
  import opened TaskList

  /** What a test line says on its own: ID, trimmed description, and whether its box holds a lowercase `x`. */
  datatype TestEntry = TestEntry(id: string, title: string, passed: bool)

  /** The test types the tracker knows. */
  datatype TestType = Unit | EndToEnd | Integration | Manual {
    function Label(): string {
      match this
      case Unit => "unit"
      case EndToEnd => "e2e"
      case Integration => "integration"
      case Manual => "manual"
    }
  }

  /**
    The test type of a section: the first of "unit", "e2e" and "integration"
    that the lower-cased section name contains, "manual" when it contains
    none or there is no section.
  */
  function TypeOf(section: Option<string>): (t: TestType)
    ensures t == Unit <==> section.Some? && Contains(Lower(section.value), "unit")
    ensures t == EndToEnd <==> section.Some? && !Contains(Lower(section.value), "unit") && Contains(Lower(section.value), "e2e")
    ensures t == Integration <==>
              section.Some? && !Contains(Lower(section.value), "unit") && !Contains(Lower(section.value), "e2e")
              && Contains(Lower(section.value), "integration")
  {
    if section.None? then Manual
    else
      var s := Lower(section.value);
      if Contains(s, "unit") then Unit
      else if Contains(s, "e2e") then EndToEnd
      else if Contains(s, "integration") then Integration
      else Manual
  }

  /** `currentSection || 'General'`. */
  function SectionName(section: Option<string>): string {
    OrElse(section, "General")
  }

  /** A test record of the tracker sync. */
  datatype TestCase = TestCase(externalId: string, title: string, description: string, status: string, testType: TestType)

  /** The record a test line yields under the current section. */
  function CaseOf(e: TestEntry, section: Option<string>): (c: TestCase)
    ensures c.externalId == e.id && c.title == e.title && c.testType == TypeOf(section)
    ensures c.status == "passed" <==> e.passed
    ensures c.status in {"passed", "pending"}
  {
    TestCase(e.id, e.title, "Test from " + SectionName(section), if e.passed then "passed" else "pending", TypeOf(section))
  }

  /** The tests read from `kinds`, in order. */
  function Tests(kinds: seq<LineKind<TestEntry>>): seq<TestCase> {
    if |kinds| == 0 then []
    else
      var last := |kinds| - 1;
      Tests(kinds[..last]) + if kinds[last].item.Some? then [CaseOf(kinds[last].item.value, GroupAt(kinds, last))] else []
  }

  /** Every test read comes from some test line, under the section current at that line. */
  lemma {:induction false} TestMember(kinds: seq<LineKind<TestEntry>>, c: TestCase)
    requires c in Tests(kinds)
    ensures exists i :: 0 <= i < |kinds| && kinds[i].item.Some? && c == CaseOf(kinds[i].item.value, GroupAt(kinds, i))
  {
    var last := |kinds| - 1;
    var prefix := kinds[..last];
    if c in Tests(prefix) {
      TestMember(prefix, c);
      var i :| 0 <= i < |prefix| && prefix[i].item.Some? && c == CaseOf(prefix[i].item.value, GroupAt(prefix, i));
      GroupAtPrefix(kinds, last, i);
      assert kinds[i] == prefix[i];
    }
  }

  /** Every test line gives a test, filed under the section current at that line. */
  lemma {:induction false} TestFromEveryLine(kinds: seq<LineKind<TestEntry>>, i: nat)
    requires i < |kinds| && kinds[i].item.Some?
    ensures CaseOf(kinds[i].item.value, GroupAt(kinds, i)) in Tests(kinds)
  {
    var last := |kinds| - 1;
    if i < last {
      var prefix := kinds[..last];
      assert prefix[i] == kinds[i];
      TestFromEveryLine(prefix, i);
      GroupAtPrefix(kinds, last, i);
    }
  }

  /** Reading line `i` after `kinds[..i]` adds at most one test, under the section as that line leaves it. */
  lemma ReadOneMoreTest(kinds: seq<LineKind<TestEntry>>, i: nat)
    requires i < |kinds|
    ensures Tests(kinds[..i + 1]) ==
            Tests(kinds[..i]) + if kinds[i].item.Some? then [CaseOf(kinds[i].item.value, GroupAfter(kinds[..i + 1]))] else []
  {
    var ks := kinds[..i + 1];
    assert ks[..i] == kinds[..i];
    assert ks[i] == kinds[i];
  }

  /** Upper and lower case do not matter to the test type. */
  lemma TypeIgnoresCase(s: string)
    ensures TypeOf(Some(Lower(s))) == TypeOf(Some(s))
  {
    LowerIdempotent(s);
  }
}
