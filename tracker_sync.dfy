/**
  The decisions of the tracker sync around its network calls: the phase a
  feature is filed under, the external IDs and payloads of tasks and tests,
  the synced and failed counts, and how `main` reads its arguments.
*/
module TrackerSync {
  import opened Wrappers
  import opened Text
  import opened TrackerList
  import opened TestPlan

  /** The phase of a feature. */
  datatype Phase = RawIdea | SpecPhase | Development | Testing {
    /** The phase as the tracker receives it. */
    function Label(): string {
      match this
      case RawIdea => "raw-idea"
      case SpecPhase => "spec"
      case Development => "development"
      case Testing => "testing"
    }
  }

  /**
    The phase rule of `syncFeature`: each existing file, the feature's spec file, then
    `tasks.md`, then `test-plan.md`, overwrites the phase, so the last one
    that exists decides it.
  */
  method FeaturePhase(specExists: bool, tasksExists: bool, testPlanExists: bool) returns (phase: Phase)
    ensures phase == Testing <==> testPlanExists
    ensures phase == Development <==> tasksExists && !testPlanExists
    ensures phase == SpecPhase <==> specExists && !tasksExists && !testPlanExists
    ensures phase == RawIdea <==> !specExists && !tasksExists && !testPlanExists
  {
    phase := RawIdea;
    if specExists {
      phase := SpecPhase;
    }
    if tasksExists {
      phase := Development;
    }
    if testPlanExists {
      phase := Testing;
    }
  }

  /** The external ID of a task or test: the spec folder's base name, a dash, and the ID read from the file. */
  function ExternalId(specPath: string, id: string): (r: string)
    ensures |r| == |Basename(specPath)| + 1 + |id|
    ensures r[..|Basename(specPath)|] == Basename(specPath) && r[|Basename(specPath)|] == '-'
    ensures r[|Basename(specPath)| + 1..] == id
  {
    Basename(specPath) + "-" + id
  }

  /** Within one spec folder, distinct IDs give distinct external IDs. */
  lemma ExternalIdInjective(specPath: string, a: string, b: string)
    requires ExternalId(specPath, a) == ExternalId(specPath, b)
    ensures a == b
  {
  }

  /**
    For IDs without a dash, such as task IDs, the external ID names both the
    spec folder and the ID: it splits at its last dash.
  */
  lemma ExternalIdSplitsAtLastDash(p1: string, p2: string, a: string, b: string)
    requires '-' !in a && '-' !in b
    requires ExternalId(p1, a) == ExternalId(p2, b)
    ensures a == b && Basename(p1) == Basename(p2)
  {
    var r := ExternalId(p1, a);
    var n1, n2 := |Basename(p1)|, |Basename(p2)|;
    assert forall k :: n1 < k < |r| ==> r[k] == a[k - n1 - 1];
    assert forall k :: n2 < k < |r| ==> r[k] == b[k - n2 - 1];
    assert r[n1] == '-' && r[n2] == '-';
    assert n1 == n2;
    assert Basename(p1) == r[..n1] == Basename(p2);
  }

  /** The payload `syncTasks` posts for a task. */
  datatype TaskPayload = TaskPayload(externalId: string, title: string, description: string, status: string,
                                     priority: string, storyPoints: nat, order: nat)

  /** The payload for one task: every field of the record but its group, under the spec-qualified external ID. */
  function TaskPayloadOf(specPath: string, t: TrackerTask): (p: TaskPayload)
    ensures p.externalId == ExternalId(specPath, t.externalId)
    ensures p.title == t.title && p.description == t.description && p.status == t.status
    ensures p.priority == t.priority && p.storyPoints == t.storyPoints && p.order == t.order
  {
    TaskPayload(ExternalId(specPath, t.externalId), t.title, t.description, t.status, t.priority, t.storyPoints, t.order)
  }

  /** The payload `syncTests` posts for a test; the feature ID is sent only when there is one. */
  datatype TestPayload = TestPayload(externalId: string, title: string, description: string, status: string,
                                     testType: string, featureId: Option<string>)

  /** The payload for one test, under the spec-qualified external ID; an empty feature ID counts as none. */
  function TestPayloadOf(specPath: string, c: TestCase, featureId: Option<string>): (p: TestPayload)
    ensures p.externalId == ExternalId(specPath, c.externalId)
    ensures p.title == c.title && p.description == c.description && p.status == c.status
    ensures p.testType == c.testType.Label()
    ensures p.featureId.Some? <==> featureId.Some? && featureId.value != ""
    ensures p.featureId.Some? ==> p.featureId == featureId
  {
    TestPayload(ExternalId(specPath, c.externalId), c.title, c.description, c.status, c.testType.Label(),
                if featureId.Some? && featureId.value != "" then featureId else None)
  }

  /** How many of the posts succeeded. */
  function Successes(results: seq<bool>): (n: nat)
    ensures n <= |results|
    ensures n == |results| <==> forall k :: 0 <= k < |results| ==> results[k]
    ensures n == 0 <==> forall k :: 0 <= k < |results| ==> !results[k]
  {
    if |results| == 0 then 0
    else
      var last := |results| - 1;
      var n := Successes(results[..last]);
      assert forall k :: 0 <= k < last ==> results[..last][k] == results[k];
      n + if results[last] then 1 else 0
  }

  /**
    The `synced` and `failed` counters of `syncTasks` and `syncTests`, given
    whether each post succeeded: every post counts once, either way.
  */
  method Tally(results: seq<bool>) returns (synced: nat, failed: nat)
    ensures synced == Successes(results) && synced + failed == |results|
  {
    synced, failed := 0, 0;
    for i := 0 to |results|
      invariant synced == Successes(results[..i]) && synced + failed == i
    {
      assert results[..i + 1][..i] == results[..i];
      if results[i] {
        synced := synced + 1;
      } else {
        failed := failed + 1;
      }
    }
    assert results[..|results|] == results;
  }

  /** The leftmost argument at or after `p` that does not start with `--`. */
  function FirstPlain(args: seq<string>, p: nat): (r: Option<nat>)
    ensures r.Some? ==> p <= r.value < |args| && !StartsWith(args[r.value], "--")
                        && forall k :: p <= k < r.value ==> StartsWith(args[k], "--")
    ensures r.None? ==> forall k :: p <= k < |args| ==> StartsWith(args[k], "--")
    decreases |args| - p
  {
    if p >= |args| then None
    else if !StartsWith(args[p], "--") then Some(p)
    else FirstPlain(args, p + 1)
  }

  /** The leftmost argument at or after `p` that starts with `--type=`. */
  function FirstTypeFlag(args: seq<string>, p: nat): (r: Option<nat>)
    ensures r.Some? ==> p <= r.value < |args| && StartsWith(args[r.value], "--type=")
                        && forall k :: p <= k < r.value ==> !StartsWith(args[k], "--type=")
    ensures r.None? ==> forall k :: p <= k < |args| ==> !StartsWith(args[k], "--type=")
    decreases |args| - p
  {
    if p >= |args| then None
    else if StartsWith(args[p], "--type=") then Some(p)
    else FirstTypeFlag(args, p + 1)
  }

  /**
    `typeArg.split('=')[1]`: the text of a `--type=` flag between its first
    `=` and the next one, if any.
  */
  function FlagValue(flag: string): (v: string)
    requires StartsWith(flag, "--type=")
    ensures v == Split(flag[7..], '=')[0]
  {
    assert flag == flag[..6] + ['='] + flag[7..];
    assert '=' !in flag[..6] by {
      assert flag[..6] == flag[..7][..6];
    }
    SplitPrefix(flag[..6], flag[7..], '=');
    Split(flag, '=')[1]
  }

  /** The sync type: the value of the first `--type=` flag, `all` without one. */
  function SyncType(args: seq<string>): string {
    match FirstTypeFlag(args, 0)
    case None => "all"
    case Some(i) => FlagValue(args[i])
  }

  /** What a sync type runs. */
  datatype Command = ProjectOnly | FeatureOnly | TasksOnly | TestsOnly | Full

  /** The `switch` of `main`: an unknown sync type, like `all`, runs the full sync. */
  function CommandOf(syncType: string): (c: Command)
    ensures c == ProjectOnly <==> syncType == "project"
    ensures c == FeatureOnly <==> syncType == "feature"
    ensures c == TasksOnly <==> syncType == "tasks"
    ensures c == TestsOnly <==> syncType == "tests"
    ensures c == Full <==> syncType !in {"project", "feature", "tasks", "tests"}
  {
    if syncType == "project" then ProjectOnly
    else if syncType == "feature" then FeatureOnly
    else if syncType == "tasks" then TasksOnly
    else if syncType == "tests" then TestsOnly
    else Full
  }

  /** How `main` ends: the usage message, the missing-path message, or a sync of the given kind. */
  datatype Outcome = Usage | MissingPath(path: string) | Run(specPath: string, command: Command)

  /**
    `main` on the arguments after the script name, with `existing` the paths
    that exist. The spec path is the first argument that does not start with
    `--`; when there is none, or it is empty, the usage message is printed.
  */
  function Main(args: seq<string>, existing: set<string>): (o: Outcome)
    ensures o == Usage <==> FirstPlain(args, 0).None? || args[FirstPlain(args, 0).value] == ""
    ensures o.MissingPath? ==> o.path == args[FirstPlain(args, 0).value] && o.path !in existing
    ensures o.Run? ==> o.specPath == args[FirstPlain(args, 0).value] && o.specPath in existing && o.specPath != ""
                       && o.command == CommandOf(SyncType(args))
  {
    match FirstPlain(args, 0)
    case None => Usage
    case Some(i) =>
      var specPath := args[i];
      if specPath == "" then Usage
      else if specPath !in existing then MissingPath(specPath)
      else Run(specPath, CommandOf(SyncType(args)))
  }

  /** A flag value without `=` is read back whole. */
  lemma FlagValueRoundTrip(v: string)
    requires '=' !in v
    ensures FlagValue("--type=" + v) == v
  {
    var flag := "--type=" + v;
    assert flag[..7] == "--type=";
    assert flag[7..] == v;
    SplitPiece(v, '=');
  }

  /**
    The spec path and the `--type=` flag may come in either order:
    `[path, "--type=" + v]` and `["--type=" + v, path]` both run the sync
    named by `v` on `path`.
  */
  lemma ArgumentOrderIrrelevant(path: string, v: string, existing: set<string>)
    requires path != "" && !StartsWith(path, "--") && path in existing && '=' !in v
    ensures Main([path, "--type=" + v], existing) == Run(path, CommandOf(v))
    ensures Main(["--type=" + v, path], existing) == Run(path, CommandOf(v))
  {
    var flag := "--type=" + v;
    assert flag[..7] == "--type=" && flag[..2] == "--";
    TypeFlagIsFlag(path);
    FlagValueRoundTrip(v);
    assert FirstPlain([path, flag], 0) == Some(0);
    assert FirstTypeFlag([path, flag], 0) == Some(1);
    assert FirstPlain([flag, path], 0) == Some(1);
    assert FirstTypeFlag([flag, path], 0) == Some(0);
  }

  /** A `--type=` flag starts with `--`, so it is never taken for the spec path. */
  lemma TypeFlagIsFlag(arg: string)
    ensures StartsWith(arg, "--type=") ==> StartsWith(arg, "--")
  {
    if StartsWith(arg, "--type=") {
      assert arg[..2] == arg[..7][..2];
    }
  }

  /** Without a spec path, only flags, `main` prints the usage message whatever the flags say. */
  lemma FlagsOnlyIsUsage(args: seq<string>, existing: set<string>)
    requires forall k :: 0 <= k < |args| ==> StartsWith(args[k], "--")
    ensures Main(args, existing) == Usage
  {
  }
}
