/**
  The Notion sync's own reading of a spec folder (`detectState` of the sync
  script) and the properties it writes for each task (`upsertNotionTasks`).

  As for the state detector, the file system is an input; the Notion API
  calls themselves are not part of this model.
*/
module NotionSync {
  import opened Wrappers
  import opened Text
  import opened Checklist
  import opened TaskList
  import opened TasksFile
  import opened Workflow
  import DetectState

  /** The state the sync reports to Notion. */
  datatype SyncState = SyncState(
    specPath: string,
    specName: string,
    files: SpecFiles,
    currentAgent: Agent,
    projectStatus: Status,
    tasks: seq<Task>)

  /** `state.tasks.every(t => t.completed)`. */
  predicate AllDone(tasks: seq<Task>) {
    forall t :: t in tasks ==> t.completed
  }

  /**
    The sync's reading of a spec folder. Tasks are read, and the implementer
    reported, exactly when all four artifacts exist; then the project is
    "Done" exactly when every task of `tasks.md` is completed, and "In
    Progress" otherwise.
  */
  function Detect(specPath: string, files: SpecFiles, tasksContent: string): (s: SyncState)
    ensures s.specPath == specPath && s.specName == Basename(specPath) && s.files == files
    ensures s.currentAgent != Complete
    ensures s.currentAgent == Implementer <==> files.AllPresent()
    ensures !files.AllPresent() ==> s.tasks == [] && s.projectStatus in {NotStarted, Planning}
    ensures files.AllPresent() ==> s.tasks == ParseText(tasksContent) && s.projectStatus in {Done, InProgress}
    ensures files.AllPresent() ==> (s.projectStatus == Done <==> forall t :: t in ParseText(tasksContent) ==> t.completed)
  {
    var name := Basename(specPath);
    if !files.rawIdea then SyncState(specPath, name, files, SpecInitializer, NotStarted, [])
    else if !files.requirements then SyncState(specPath, name, files, SpecShaper, Planning, [])
    else if !files.spec then SyncState(specPath, name, files, SpecWriter, Planning, [])
    else if !files.tasks then SyncState(specPath, name, files, TasksListCreator, Planning, [])
    else
      var tasks := ParseText(tasksContent);
      SyncState(specPath, name, files, Implementer, if AllDone(tasks) then Done else InProgress, tasks)
  }

  /**
    The sync agrees with the state detector: the same status, and the same
    agent except that a finished project is reported with the implementer
    rather than as complete.
  */
  lemma AgreesWithDetector(specPath: string, files: SpecFiles, tasksContent: string)
    ensures Detect(specPath, files, tasksContent).projectStatus == DetectState.Detect(specPath, files, tasksContent).projectStatus
    ensures Detect(specPath, files, tasksContent).currentAgent ==
            var a := DetectState.Detect(specPath, files, tasksContent).nextAgent; if a == Complete then Implementer else a
  {
    if files.AllPresent() {
      DetectState.CompleteWhenAllDone(specPath, files, tasksContent);
    }
  }

  /** The properties of a task page in the Notion tasks database. */
  datatype TaskPage = TaskPage(name: string, taskId: string, status: string, group: string)

  /** The properties `upsertNotionTasks` writes for a task. */
  function PageOf(t: Task): (p: TaskPage)
    ensures p.taskId == t.id && p.group == t.group
    ensures p.status == "Done" <==> t.completed
    ensures p.status in {"Done", "Todo"}
  {
    TaskPage(t.id + " " + t.description, t.id, if t.completed then "Done" else "Todo", t.group)
  }

  /** The index of the first space in `s`, or `|s|` when there is none. */
  function FirstSpace(s: string): (k: nat)
    ensures k <= |s| && (forall j :: 0 <= j < k ==> s[j] != ' ') && (k < |s| ==> s[k] == ' ')
  {
    if |s| == 0 || s[0] == ' ' then 0 else 1 + FirstSpace(s[1..])
  }

  /** The first space found after words containing none is the one that follows them. */
  lemma {:induction false} FirstSpaceAfter(a: string, b: string)
    requires ' ' !in a
    ensures FirstSpace(a + " " + b) == |a|
  {
    if |a| > 0 {
      assert a[0] in a;
      assert (a + " " + b)[1..] == a[1..] + " " + b;
      assert forall c :: c in a[1..] ==> c in a;
      FirstSpaceAfter(a[1..], b);
    }
  }

  /** A dotted task ID holds digits and one dot, never a space. */
  lemma DottedIdHasNoSpace(id: string)
    requires IsDottedId(id)
    ensures ' ' !in id
  {
    var k :| 0 < k < |id| - 1 && id[k] == '.' && DigitsIn(id, 0, k) && DigitsIn(id, k + 1, |id|);
    forall j | 0 <= j < |id| ensures id[j] != ' ' {
      if j != k {
        assert IsDigit(id[j]);
      }
    }
  }

  /** Joining a space-free ID and a description with one space can be undone at the first space. */
  lemma JoinedAtFirstSpace(id: string, description: string)
    requires ' ' !in id
    ensures var n := id + " " + description;
            FirstSpace(n) == |id| && n[..|id|] == id && n[|id| + 1..] == description
  {
    FirstSpaceAfter(id, description);
    var n := id + " " + description;
    assert n[..|id|] == id;
    assert n[|id| + 1..] == description;
  }

  /**
    A page name determines its task: for every task read from `tasks.md`, the
    name is the ID and the description joined by one space, the ID is the
    text before the name's first space and the description the text after it.
  */
  lemma PageNameSplits(content: string, t: Task)
    requires t in ParseText(content)
    ensures var n := PageOf(t).name;
            FirstSpace(n) == |t.id| && n[..|t.id|] == t.id && n[|t.id| + 1..] == t.description
  {
    ParsedTaskShape(content, t);
    DottedIdHasNoSpace(t.id);
    JoinedAtFirstSpace(t.id, t.description);
  }
}
