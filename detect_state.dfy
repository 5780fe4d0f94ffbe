/**
  `detectState` of the state detector: which agent runs next on a spec
  folder, the project status, and the first unfinished task.

  The file system is an input: `files` says which artifacts exist and
  `tasksContent` is the text of `tasks.md`, which is read only when all four
  artifacts exist.
*/
module DetectState {
  import opened Wrappers
  import opened Text
  import opened TaskList
  import opened TasksFile
  import opened Workflow

  /** The report the detector prints. */
  datatype State = State(
    specPath: string,
    specName: string,
    nextAgent: Agent,
    nextTask: Option<Task>,
    projectStatus: Status,
    summary: string)

  /** The summary line for the next task. */
  function NextTaskSummary(t: Task): string {
    "Next task: " + t.id + " - " + t.description
  }

  /** The detector's report for a spec folder. */
  function Detect(specPath: string, files: SpecFiles, tasksContent: string): (s: State)
    ensures s.specPath == specPath && s.specName == Basename(specPath)
    ensures s.nextTask.Some? <==> s.nextAgent == Implementer
  {
    var name := Basename(specPath);
    if !files.rawIdea then
      State(specPath, name, SpecInitializer, None, NotStarted, "Need to initialize spec folder")
    else if !files.requirements then
      State(specPath, name, SpecShaper, None, Planning, "Need to gather requirements")
    else if !files.spec then
      State(specPath, name, SpecWriter, None, Planning, "Need to write specification")
    else if !files.tasks then
      State(specPath, name, TasksListCreator, None, Planning, "Need to create tasks list")
    else
      var incomplete := Incomplete(ParseText(tasksContent));
      if |incomplete| == 0 then
        State(specPath, name, Complete, None, Done, "All tasks completed!")
      else
        State(specPath, name, Implementer, Some(incomplete[0]), InProgress, NextTaskSummary(incomplete[0]))
  }

  /**
    While an artifact is missing, the next agent is the producer of the first
    missing one; the status is "Not Started" before the raw idea exists and
    "Planning" after.
  */
  lemma FirstMissingDecides(specPath: string, files: SpecFiles, tasksContent: string)
    requires FirstMissing(files) < 4
    ensures Detect(specPath, files, tasksContent).nextAgent == Producers[FirstMissing(files)]
    ensures Detect(specPath, files, tasksContent).projectStatus == if FirstMissing(files) == 0 then NotStarted else Planning
    ensures Detect(specPath, files, tasksContent).nextTask == None
  {
    var bs := files.InOrder();
    var k := FirstMissing(files);
    assert bs[0] == files.rawIdea && bs[1] == files.requirements && bs[2] == files.spec && bs[3] == files.tasks;
  }

  /**
    Only the artifacts up to the first missing one matter: two folders that
    agree on those, whatever exists beyond and whatever `tasks.md` says, get
    the same report.
  */
  lemma LaterFilesIgnored(specPath: string, f1: SpecFiles, f2: SpecFiles, c1: string, c2: string)
    requires FirstMissing(f1) < 4
    requires f1.InOrder()[..FirstMissing(f1) + 1] == f2.InOrder()[..FirstMissing(f1) + 1]
    ensures Detect(specPath, f1, c1) == Detect(specPath, f2, c2)
  {
    var k := FirstMissing(f1);
    var b1, b2 := f1.InOrder(), f2.InOrder();
    assert b1[..k + 1][k] == b2[..k + 1][k];
    FirstMissingDecides(specPath, f1, c1);
    if k > 0 {
      assert b1[..k + 1][k - 1] == b2[..k + 1][k - 1];
      if k > 1 {
        assert b1[..k + 1][k - 2] == b2[..k + 1][k - 2];
        if k > 2 {
          assert b1[..k + 1][0] == b2[..k + 1][0];
        }
      }
    }
    assert FirstMissing(f2) == k;
    FirstMissingDecides(specPath, f2, c2);
  }

  /** The work is complete exactly when every artifact exists and every task of `tasks.md` is checked. */
  lemma CompleteWhenAllDone(specPath: string, files: SpecFiles, tasksContent: string)
    ensures Detect(specPath, files, tasksContent).nextAgent == Complete <==>
            files.AllPresent() && forall t :: t in ParseText(tasksContent) ==> t.completed
    ensures Detect(specPath, files, tasksContent).nextAgent == Complete ==>
            Detect(specPath, files, tasksContent).projectStatus == Done &&
            Detect(specPath, files, tasksContent).summary == "All tasks completed!"
  {
    var tasks := ParseText(tasksContent);
    if files.AllPresent() && |Incomplete(tasks)| > 0 {
      assert Incomplete(tasks)[0] in Incomplete(tasks);
    }
  }

  /**
    When the implementer is next, every artifact exists and the next task is
    the first task of `tasks.md` that is not completed; the summary names it.
  */
  lemma NextTaskIsFirstIncomplete(specPath: string, files: SpecFiles, tasksContent: string)
    requires Detect(specPath, files, tasksContent).nextAgent == Implementer
    ensures files.AllPresent()
    ensures Detect(specPath, files, tasksContent).projectStatus == InProgress
    ensures exists k :: 0 <= k < |ParseText(tasksContent)| &&
                        Detect(specPath, files, tasksContent).nextTask == Some(ParseText(tasksContent)[k]) &&
                        !ParseText(tasksContent)[k].completed &&
                        forall j :: 0 <= j < k ==> ParseText(tasksContent)[j].completed
    ensures Detect(specPath, files, tasksContent).summary == NextTaskSummary(Detect(specPath, files, tasksContent).nextTask.value)
  {
    FirstIncomplete(ParseText(tasksContent));
  }
}
