/**
  The vocabulary shared by the state detector and the Notion sync: the four
  artifacts of a spec folder in the order the workflow produces them, the
  agents that produce them, and the project statuses.
*/
module Workflow {

  /**
    Which artifacts exist under a spec folder: `raw-idea.md`,
    `planning/requirements.md`, the feature's spec file and `tasks.md`.
  */
  datatype SpecFiles = SpecFiles(rawIdea: bool, requirements: bool, spec: bool, tasks: bool) {
    /** The four flags in workflow order. */
    function InOrder(): seq<bool> {
      [rawIdea, requirements, spec, tasks]
    }

    /** Every artifact exists, so the work is in implementation. */
    predicate AllPresent() {
      rawIdea && requirements && spec && tasks
    }
  }

  /** The agent that should run next. */
  datatype Agent = SpecInitializer | SpecShaper | SpecWriter | TasksListCreator | Implementer | Complete {
    /** The agent's name as the scripts report it. */
    function Name(): string {
      match this
      case SpecInitializer => "spec-initializer"
      case SpecShaper => "spec-shaper"
      case SpecWriter => "spec-writer"
      case TasksListCreator => "tasks-list-creator"
      case Implementer => "implementer"
      case Complete => "complete"
    }
  }

  /** The status of a project. */
  datatype Status = NotStarted | Planning | InProgress | Done {
    /** The status as the scripts report it. */
    function Label(): string {
      match this
      case NotStarted => "Not Started"
      case Planning => "Planning"
      case InProgress => "In Progress"
      case Done => "Done"
    }
  }

  /** The agent that produces each artifact, in workflow order. */
  const Producers: seq<Agent> := [SpecInitializer, SpecShaper, SpecWriter, TasksListCreator]

  /** The index of the first missing artifact in workflow order, 4 when all exist. */
  function FirstMissing(files: SpecFiles): (k: nat)
    ensures k <= 4
    ensures k == 4 <==> files.AllPresent()
    ensures forall j :: 0 <= j < k ==> files.InOrder()[j]
    ensures k < 4 ==> !files.InOrder()[k]
  {
    if !files.rawIdea then 0
    else if !files.requirements then 1
    else if !files.spec then 2
    else if !files.tasks then 3
    else 4
  }
}
