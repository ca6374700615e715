/** The records of the task pipeline: projects, epics, features, development
 *  tasks and their status history, and the shape of an LLM project analysis. */
module PipelineModels {
  import opened Wrappers

  /** The fourteen task statuses, in declaration order. */
  datatype TaskStatus =
    | CREATED | PLANNED | READY | IN_PROGRESS | PR_OPENED
    | REVIEWING | CHANGES_REQUESTED | APPROVED | MERGED
    | TESTING | TEST_PASSED | TEST_FAILED | BUG_CREATED | DEPLOYED

  const AllStatuses: seq<TaskStatus> :=
    [CREATED, PLANNED, READY, IN_PROGRESS, PR_OPENED,
     REVIEWING, CHANGES_REQUESTED, APPROVED, MERGED,
     TESTING, TEST_PASSED, TEST_FAILED, BUG_CREATED, DEPLOYED]

  /** The enum constant's name, as string interpolation renders it. */
  function StatusName(s: TaskStatus): string {
    match s
    case CREATED => "CREATED"
    case PLANNED => "PLANNED"
    case READY => "READY"
    case IN_PROGRESS => "IN_PROGRESS"
    case PR_OPENED => "PR_OPENED"
    case REVIEWING => "REVIEWING"
    case CHANGES_REQUESTED => "CHANGES_REQUESTED"
    case APPROVED => "APPROVED"
    case MERGED => "MERGED"
    case TESTING => "TESTING"
    case TEST_PASSED => "TEST_PASSED"
    case TEST_FAILED => "TEST_FAILED"
    case BUG_CREATED => "BUG_CREATED"
    case DEPLOYED => "DEPLOYED"
  }

  /** Distinct statuses have distinct names. */
  lemma StatusNameInjective(s: TaskStatus, t: TaskStatus)
    ensures StatusName(s) == StatusName(t) ==> s == t
  {
  }

  /** `TESTING_CATEGORY` stands for the category constant `TESTING`, whose
   *  name the status enum already takes in this module. */
  datatype TaskCategory = DESIGN | BACKEND | FRONTEND | DEVOPS | TESTING_CATEGORY | DOCUMENTATION

  function CategoryName(c: TaskCategory): string {
    match c
    case DESIGN => "DESIGN"
    case BACKEND => "BACKEND"
    case FRONTEND => "FRONTEND"
    case DEVOPS => "DEVOPS"
    case TESTING_CATEGORY => "TESTING"
    case DOCUMENTATION => "DOCUMENTATION"
  }

  /** `TaskCategory.valueOf`: the constant with exactly this name. */
  function ParseCategory(name: string): (r: Option<TaskCategory>)
    ensures r.Some? ==> CategoryName(r.value) == name
  {
    if name == "DESIGN" then Some(DESIGN)
    else if name == "BACKEND" then Some(BACKEND)
    else if name == "FRONTEND" then Some(FRONTEND)
    else if name == "DEVOPS" then Some(DEVOPS)
    else if name == "TESTING" then Some(TESTING_CATEGORY)
    else if name == "DOCUMENTATION" then Some(DOCUMENTATION)
    else None
  }

  lemma ParseCategoryOfName(c: TaskCategory)
    ensures ParseCategory(CategoryName(c)) == Some(c)
  {
  }

  datatype TaskPriority = CRITICAL | HIGH | MEDIUM | LOW

  function PriorityName(p: TaskPriority): string {
    match p
    case CRITICAL => "CRITICAL"
    case HIGH => "HIGH"
    case MEDIUM => "MEDIUM"
    case LOW => "LOW"
  }

  /** `TaskPriority.valueOf`: the constant with exactly this name. */
  function ParsePriority(name: string): (r: Option<TaskPriority>)
    ensures r.Some? ==> PriorityName(r.value) == name
  {
    if name == "CRITICAL" then Some(CRITICAL)
    else if name == "HIGH" then Some(HIGH)
    else if name == "MEDIUM" then Some(MEDIUM)
    else if name == "LOW" then Some(LOW)
    else None
  }

  lemma ParsePriorityOfName(p: TaskPriority)
    ensures ParsePriority(PriorityName(p)) == Some(p)
  {
  }

  datatype ProjectStatus = ACTIVE | PAUSED | COMPLETED | ARCHIVED

  /** Row identifiers are positive; 0 is the "not yet stored" default. */
  type Id = nat

  datatype Project = Project(id: Id, name: string, description: string, repoUrl: string, status: ProjectStatus)

  datatype Epic = Epic(id: Id, projectId: Id, title: string, description: string, order: int)

  datatype Feature = Feature(id: Id, epicId: Id, title: string, description: string, acceptanceCriteria: string)

  /** A development task. Timestamps are not modelled: creation order is the
   *  order of the task table. */
  datatype DevTask = DevTask(
    id: Id,
    featureId: Id,
    title: string,
    description: string,
    category: TaskCategory,
    priority: TaskPriority,
    status: TaskStatus,
    assignedAgent: string,
    branchName: string,
    prUrl: string,
    dependsOn: seq<Id>,
    estimatedComplexity: int)

  /** One row of the status history. */
  datatype TaskTransition = TaskTransition(
    id: Id,
    taskId: Id,
    fromStatus: TaskStatus,
    toStatus: TaskStatus,
    reason: string,
    triggeredBy: string)

  /** The project analysis an LLM returns, before it is stored. Category and
   *  priority are still free text here. */
  datatype AnalysisTask = AnalysisTask(
    title: string,
    description: string,
    category: string,
    priority: string,
    estimatedComplexity: int,
    dependsOnTitles: seq<string>)

  datatype AnalysisFeature = AnalysisFeature(title: string, description: string, acceptanceCriteria: string, tasks: seq<AnalysisTask>)

  datatype AnalysisEpic = AnalysisEpic(title: string, description: string, features: seq<AnalysisFeature>)

  datatype AnalysisResult = AnalysisResult(epics: seq<AnalysisEpic>)
}
