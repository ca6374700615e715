/** The board's view of task statuses: the status names the web client
 *  knows, the columns that group them and the colour of each. */
module PipelineTypes {
  import opened PipelineModels

  /** The `TaskStatus` union of the web client, in its written order. */
  const TaskStatuses: seq<string> :=
    ["CREATED", "PLANNED", "READY", "IN_PROGRESS", "PR_OPENED",
     "REVIEWING", "CHANGES_REQUESTED", "APPROVED", "MERGED",
     "TESTING", "TEST_PASSED", "TEST_FAILED", "BUG_CREATED", "DEPLOYED"]

  /** The client knows exactly the server's statuses, by the same names and
   *  in the same order. */
  lemma SameStatusesAsServer()
    ensures |TaskStatuses| == |AllStatuses|
    ensures forall i :: 0 <= i < |AllStatuses| ==> TaskStatuses[i] == StatusName(AllStatuses[i])
  {
  }

  /** A board column and the statuses it shows. */
  datatype Column = Column(name: string, statuses: seq<string>)

  /** `STATUS_COLUMNS` */
  const StatusColumns: seq<Column> := [
    Column("Backlog", ["CREATED", "PLANNED"]),
    Column("Ready", ["READY"]),
    Column("In Progress", ["IN_PROGRESS"]),
    Column("Review", ["PR_OPENED", "REVIEWING", "CHANGES_REQUESTED"]),
    Column("Done", ["APPROVED", "MERGED", "TESTING", "TEST_PASSED", "DEPLOYED"]),
    Column("Failed", ["TEST_FAILED", "BUG_CREATED"])
  ]

  /** The column a status belongs to. */
  function ColumnIndex(s: TaskStatus): (k: nat)
    ensures k < |StatusColumns| && StatusName(s) in StatusColumns[k].statuses
  {
    match s
    case CREATED => 0
    case PLANNED => 0
    case READY => 1
    case IN_PROGRESS => 2
    case PR_OPENED => 3
    case REVIEWING => 3
    case CHANGES_REQUESTED => 3
    case APPROVED => 4
    case MERGED => 4
    case TESTING => 4
    case TEST_PASSED => 4
    case DEPLOYED => 4
    case TEST_FAILED => 5
    case BUG_CREATED => 5
  }

  /** The six columns partition the statuses: every status is shown in its
   *  own column and in no other, and a column shows only statuses. */
  lemma ColumnsPartition(s: TaskStatus, k: nat)
    requires k < |StatusColumns|
    ensures StatusName(s) in StatusColumns[k].statuses <==> k == ColumnIndex(s)
  {
  }

  /** Every name a column shows is a status name. */
  lemma ColumnsShowStatuses(k: nat, i: nat)
    requires k < |StatusColumns| && i < |StatusColumns[k].statuses|
    ensures StatusColumns[k].statuses[i] in TaskStatuses
  {
  }

  /** `STATUS_COLORS` */
  const StatusColors: map<string, string> := map[
    "CREATED" := "bg-gray-500",
    "PLANNED" := "bg-blue-500",
    "READY" := "bg-cyan-500",
    "IN_PROGRESS" := "bg-yellow-500",
    "PR_OPENED" := "bg-orange-500",
    "REVIEWING" := "bg-purple-500",
    "CHANGES_REQUESTED" := "bg-red-400",
    "APPROVED" := "bg-green-400",
    "MERGED" := "bg-green-500",
    "TESTING" := "bg-indigo-500",
    "TEST_PASSED" := "bg-green-600",
    "TEST_FAILED" := "bg-red-600",
    "BUG_CREATED" := "bg-red-500",
    "DEPLOYED" := "bg-emerald-600"
  ]

  /** Every status has a colour, and only statuses do. */
  lemma EveryStatusHasColor(s: TaskStatus)
    ensures StatusName(s) in StatusColors
    ensures forall x :: x in StatusColors ==> x in TaskStatuses
  {
  }
}
