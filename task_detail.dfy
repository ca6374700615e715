/** The task detail dialog's transition buttons: the table of next statuses
 *  it offers and the button row built from it. */
module TaskDetail {
  import opened PipelineModels
  import TaskStateMachine
  import PipelineTypes

  /** `NEXT_TRANSITIONS`: DEPLOYED has no entry. */
  const NextTransitions: map<string, seq<string>> := map[
    "CREATED" := ["PLANNED"],
    "PLANNED" := ["READY"],
    "READY" := ["IN_PROGRESS"],
    "IN_PROGRESS" := ["PR_OPENED"],
    "PR_OPENED" := ["REVIEWING"],
    "REVIEWING" := ["APPROVED", "CHANGES_REQUESTED"],
    "CHANGES_REQUESTED" := ["IN_PROGRESS"],
    "APPROVED" := ["MERGED"],
    "MERGED" := ["TESTING"],
    "TESTING" := ["TEST_PASSED", "TEST_FAILED"],
    "TEST_PASSED" := ["DEPLOYED"],
    "TEST_FAILED" := ["BUG_CREATED"],
    "BUG_CREATED" := ["CREATED"]
  ]

  /** `NEXT_TRANSITIONS[task.status] || []` */
  function NextStatuses(status: string): (r: seq<string>)
    ensures status !in NextTransitions ==> r == []
    ensures status in NextTransitions ==> r == NextTransitions[status]
  {
    if status in NextTransitions then NextTransitions[status] else []
  }

  /** `STATUS_COLORS[task.status] || "bg-gray-500"` */
  function StatusColor(status: string): (r: string)
    ensures status in PipelineTypes.StatusColors ==> r == PipelineTypes.StatusColors[status]
    ensures status !in PipelineTypes.StatusColors ==> r == "bg-gray-500"
  {
    if status in PipelineTypes.StatusColors then PipelineTypes.StatusColors[status] else "bg-gray-500"
  }

  function Names(ss: seq<TaskStatus>): (r: seq<string>)
    ensures |r| == |ss| && forall i :: 0 <= i < |ss| ==> r[i] == StatusName(ss[i])
  {
    seq(|ss|, i requires 0 <= i < |ss| => StatusName(ss[i]))
  }

  /** The dialog offers exactly the server's successors of each status, in
   *  the server's order. */
  lemma MatchesServerTable(s: TaskStatus)
    ensures NextStatuses(StatusName(s)) == Names(TaskStateMachine.Allowed(s))
  {
  }

  /** What a click asks the server for. */
  datatype TransitionClick = TransitionClick(taskId: int, status: string)

  /** The button row: one button per offered status, in order. */
  function TransitionButtons(taskId: int, status: string): (r: seq<TransitionClick>)
    ensures |r| == |NextStatuses(status)|
    ensures forall i :: 0 <= i < |r| ==> r[i] == TransitionClick(taskId, NextStatuses(status)[i])
  {
    var next := NextStatuses(status);
    seq(|next|, i requires 0 <= i < |next| => TransitionClick(taskId, next[i]))
  }

  /** Every button asks for a move the server accepts, and every move the
   *  server accepts has a button. */
  lemma ButtonsAreAccepted(s: TaskStatus, taskId: int)
    ensures forall b :: b in TransitionButtons(taskId, StatusName(s)) ==>
      b.taskId == taskId && exists t :: TaskStateMachine.CanTransition(s, t) && StatusName(t) == b.status
    ensures forall t :: TaskStateMachine.CanTransition(s, t) ==>
      TransitionClick(taskId, StatusName(t)) in TransitionButtons(taskId, StatusName(s))
  {
    MatchesServerTable(s);
    var next := TaskStateMachine.Allowed(s);
    var bs := TransitionButtons(taskId, StatusName(s));
    forall b | b in bs
      ensures b.taskId == taskId && exists t :: TaskStateMachine.CanTransition(s, t) && StatusName(t) == b.status
    {
      var i :| 0 <= i < |bs| && bs[i] == b;
      assert TaskStateMachine.CanTransition(s, next[i]);
    }
    forall t | TaskStateMachine.CanTransition(s, t)
      ensures TransitionClick(taskId, StatusName(t)) in bs
    {
      var i :| 0 <= i < |next| && next[i] == t;
      assert bs[i] == TransitionClick(taskId, StatusName(t));
    }
  }

  /** A deployed task shows no transition buttons. */
  lemma DeployedHasNoButtons(taskId: int)
    ensures TransitionButtons(taskId, StatusName(DEPLOYED)) == []
  {
  }

  /** Only a task under review or in testing has two buttons; the others
   *  have at most one. */
  lemma TwoButtonsOnlyWhenBranching(s: TaskStatus, taskId: int)
    ensures |TransitionButtons(taskId, StatusName(s))| == 2 <==> s == REVIEWING || s == TESTING
    ensures |TransitionButtons(taskId, StatusName(s))| <= 2
  {
    MatchesServerTable(s);
    TaskStateMachine.SuccessorCounts(s);
  }
}
