/** The fixed transition table between task statuses and its validation. */
module TaskStateMachine {
  import Text
  import opened PipelineModels

  /** The successors of each status, in table order. DEPLOYED has no entry,
   *  so its lookup falls back to the empty set. */
  function Allowed(from: TaskStatus): seq<TaskStatus> {
    match from
    case CREATED => [PLANNED]
    case PLANNED => [READY]
    case READY => [IN_PROGRESS]
    case IN_PROGRESS => [PR_OPENED]
    case PR_OPENED => [REVIEWING]
    case REVIEWING => [APPROVED, CHANGES_REQUESTED]
    case CHANGES_REQUESTED => [IN_PROGRESS]
    case APPROVED => [MERGED]
    case MERGED => [TESTING]
    case TESTING => [TEST_PASSED, TEST_FAILED]
    case TEST_PASSED => [DEPLOYED]
    case TEST_FAILED => [BUG_CREATED]
    case BUG_CREATED => [CREATED]
    case DEPLOYED => []
  }

  /** `getAllowedTransitions` */
  function AllowedTransitions(from: TaskStatus): (r: set<TaskStatus>)
    ensures forall t :: t in r <==> t in Allowed(from)
  {
    set t | t in Allowed(from)
  }

  /** `canTransition` */
  predicate CanTransition(from: TaskStatus, to: TaskStatus) {
    to in Allowed(from)
  }

  datatype TransitionValidation = TransitionValidation(valid: bool, errorMessage: string)

  /** The text of a rejected transition: both statuses and the allowed set
   *  joined by ", " in table order. */
  function RejectionMessage(from: TaskStatus, to: TaskStatus): string {
    "Invalid transition: " + StatusName(from) + " -> " + StatusName(to)
    + ". Allowed from " + StatusName(from) + ": "
    + Text.Join(seq(|Allowed(from)|, i requires 0 <= i < |Allowed(from)| => StatusName(Allowed(from)[i])), ", ")
  }

  /** `validateTransition`: valid exactly when the table allows the move; a
   *  valid result has an empty message, an invalid one explains why. */
  function ValidateTransition(from: TaskStatus, to: TaskStatus): (r: TransitionValidation)
    ensures r.valid <==> to in Allowed(from)
    ensures r.valid ==> r.errorMessage == ""
    ensures !r.valid ==> r.errorMessage == RejectionMessage(from, to) && r.errorMessage != ""
  {
    if CanTransition(from, to) then TransitionValidation(true, "")
    else TransitionValidation(false, RejectionMessage(from, to))
  }

  /** A sequence of statuses each of which may follow the previous one. */
  predicate ValidPath(p: seq<TaskStatus>) {
    forall i :: 0 <= i < |p| - 1 ==> CanTransition(p[i], p[i + 1])
  }

  const HappyPath: seq<TaskStatus> :=
    [CREATED, PLANNED, READY, IN_PROGRESS, PR_OPENED, REVIEWING,
     APPROVED, MERGED, TESTING, TEST_PASSED, DEPLOYED]

  /** DEPLOYED is terminal: nothing is allowed out of it. */
  lemma DeployedIsTerminal()
    ensures AllowedTransitions(DEPLOYED) == {}
    ensures forall t :: !CanTransition(DEPLOYED, t)
    ensures forall t :: !ValidateTransition(DEPLOYED, t).valid
  {
  }

  /** Every other status has a successor; only REVIEWING and TESTING have two. */
  lemma SuccessorCounts(s: TaskStatus)
    ensures s != DEPLOYED <==> |Allowed(s)| >= 1
    ensures |Allowed(s)| == 2 <==> s == REVIEWING || s == TESTING
    ensures |Allowed(s)| <= 2
  {
  }

  /** No status may move to itself. */
  lemma NoSelfTransition(s: TaskStatus)
    ensures !CanTransition(s, s)
  {
  }

  /** The happy path takes ten valid steps from CREATED to DEPLOYED. */
  lemma HappyPathIsValid()
    ensures |HappyPath| == 11 && HappyPath[0] == CREATED && HappyPath[10] == DEPLOYED
    ensures ValidPath(HappyPath)
  {
  }

  /** The table is not acyclic: review rework and failed tests both loop back. */
  lemma TableHasCycles()
    ensures ValidPath([IN_PROGRESS, PR_OPENED, REVIEWING, CHANGES_REQUESTED, IN_PROGRESS])
    ensures ValidPath([CREATED, PLANNED, READY, IN_PROGRESS, PR_OPENED, REVIEWING,
                       APPROVED, MERGED, TESTING, TEST_FAILED, BUG_CREATED, CREATED])
  {
    var rework := [IN_PROGRESS, PR_OPENED, REVIEWING, CHANGES_REQUESTED, IN_PROGRESS];
    var tail := [TESTING, TEST_FAILED, BUG_CREATED, CREATED];
    var head := [CREATED, PLANNED, READY, IN_PROGRESS, PR_OPENED, REVIEWING, APPROVED, MERGED];
    assert ValidPath(rework);
    assert ValidPath(tail) && ValidPath(head);
    ValidPathJoin(head, tail);
    assert head + tail == [CREATED, PLANNED, READY, IN_PROGRESS, PR_OPENED, REVIEWING,
                           APPROVED, MERGED, TESTING, TEST_FAILED, BUG_CREATED, CREATED];
  }

  /** Two valid paths joined by an allowed move make a valid path. */
  lemma ValidPathJoin(p: seq<TaskStatus>, q: seq<TaskStatus>)
    requires ValidPath(p) && ValidPath(q) && p != [] && q != [] && CanTransition(p[|p| - 1], q[0])
    ensures ValidPath(p + q)
  {
    forall i | 0 <= i < |p + q| - 1 ensures CanTransition((p + q)[i], (p + q)[i + 1]) {
      if i < |p| - 1 {
        assert (p + q)[i] == p[i] && (p + q)[i + 1] == p[i + 1];
      } else if i == |p| - 1 {
        assert (p + q)[i] == p[|p| - 1] && (p + q)[i + 1] == q[0];
      } else {
        assert (p + q)[i] == q[i - |p|] && (p + q)[i + 1] == q[i - |p| + 1];
      }
    }
  }

  /** Steps still needed from a status to DEPLOYED along the table. */
  function Distance(s: TaskStatus): nat {
    match s
    case DEPLOYED => 0
    case TEST_PASSED => 1
    case TESTING => 2
    case MERGED => 3
    case APPROVED => 4
    case REVIEWING => 5
    case PR_OPENED => 6
    case IN_PROGRESS => 7
    case CHANGES_REQUESTED => 8
    case READY => 8
    case PLANNED => 9
    case CREATED => 10
    case BUG_CREATED => 11
    case TEST_FAILED => 12
  }

  /** The successor that makes progress toward DEPLOYED. */
  function Toward(s: TaskStatus): TaskStatus
    requires s != DEPLOYED
  {
    if s == REVIEWING then APPROVED
    else if s == TESTING then TEST_PASSED
    else Allowed(s)[0]
  }

  /** From every status there is a valid path to DEPLOYED. */
  ghost function PathToDeployed(s: TaskStatus): (p: seq<TaskStatus>)
    ensures |p| == Distance(s) + 1 && p[0] == s && p[|p| - 1] == DEPLOYED
    ensures ValidPath(p)
    decreases Distance(s)
  {
    if s == DEPLOYED then [s]
    else
      var rest := PathToDeployed(Toward(s));
      assert CanTransition(s, rest[0]);
      [s] + rest
  }
}
