/** The pipeline controller: drives one task through the transition chain,
 *  promotes ready tasks in bulk, and reports a project's status. The
 *  meta-controller and the GitHub tool are parameters. */
module Orchestrator {
  import opened Wrappers
  import Text
  import opened PipelineModels
  import TaskStateMachine
  import AgentSteps
  import opened TaskStore
  import ProjectAnalyzer

  /** The two GitHub tool calls the pipeline makes, standing for the
   *  tool's parameter maps: `action` create_branch with `branch_name`, and
   *  `action` create_pr with the `message`, `body` and `base_branch` that
   *  PrMessage, PrBody and PrBase give. */
  datatype GitRequest =
    | CreateBranch(branchName: string)
    | CreatePr(task: DevTask, code: string)

  /** The two meta-controller calls: code generation for a task and review
   *  of the generated code. The call stands for `process` on the prompt
   *  CallPrompt gives, in the session CallSession gives. */
  datatype PipelineCall =
    | CodeCall(task: DevTask)
    | ReviewCall(task: DevTask, code: string)

  /** What a GitHub tool call does: return a result or throw. */
  datatype GitReply = Replied(result: AgentSteps.ToolResult) | GitThrew(message: string)

  /** A slug character: `[a-z0-9]`. */
  predicate IsSlugChar(c: char) {
    Text.IsLower(c) || Text.IsDigit(c)
  }

  /** Drops the leading run of non-slug characters. */
  function DropNonSlug(s: string): (r: string)
    ensures |r| <= |s| && r == s[|s| - |r|..]
    ensures r != [] ==> IsSlugChar(r[0])
  {
    if s == [] || IsSlugChar(s[0]) then s else DropNonSlug(s[1..])
  }

  /** `replace(Regex("[^a-z0-9]+"), "-")`: every maximal run of non-slug
   *  characters becomes one dash. */
  function Collapse(s: string): (r: string)
    decreases |s|
  {
    if s == [] then []
    else if IsSlugChar(s[0]) then [s[0]] + Collapse(s[1..])
    else "-" + Collapse(DropNonSlug(s[1..]))
  }

  /** The alphabet of a slug is `[a-z0-9-]` and no dash follows a dash. */
  predicate SlugShaped(r: string) {
    && (forall i :: 0 <= i < |r| ==> IsSlugChar(r[i]) || r[i] == '-')
    && (forall i :: 0 <= i < |r| - 1 ==> r[i] == '-' ==> r[i + 1] != '-')
  }

  /** A slug character, or a dash not followed by one, in front of a
   *  shaped slug keeps it shaped. */
  lemma ConsShaped(x: char, c: string)
    requires SlugShaped(c)
    requires IsSlugChar(x) || (x == '-' && (c == [] || c[0] != '-'))
    ensures SlugShaped([x] + c)
  {
    var r := [x] + c;
    assert forall i :: 1 <= i < |r| ==> r[i] == c[i - 1];
  }

  lemma {:induction false} CollapseShape(s: string)
    ensures SlugShaped(Collapse(s))
    ensures |Collapse(s)| <= |s|
    ensures Collapse(s) != [] && Collapse(s)[0] == '-' ==> !IsSlugChar(s[0])
    decreases |s|
  {
    if s != [] {
      if IsSlugChar(s[0]) {
        CollapseShape(s[1..]);
        ConsShaped(s[0], Collapse(s[1..]));
      } else {
        var rest := DropNonSlug(s[1..]);
        CollapseShape(rest);
        ConsShaped('-', Collapse(rest));
      }
    }
  }

  /** The branch slug: the lowercased title collapsed and cut to 40. */
  function Slug(title: string): string {
    Text.Take(Collapse(Text.Lower(title)), 40)
  }

  /** A slug is at most 40 characters of `[a-z0-9-]` without a double dash. */
  lemma SlugIsShaped(title: string)
    ensures |Slug(title)| <= 40 && SlugShaped(Slug(title))
  {
    var c := Collapse(Text.Lower(title));
    CollapseShape(Text.Lower(title));
    var r := Slug(title);
    assert r == c[..|r|];
    forall i | 0 <= i < |r| - 1 ensures r[i] == '-' ==> r[i + 1] != '-' {
      assert r[i] == c[i] && r[i + 1] == c[i + 1];
    }
  }

  /** A title of slug characters only is its own slug, up to the length cut. */
  lemma {:induction false} CollapseOfSlugChars(s: string)
    requires forall i :: 0 <= i < |s| ==> IsSlugChar(s[i])
    ensures Collapse(s) == s
    decreases |s|
  {
    if s != [] {
      CollapseOfSlugChars(s[1..]);
    }
  }

  /** A shaped string is left as it is by the collapse: each dash is its own
   *  run. */
  lemma {:induction false} CollapseOfShaped(s: string)
    requires SlugShaped(s)
    ensures Collapse(s) == s
    decreases |s|
  {
    if s != [] {
      assert SlugShaped(s[1..]) by {
        forall i | 0 <= i < |s[1..]| - 1 ensures s[1..][i] == '-' ==> s[1..][i + 1] != '-' {
          assert s[1..][i] == s[i + 1] && s[1..][i + 1] == s[i + 2];
        }
      }
      CollapseOfShaped(s[1..]);
      if !IsSlugChar(s[0]) {
        if |s| > 1 {
          assert s[1] != '-';
        }
        assert DropNonSlug(s[1..]) == s[1..];
      }
    }
  }

  /** Lowercasing leaves a shaped string alone: it has no upper-case
   *  letters. */
  lemma LowerOfShaped(s: string)
    requires SlugShaped(s)
    ensures Text.Lower(s) == s
  {
    forall i | 0 <= i < |s| ensures Text.Lower(s)[i] == s[i] {
      assert IsSlugChar(s[i]) || s[i] == '-';
    }
  }

  /** A slug is its own slug. */
  lemma SlugIdempotent(title: string)
    ensures Slug(Slug(title)) == Slug(title)
  {
    var s := Slug(title);
    SlugIsShaped(title);
    LowerOfShaped(s);
    CollapseOfShaped(s);
  }

  /** The branch name `feature/task-<id>-<slug>`. */
  function BranchName(taskId: Id, title: string): (r: string)
    ensures Text.StartsWith(r, "feature/task-")
  {
    "feature/task-" + Text.IntToString(taskId) + "-" + Slug(title)
  }

  /** A rejection keyword starts at index i. */
  predicate KeywordAt(l: string, i: nat) {
    Text.OccursAt(l, "major issue", i) || Text.OccursAt(l, "critical bug", i) || Text.OccursAt(l, "reject", i)
  }

  /** No rejection keyword starts at i or later. */
  predicate NoKeywordFrom(l: string, i: nat)
    decreases |l| - i
  {
    i >= |l| || (!KeywordAt(l, i) && NoKeywordFrom(l, i + 1))
  }

  /** The review heuristic, scanning the lowercased answer for a rejection
   *  keyword. */
  predicate IsApproved(answer: string) {
    NoKeywordFrom(Text.Lower(answer), 0)
  }

  lemma {:induction false} NoKeywordFromExact(l: string, i: nat)
    ensures NoKeywordFrom(l, i) <==> forall j :: i <= j < |l| ==> !KeywordAt(l, j)
    decreases |l| - i
  {
    if i < |l| {
      NoKeywordFromExact(l, i + 1);
    }
  }

  /** The scan agrees with lines 176-178: approved exactly when the
   *  lowercased answer contains none of "major issue", "critical bug",
   *  "reject". */
  lemma ApprovalMeansNoKeyword(answer: string)
    ensures var l := Text.Lower(answer);
      IsApproved(answer) <==>
        !(Text.Contains(l, "major issue") || Text.Contains(l, "critical bug") || Text.Contains(l, "reject"))
  {
    var l := Text.Lower(answer);
    NoKeywordFromExact(l, 0);
    if Text.Contains(l, "major issue") {
      var i :| 0 <= i <= |l| - |"major issue"| && Text.OccursAt(l, "major issue", i);
      assert KeywordAt(l, i);
    } else if Text.Contains(l, "critical bug") {
      var i :| 0 <= i <= |l| - |"critical bug"| && Text.OccursAt(l, "critical bug", i);
      assert KeywordAt(l, i);
    } else if Text.Contains(l, "reject") {
      var i :| 0 <= i <= |l| - |"reject"| && Text.OccursAt(l, "reject", i);
      assert KeywordAt(l, i);
    } else {
      forall j | 0 <= j < |l| ensures !KeywordAt(l, j) {
        if KeywordAt(l, j) {
          assert false;
        }
      }
    }
  }

  /** More review text can only withdraw an approval. */
  lemma ApprovalNeedsBothParts(a: string, b: string)
    ensures IsApproved(a + b) ==> IsApproved(a) && IsApproved(b)
  {
    var la, lb := Text.Lower(a), Text.Lower(b);
    var l := la + lb;
    assert Text.Lower(a + b) == l;
    assert la == l[0..|la|];
    assert lb == l[|la|..|l|];
    NoKeywordInSlice(l, 0, |la|);
    NoKeywordInSlice(l, |la|, |l|);
  }

  /** A slice of a text without keywords has none either. */
  lemma NoKeywordInSlice(l: string, begin: nat, end: nat)
    requires begin <= end <= |l|
    ensures NoKeywordFrom(l, 0) ==> NoKeywordFrom(l[begin..end], 0)
  {
    var part := l[begin..end];
    if NoKeywordFrom(l, 0) {
      NoKeywordFromExact(l, 0);
      NoKeywordFromExact(part, 0);
      forall i | 0 <= i < |part| ensures !KeywordAt(part, i) {
        if KeywordAt(part, i) {
          KeywordInSlice(l, begin, end, i);
        }
      }
    }
  }

  /** A keyword in a slice of l occurs in l. */
  lemma KeywordInSlice(l: string, begin: nat, end: nat, i: nat)
    requires begin <= end <= |l|
    requires KeywordAt(l[begin..end], i)
    ensures KeywordAt(l, begin + i)
  {
    OccursInSlice(l, begin, end, "major issue", i);
    OccursInSlice(l, begin, end, "critical bug", i);
    OccursInSlice(l, begin, end, "reject", i);
  }

  lemma OccursInSlice(l: string, begin: nat, end: nat, p: string, i: nat)
    requires begin <= end <= |l|
    ensures Text.OccursAt(l[begin..end], p, i) ==> Text.OccursAt(l, p, begin + i)
  {
    var part := l[begin..end];
    if Text.OccursAt(part, p, i) {
      var q, w := part[i..i + |p|], l[begin + i..begin + i + |p|];
      assert forall k :: 0 <= k < |q| ==> q[k] == w[k];
      assert q == w;
    }
  }

  /** Upper-case keywords reject too. */
  lemma UpperCaseRejects()
    ensures !IsApproved("REJECTED")
  {
    var l := Text.Lower("REJECTED");
    assert l == "rejected";
    assert l[0..6] == "reject";
    assert KeywordAt(l, 0);
  }

  /** `buildCodePrompt`, for a title and description without line breaks. */
  function CodePrompt(t: DevTask): string {
    "Asagidaki task icin kod yaz:\n\nTask: " + t.title
    + "\nAciklama: " + t.description
    + "\nKategori: " + CategoryName(t.category)
    + "\nOncelik: " + PriorityName(t.priority)
    + "\n\nKurallar:\n- Kotlin/Ktor best practices kullan\n- Temiz, okunabilir kod yaz\n- Gerekli import'lari ekle\n- Error handling ekle"
  }

  function ReviewPrompt(title: string, code: string): string {
    "Review the code generated for task: " + title + "\n\nCode output:\n" + Text.Take16(code, 2000)
  }

  function PrMessage(t: DevTask): string {
    "[KAI-" + Text.IntToString(t.id) + "] " + t.title
  }

  function PrBody(t: DevTask, code: string): string {
    "Auto-generated by KAI Pipeline\n\n" + t.description + "\n\n---\n" + Text.Take16(code, 500)
  }

  const PrBase: string := "main"

  function CallPrompt(c: PipelineCall): string {
    match c
    case CodeCall(t) => CodePrompt(t)
    case ReviewCall(t, code) => ReviewPrompt(t.title, code)
  }

  function CallSession(c: PipelineCall): string {
    match c
    case CodeCall(t) => "pipeline-task-" + Text.IntToString(t.id)
    case ReviewCall(t, _) => "pipeline-review-" + Text.IntToString(t.id)
  }

  /** The review sees at most the first 2000 characters of the code. */
  lemma ReviewPromptShowsCodePrefix(title: string, code: string)
    ensures var p := ReviewPrompt(title, code);
      Text.EndsWith(p, Text.Take16(code, 2000)) && |p| <= |title| + 2051
  {
    var head := "Review the code generated for task: " + title + "\n\nCode output:\n";
    var tail := Text.Take16(code, 2000);
    assert ReviewPrompt(title, code) == head + tail;
    assert (head + tail)[|head|..] == tail;
  }

  predicate PrSucceeded(reply: GitReply) {
    reply.Replied? && reply.result.Success?
  }

  /** The PR url: the data of a successful create_pr, else empty. */
  function PrUrl(reply: GitReply): string {
    if PrSucceeded(reply) then reply.result.data.GetOr("") else ""
  }

  /** The statuses after review: the approve chain to DEPLOYED, or back to
   *  CHANGES_REQUESTED. */
  function ReviewStatuses(approved: bool): seq<TaskStatus> {
    if approved then [APPROVED, MERGED, TESTING, TEST_PASSED, DEPLOYED] else [CHANGES_REQUESTED]
  }

  /** Every status `processTask` moves a task to, in order. */
  function ProcessStatuses(approved: bool): seq<TaskStatus> {
    [IN_PROGRESS, PR_OPENED, REVIEWING] + ReviewStatuses(approved)
  }

  /** A history row the pipeline writes: row number n, triggered by "system". */
  function Logged(n: nat, taskId: Id, from: TaskStatus, to: TaskStatus, reason: string): TaskTransition {
    TaskTransition(n, taskId, from, to, reason, "system")
  }

  /** The rows the review outcome appends after row number start, for a
   *  task in REVIEWING (lines 180-196). */
  function ReviewLog(start: nat, taskId: Id, approved: bool, review: string): seq<TaskTransition> {
    if approved then
      [Logged(start + 1, taskId, REVIEWING, APPROVED, "Review passed"),
       Logged(start + 2, taskId, APPROVED, MERGED, "Auto-merged"),
       Logged(start + 3, taskId, MERGED, TESTING, "Running tests"),
       Logged(start + 4, taskId, TESTING, TEST_PASSED, "Tests passed"),
       Logged(start + 5, taskId, TEST_PASSED, DEPLOYED, "Deployed")]
    else
      [Logged(start + 1, taskId, REVIEWING, CHANGES_REQUESTED, Text.Take16(review, 500))]
  }

  /** The statuses in order are a valid path of the transition table from
   *  either starting status, ending at DEPLOYED when approved and at
   *  CHANGES_REQUESTED otherwise. */
  lemma ProcessChainIsValid(from: TaskStatus, approved: bool)
    requires from == READY || from == CHANGES_REQUESTED
    ensures TaskStateMachine.ValidPath([from] + ProcessStatuses(approved))
    ensures var to := ProcessStatuses(approved);
      to[|to| - 1] == if approved then DEPLOYED else CHANGES_REQUESTED
  {
  }

  /** The log `processTask` writes: numbered rows of the task, each leaving
   *  the status the previous one entered, each allowed by the table, going
   *  through the statuses in order; a rejection carries the first 500
   *  characters of the review. */
  lemma ProcessLogIsChain(start: nat, taskId: Id, from: TaskStatus, approved: bool, prUrl: string, review: string)
    requires from == READY || from == CHANGES_REQUESTED
    ensures var l := [Logged(start + 1, taskId, from, IN_PROGRESS, "Pipeline started")]
        + [Logged(start + 2, taskId, IN_PROGRESS, PR_OPENED, "Code generated"),
           Logged(start + 3, taskId, PR_OPENED, REVIEWING, "PR created: " + prUrl)]
        + ReviewLog(start + 3, taskId, approved, review);
      && |l| == |ProcessStatuses(approved)|
      && l[0].fromStatus == from
      && (forall i :: 0 < i < |l| ==> l[i].fromStatus == l[i - 1].toStatus)
      && (forall i :: 0 <= i < |l| ==>
            && l[i].toStatus == ProcessStatuses(approved)[i]
            && TaskStateMachine.CanTransition(l[i].fromStatus, l[i].toStatus)
            && l[i].id == start + i + 1 && l[i].taskId == taskId)
      && (!approved ==> l[|l| - 1].reason == Text.Take16(review, 500))
  {
    var s := ProcessStatuses(approved);
    if approved {
      assert s == [IN_PROGRESS, PR_OPENED, REVIEWING, APPROVED, MERGED, TESTING, TEST_PASSED, DEPLOYED];
    } else {
      assert s == [IN_PROGRESS, PR_OPENED, REVIEWING, CHANGES_REQUESTED];
    }
  }

  lemma UpdateTwice<T>(s: seq<T>, k: nat, a: T, b: T)
    requires k < |s|
    ensures s[k := a][k := b] == s[k := b]
  {
  }

  /** A `transitionTask` call at a point where the move is allowed, so it
   *  cannot throw: the status changes, one history row is appended, and the
   *  task is read back. */
  method Advance(store: Store, taskId: Id, to: TaskStatus, reason: string) returns (r: DevTask)
    requires store.Valid() && store.HasTask(taskId)
    requires TaskStateMachine.CanTransition(store.tasks[taskId - 1].status, to)
    modifies store
    ensures store.Valid()
    ensures store.tasks == old(store.tasks)[taskId - 1 := old(store.tasks[taskId - 1]).(status := to)]
    ensures store.transitions == old(store.transitions)
      + [TaskTransition(|old(store.transitions)| + 1, taskId, old(store.tasks[taskId - 1].status), to, reason, "system")]
    ensures r == store.ReadTask(taskId - 1)
    ensures store.projects == old(store.projects) && store.epics == old(store.epics) && store.features == old(store.features)
    ensures store.dependencies == old(store.dependencies) && store.outputs == old(store.outputs)
  {
    var res := store.TransitionTask(taskId, to, reason, "system");
    r := res.value;
  }

  /** Lines 107-113: why `processTask` stops before changing anything, if
   *  it does: a missing task, or a task whose status cannot move to
   *  IN_PROGRESS. */
  function StartError(tasks: seq<DevTask>, taskId: Id): (r: Option<StoreError>)
    ensures r.None? <==> 1 <= taskId <= |tasks| && TaskStateMachine.CanTransition(tasks[taskId - 1].status, IN_PROGRESS)
  {
    if !(1 <= taskId <= |tasks|) then Some(TaskNotFound(taskId))
    else if !TaskStateMachine.CanTransition(tasks[taskId - 1].status, IN_PROGRESS) then
      Some(IllegalState(TaskStateMachine.RejectionMessage(tasks[taskId - 1].status, IN_PROGRESS)))
    else None
  }

  /** The task and history rows after `processTask` started row taskId - 1
   *  of tasks0: one history row, and the task IN_PROGRESS on its branch,
   *  assigned to the code writer. */
  ghost predicate Started(tasks0: seq<DevTask>, log0: seq<TaskTransition>, taskId: int, title: string,
                          tasks: seq<DevTask>, log: seq<TaskTransition>)
  {
    && 1 <= taskId <= |tasks0|
    && log == log0 + [Logged(|log0| + 1, taskId, tasks0[taskId - 1].status, IN_PROGRESS, "Pipeline started")]
    && tasks == tasks0[taskId - 1 := tasks0[taskId - 1].(
         status := IN_PROGRESS, branchName := BranchName(taskId, title), assignedAgent := "CODE_WRITER")]
  }

  /** Lines 107-115: read the task, move it to IN_PROGRESS, record the
   *  branch and the code writer. Returns the task as read before. */
  method StartTask(store: Store, taskId: Id) returns (r: Result<DevTask, StoreError>)
    requires store.Valid()
    modifies store
    ensures store.Valid()
    ensures r.Err? <==> StartError(old(store.tasks), taskId).Some?
    ensures r.Err? ==> r.error == StartError(old(store.tasks), taskId).value
                       && store.tasks == old(store.tasks) && store.transitions == old(store.transitions)
    ensures r.Ok? ==>
      && old(store.HasTask(taskId))
      && r.value == old(store.ReadTask(taskId - 1))
      && Started(old(store.tasks), old(store.transitions), taskId, r.value.title, store.tasks, store.transitions)
    ensures store.outputs == old(store.outputs) && store.dependencies == old(store.dependencies)
    ensures store.projects == old(store.projects) && store.epics == old(store.epics) && store.features == old(store.features)
  {
    var found := store.GetTask(taskId);
    if found.None? {
      return Err(TaskNotFound(taskId));
    }
    var task := found.value;
    var started := store.TransitionTask(taskId, IN_PROGRESS, "Pipeline started", "system");
    if started.Err? {
      return Err(started.error);
    }
    var branch := BranchName(task.id, task.title);
    var _ := store.UpdateTask(taskId, Some(branch), None, Some("CODE_WRITER"));
    return Ok(task);
  }

  /** Lines 123-141: create the branch (failures swallowed), generate the
   *  code and save it as the task's CODE_GENERATION output. */
  method GenerateCode(store: Store, task: DevTask, process: PipelineCall -> string, github: GitRequest -> GitReply)
    returns (code: string)
    requires store.Valid() && store.HasTask(task.id)
    modifies store
    ensures store.Valid()
    ensures code == process(CodeCall(task))
    ensures store.outputs == old(store.outputs)
      + [TaskOutput(|old(store.outputs)| + 1, task.id, "CODE_GENERATION", code, "CODE_WRITER")]
    ensures store.tasks == old(store.tasks) && store.transitions == old(store.transitions)
    ensures store.dependencies == old(store.dependencies)
    ensures store.projects == old(store.projects) && store.epics == old(store.epics) && store.features == old(store.features)
  {
    var _ := github(CreateBranch(BranchName(task.id, task.title)));
    code := process(CodeCall(task));
    var _ := store.SaveTaskOutput(task.id, "CODE_GENERATION", code, "CODE_WRITER");
  }

  /** The task row after the pull request step: the url is recorded only
   *  when the tool call succeeded. */
  function WithPr(row: DevTask, reply: GitReply): DevTask {
    if PrSucceeded(reply) then row.(prUrl := PrUrl(reply)) else row
  }

  /** Lines 143-161: move to PR_OPENED, open the pull request (failures
   *  swallowed) and record its url when the call succeeds. */
  method OpenPr(store: Store, task: DevTask, code: string, github: GitRequest -> GitReply)
    returns (prUrl: string)
    requires store.Valid() && store.HasTask(task.id) && store.tasks[task.id - 1].status == IN_PROGRESS
    modifies store
    ensures store.Valid()
    ensures prUrl == PrUrl(github(CreatePr(task, code)))
    ensures store.transitions == old(store.transitions)
      + [TaskTransition(|old(store.transitions)| + 1, task.id, IN_PROGRESS, PR_OPENED, "Code generated", "system")]
    ensures store.tasks == old(store.tasks)[task.id - 1 :=
      WithPr(old(store.tasks[task.id - 1]).(status := PR_OPENED), github(CreatePr(task, code)))]
    ensures store.outputs == old(store.outputs) && store.dependencies == old(store.dependencies)
    ensures store.projects == old(store.projects) && store.epics == old(store.epics) && store.features == old(store.features)
  {
    var taskId := task.id;
    ghost var t0 := store.tasks;
    ghost var openedRow := t0[taskId - 1].(status := PR_OPENED);
    var _ := Advance(store, taskId, PR_OPENED, "Code generated");
    prUrl := "";
    var pr := github(CreatePr(task, code));
    if pr.Replied? && pr.result.Success? {
      prUrl := pr.result.data.GetOr("");
      var _ := store.UpdateTask(taskId, None, Some(prUrl), None);
      UpdateTwice(t0, taskId - 1, openedRow, openedRow.(prUrl := prUrl));
    }
  }

  /** Lines 180-181: REVIEWING to APPROVED to MERGED. */
  method Merge(store: Store, taskId: Id)
    requires store.Valid() && store.HasTask(taskId) && store.tasks[taskId - 1].status == REVIEWING
    modifies store
    ensures store.Valid()
    ensures store.tasks == old(store.tasks)[taskId - 1 := old(store.tasks[taskId - 1]).(status := MERGED)]
    ensures store.transitions == old(store.transitions)
      + [Logged(|old(store.transitions)| + 1, taskId, REVIEWING, APPROVED, "Review passed"),
         Logged(|old(store.transitions)| + 2, taskId, APPROVED, MERGED, "Auto-merged")]
    ensures store.projects == old(store.projects) && store.epics == old(store.epics) && store.features == old(store.features)
    ensures store.dependencies == old(store.dependencies) && store.outputs == old(store.outputs)
  {
    ghost var t0, row := store.tasks, store.tasks[taskId - 1];
    var _ := Advance(store, taskId, APPROVED, "Review passed");
    var _ := Advance(store, taskId, MERGED, "Auto-merged");
    UpdateTwice(t0, taskId - 1, row.(status := APPROVED), row.(status := MERGED));
  }

  /** Lines 182-186: MERGED to TESTING to TEST_PASSED to DEPLOYED. */
  method Ship(store: Store, taskId: Id) returns (r: DevTask)
    requires store.Valid() && store.HasTask(taskId) && store.tasks[taskId - 1].status == MERGED
    modifies store
    ensures store.Valid()
    ensures store.tasks == old(store.tasks)[taskId - 1 := old(store.tasks[taskId - 1]).(status := DEPLOYED)]
    ensures store.transitions == old(store.transitions)
      + [Logged(|old(store.transitions)| + 1, taskId, MERGED, TESTING, "Running tests"),
         Logged(|old(store.transitions)| + 2, taskId, TESTING, TEST_PASSED, "Tests passed"),
         Logged(|old(store.transitions)| + 3, taskId, TEST_PASSED, DEPLOYED, "Deployed")]
    ensures r == store.ReadTask(taskId - 1)
    ensures store.projects == old(store.projects) && store.epics == old(store.epics) && store.features == old(store.features)
    ensures store.dependencies == old(store.dependencies) && store.outputs == old(store.outputs)
  {
    ghost var t0, row := store.tasks, store.tasks[taskId - 1];
    var _ := Advance(store, taskId, TESTING, "Running tests");
    var _ := Advance(store, taskId, TEST_PASSED, "Tests passed");
    UpdateTwice(t0, taskId - 1, row.(status := TESTING), row.(status := TEST_PASSED));
    r := Advance(store, taskId, DEPLOYED, "Deployed");
    UpdateTwice(t0, taskId - 1, row.(status := TEST_PASSED), row.(status := DEPLOYED));
  }

  /** Lines 180-186: the approve chain from REVIEWING to DEPLOYED. */
  method Deploy(store: Store, taskId: Id) returns (r: DevTask)
    requires store.Valid() && store.HasTask(taskId) && store.tasks[taskId - 1].status == REVIEWING
    modifies store
    ensures store.Valid()
    ensures store.tasks == old(store.tasks)[taskId - 1 := old(store.tasks[taskId - 1]).(status := DEPLOYED)]
    ensures store.transitions == old(store.transitions) + ReviewLog(|old(store.transitions)|, taskId, true, "")
    ensures r == store.ReadTask(taskId - 1)
    ensures store.projects == old(store.projects) && store.epics == old(store.epics) && store.features == old(store.features)
    ensures store.dependencies == old(store.dependencies) && store.outputs == old(store.outputs)
  {
    ghost var t0, row, log0 := store.tasks, store.tasks[taskId - 1], store.transitions;
    Merge(store, taskId);
    ghost var log1 := store.transitions;
    r := Ship(store, taskId);
    UpdateTwice(t0, taskId - 1, row.(status := MERGED), row.(status := DEPLOYED));
    assert log1 + [Logged(|log1| + 1, taskId, MERGED, TESTING, "Running tests"),
                   Logged(|log1| + 2, taskId, TESTING, TEST_PASSED, "Tests passed"),
                   Logged(|log1| + 3, taskId, TEST_PASSED, DEPLOYED, "Deployed")]
        == log0 + ReviewLog(|log0|, taskId, true, "");
  }

  /** Lines 165-205: review the code and save the review, then either walk
   *  the approve chain to DEPLOYED or request changes. */
  method Conclude(store: Store, task: DevTask, code: string, process: PipelineCall -> string)
    returns (r: Result<DevTask, StoreError>)
    requires store.Valid() && store.HasTask(task.id) && store.tasks[task.id - 1].status == REVIEWING
    modifies store
    ensures store.Valid() && |store.tasks| == old(|store.tasks|)
    ensures r.Ok? && r.value == store.ReadTask(task.id - 1)
    ensures
      var review := process(ReviewCall(task, code));
      var approved := IsApproved(review);
      && store.transitions == old(store.transitions) + ReviewLog(|old(store.transitions)|, task.id, approved, review)
      && store.outputs == old(store.outputs) + [TaskOutput(|old(store.outputs)| + 1, task.id, "REVIEW", review, "REVIEWER")]
      && store.tasks == old(store.tasks)[task.id - 1 := old(store.tasks[task.id - 1]).(
           status := if approved then DEPLOYED else CHANGES_REQUESTED)]
    ensures store.dependencies == old(store.dependencies)
    ensures store.projects == old(store.projects) && store.epics == old(store.epics) && store.features == old(store.features)
  {
    var taskId := task.id;
    var review := process(ReviewCall(task, code));
    var _ := store.SaveTaskOutput(taskId, "REVIEW", review, "REVIEWER");
    ghost var log0 := store.transitions;
    if IsApproved(review) {
      var deployed := Deploy(store, taskId);
      r := Ok(deployed);
    } else {
      var changes := Advance(store, taskId, CHANGES_REQUESTED, Text.Take16(review, 500));
      r := Ok(changes);
    }
  }

  /** Lines 117-163, for a task already IN_PROGRESS: generate the code,
   *  open the pull request and move to REVIEWING. */
  method Prepare(store: Store, task: DevTask, process: PipelineCall -> string, github: GitRequest -> GitReply)
    returns (code: string)
    requires store.Valid() && store.HasTask(task.id) && store.tasks[task.id - 1].status == IN_PROGRESS
    modifies store
    ensures store.Valid()
    ensures code == process(CodeCall(task))
    ensures
      var pr := github(CreatePr(task, code));
      var n := |old(store.transitions)|;
      && store.transitions == old(store.transitions)
           + [Logged(n + 1, task.id, IN_PROGRESS, PR_OPENED, "Code generated"),
              Logged(n + 2, task.id, PR_OPENED, REVIEWING, "PR created: " + PrUrl(pr))]
      && store.outputs == old(store.outputs)
           + [TaskOutput(|old(store.outputs)| + 1, task.id, "CODE_GENERATION", code, "CODE_WRITER")]
      && store.tasks == old(store.tasks)[task.id - 1 := WithPr(old(store.tasks[task.id - 1]), pr).(status := REVIEWING)]
    ensures store.projects == old(store.projects) && store.epics == old(store.epics)
    ensures store.features == old(store.features) && store.dependencies == old(store.dependencies)
  {
    var taskId := task.id;
    ghost var t1 := store.tasks;
    code := GenerateCode(store, task, process, github);
    var prUrl := OpenPr(store, task, code, github);
    ghost var prRow := WithPr(t1[taskId - 1].(status := PR_OPENED), github(CreatePr(task, code)));
    var _ := Advance(store, taskId, REVIEWING, "PR created: " + prUrl);
    UpdateTwice(t1, taskId - 1, prRow, prRow.(status := REVIEWING));
  }

  /** Lines 117-205, for a task already IN_PROGRESS: prepare the pull
   *  request and conclude the review. */
  method Deliver(store: Store, task: DevTask, process: PipelineCall -> string, github: GitRequest -> GitReply)
    returns (r: Result<DevTask, StoreError>)
    requires store.Valid() && store.HasTask(task.id) && store.tasks[task.id - 1].status == IN_PROGRESS
    modifies store
    ensures store.Valid()
    ensures
      var code := process(CodeCall(task));
      var pr := github(CreatePr(task, code));
      var review := process(ReviewCall(task, code));
      var approved := IsApproved(review);
      var n := |old(store.transitions)|;
      var row := old(store.tasks[task.id - 1]);
      && store.transitions == old(store.transitions)
           + [Logged(n + 1, task.id, IN_PROGRESS, PR_OPENED, "Code generated"),
              Logged(n + 2, task.id, PR_OPENED, REVIEWING, "PR created: " + PrUrl(pr))]
           + ReviewLog(n + 2, task.id, approved, review)
      && store.outputs == old(store.outputs)
           + [TaskOutput(|old(store.outputs)| + 1, task.id, "CODE_GENERATION", code, "CODE_WRITER"),
              TaskOutput(|old(store.outputs)| + 2, task.id, "REVIEW", review, "REVIEWER")]
      && store.tasks == old(store.tasks)[task.id - 1 := WithPr(row, pr).(
           status := if approved then DEPLOYED else CHANGES_REQUESTED)]
      && r.Ok? && r.value == store.ReadTask(task.id - 1)
    ensures store.projects == old(store.projects) && store.epics == old(store.epics)
    ensures store.features == old(store.features) && store.dependencies == old(store.dependencies)
  {
    ghost var t1, row := store.tasks, store.tasks[task.id - 1];
    var code := Prepare(store, task, process, github);
    ghost var prRow := WithPr(row, github(CreatePr(task, code)));
    r := Conclude(store, task, code, process);
    ghost var review := process(ReviewCall(task, code));
    UpdateTwice(t1, task.id - 1, prRow.(status := REVIEWING),
      prRow.(status := if IsApproved(review) then DEPLOYED else CHANGES_REQUESTED));
  }

  /** The rows after `processTask` ran the task t, row taskId - 1 of tasks0,
   *  to its end: four or five history rows (start, code generated, pull
   *  request, then the review's outcome), two outputs (the code and the
   *  review) and the task's row with its final status, branch, agent and,
   *  when the pull request call succeeded, its url. */
  ghost predicate Processed(tasks0: seq<DevTask>, log0: seq<TaskTransition>, out0: seq<TaskOutput>,
                            taskId: Id, t: DevTask, process: PipelineCall -> string, github: GitRequest -> GitReply,
                            tasks: seq<DevTask>, log: seq<TaskTransition>, out: seq<TaskOutput>)
    requires 1 <= taskId <= |tasks0|
  {
    var code := process(CodeCall(t));
    var pr := github(CreatePr(t, code));
    var review := process(ReviewCall(t, code));
    var approved := IsApproved(review);
    var row := tasks0[taskId - 1];
    && log == log0
         + [Logged(|log0| + 1, taskId, row.status, IN_PROGRESS, "Pipeline started")]
         + [Logged(|log0| + 2, taskId, IN_PROGRESS, PR_OPENED, "Code generated"),
            Logged(|log0| + 3, taskId, PR_OPENED, REVIEWING, "PR created: " + PrUrl(pr))]
         + ReviewLog(|log0| + 3, taskId, approved, review)
    && out == out0
         + [TaskOutput(|out0| + 1, taskId, "CODE_GENERATION", code, "CODE_WRITER"),
            TaskOutput(|out0| + 2, taskId, "REVIEW", review, "REVIEWER")]
    && tasks == tasks0[taskId - 1 := row.(
         status := if approved then DEPLOYED else CHANGES_REQUESTED,
         branchName := BranchName(taskId, t.title),
         assignedAgent := "CODE_WRITER",
         prUrl := if PrSucceeded(pr) then PrUrl(pr) else row.prUrl)]
  }

  /** `processTask`: start, open the pull request, conclude the review. A
   *  missing task, or one not ready to start, throws before anything
   *  changes; tool and output-saving failures are swallowed. */
  method ProcessTask(store: Store, taskId: Id, process: PipelineCall -> string, github: GitRequest -> GitReply)
    returns (r: Result<DevTask, StoreError>)
    requires store.Valid()
    modifies store
    ensures store.Valid()
    ensures r.Err? <==> StartError(old(store.tasks), taskId).Some?
    ensures r.Err? ==> r.error == StartError(old(store.tasks), taskId).value
                       && store.tasks == old(store.tasks) && store.transitions == old(store.transitions)
                       && store.outputs == old(store.outputs)
    ensures r.Ok? ==>
      && old(store.HasTask(taskId))
      && Processed(old(store.tasks), old(store.transitions), old(store.outputs), taskId, old(store.ReadTask(taskId - 1)),
                   process, github, store.tasks, store.transitions, store.outputs)
      && r.value == store.ReadTask(taskId - 1)
    ensures store.projects == old(store.projects) && store.epics == old(store.epics)
    ensures store.features == old(store.features) && store.dependencies == old(store.dependencies)
  {
    ghost var tasks0, log0, out0 := store.tasks, store.transitions, store.outputs;
    var started := StartTask(store, taskId);
    if started.Err? {
      return Err(started.error);
    }
    r := DeliverStarted(store, taskId, started.value, process, github, tasks0, log0, out0);
  }

  /** Lines 117-205 after `processTask` has started the task: the rows
   *  stated against those before the start. */
  method DeliverStarted(store: Store, taskId: Id, task: DevTask, process: PipelineCall -> string, github: GitRequest -> GitReply,
                        ghost tasks0: seq<DevTask>, ghost log0: seq<TaskTransition>, ghost out0: seq<TaskOutput>)
    returns (r: Result<DevTask, StoreError>)
    requires store.Valid() && 1 <= taskId <= |tasks0| && task.id == taskId
    requires Started(tasks0, log0, taskId, task.title, store.tasks, store.transitions)
    requires store.outputs == out0
    modifies store
    ensures store.Valid()
    ensures Processed(tasks0, log0, out0, taskId, task, process, github, store.tasks, store.transitions, store.outputs)
    ensures r.Ok? && r.value == store.ReadTask(taskId - 1)
    ensures store.projects == old(store.projects) && store.epics == old(store.epics)
    ensures store.features == old(store.features) && store.dependencies == old(store.dependencies)
  {
    ghost var tasks1, log1 := store.tasks, store.transitions;
    ghost var code := process(CodeCall(task));
    ghost var pr := github(CreatePr(task, code));
    ghost var review := process(ReviewCall(task, code));
    r := Deliver(store, task, process, github);
    ProcessJoin(tasks0, log0, out0, tasks1, log1, store.tasks, store.transitions, store.outputs,
      task, process, github, code, pr, review);
  }

  /** The rows after `processTask` joined from the start step and the
   *  delivery step. */
  lemma ProcessJoin(tasks0: seq<DevTask>, log0: seq<TaskTransition>, out0: seq<TaskOutput>,
                    tasks1: seq<DevTask>, log1: seq<TaskTransition>,
                    tasks2: seq<DevTask>, log2: seq<TaskTransition>, out2: seq<TaskOutput>,
                    task: DevTask, process: PipelineCall -> string, github: GitRequest -> GitReply,
                    code: string, pr: GitReply, review: string)
    requires 1 <= task.id <= |tasks0|
    requires code == process(CodeCall(task)) && pr == github(CreatePr(task, code)) && review == process(ReviewCall(task, code))
    requires log1 == log0 + [Logged(|log0| + 1, task.id, tasks0[task.id - 1].status, IN_PROGRESS, "Pipeline started")]
    requires tasks1 == tasks0[task.id - 1 := tasks0[task.id - 1].(
      status := IN_PROGRESS, branchName := BranchName(task.id, task.title), assignedAgent := "CODE_WRITER")]
    requires log2 == log1
      + [Logged(|log1| + 1, task.id, IN_PROGRESS, PR_OPENED, "Code generated"),
         Logged(|log1| + 2, task.id, PR_OPENED, REVIEWING, "PR created: " + PrUrl(pr))]
      + ReviewLog(|log1| + 2, task.id, IsApproved(review), review)
    requires out2 == out0
      + [TaskOutput(|out0| + 1, task.id, "CODE_GENERATION", code, "CODE_WRITER"),
         TaskOutput(|out0| + 2, task.id, "REVIEW", review, "REVIEWER")]
    requires tasks2 == tasks1[task.id - 1 := WithPr(tasks1[task.id - 1], pr).(
      status := if IsApproved(review) then DEPLOYED else CHANGES_REQUESTED)]
    ensures Processed(tasks0, log0, out0, task.id, task, process, github, tasks2, log2, out2)
  {
    var k := task.id - 1;
    UpdateTwice(tasks0, k, tasks1[k], tasks2[k]);
  }

  // ---- batches ----

  /** Some task of ts has the given id. */
  predicate InIds(ts: seq<DevTask>, id: Id) {
    exists j :: 0 <= j < |ts| && ts[j].id == id
  }

  lemma InIdsStep(ts: seq<DevTask>, i: nat, id: Id)
    requires i < |ts|
    ensures InIds(ts[..i + 1], id) <==> InIds(ts[..i], id) || ts[i].id == id
  {
    if InIds(ts[..i + 1], id) {
      var j :| 0 <= j < i + 1 && ts[..i + 1][j].id == id;
      if j < i {
        assert ts[..i][j].id == id;
      }
    }
    if InIds(ts[..i], id) {
      var j :| 0 <= j < i && ts[..i][j].id == id;
      assert ts[..i + 1][j].id == id;
    }
    if ts[i].id == id {
      assert ts[..i + 1][i].id == id;
    }
  }

  /** The history rows of one bulk move of the tasks ts, after row number
   *  start. */
  function BulkLog(start: nat, ts: seq<DevTask>, from: TaskStatus, to: TaskStatus, reason: string): (r: seq<TaskTransition>)
    ensures |r| == |ts|
    ensures forall i :: 0 <= i < |ts| ==> r[i] == Logged(start + i + 1, ts[i].id, from, to, reason)
  {
    seq(|ts|, i requires 0 <= i < |ts| => Logged(start + i + 1, ts[i].id, from, to, reason))
  }

  lemma BulkLogStep(start: nat, ts: seq<DevTask>, i: nat, from: TaskStatus, to: TaskStatus, reason: string)
    requires i < |ts|
    ensures BulkLog(start, ts[..i + 1], from, to, reason)
      == BulkLog(start, ts[..i], from, to, reason) + [Logged(start + i + 1, ts[i].id, from, to, reason)]
  {
    var a := BulkLog(start, ts[..i + 1], from, to, reason);
    var b := BulkLog(start, ts[..i], from, to, reason) + [Logged(start + i + 1, ts[i].id, from, to, reason)];
    forall j | 0 <= j < |a| ensures a[j] == b[j] {
      if j < i {
        assert ts[..i + 1][j] == ts[..i][j];
      }
    }
  }

  /** tasks is tasks0 with exactly the tasks of moved put in status to. */
  predicate MovedBy(tasks: seq<DevTask>, tasks0: seq<DevTask>, moved: seq<DevTask>, to: TaskStatus) {
    |tasks| == |tasks0|
    && forall k :: 0 <= k < |tasks| ==>
         tasks[k] == if InIds(moved, k + 1) then tasks0[k].(status := to) else tasks0[k]
  }

  /** Every task of ts is the read of its row in tasks0 under deps, and that
   *  row is in status from. */
  predicate AllReadIn(tasks0: seq<DevTask>, deps: seq<Edge>, ts: seq<DevTask>, from: TaskStatus) {
    forall j :: 0 <= j < |ts| ==>
      1 <= ts[j].id <= |tasks0| && ts[j] == tasks0[ts[j].id - 1].(dependsOn := Targets(deps, ts[j].id))
      && tasks0[ts[j].id - 1].status == from
  }

  /** The tables a bulk move leaves alone. */
  datatype Untouched = Untouched(projects: seq<Project>, epics: seq<Epic>, features: seq<Feature>,
                                 dependencies: seq<Edge>, outputs: seq<TaskOutput>)

  function UntouchedOf(store: Store): Untouched
    reads store
  {
    Untouched(store.projects, store.epics, store.features, store.dependencies, store.outputs)
  }

  /** The tasks ts, each in status to. */
  function Advanced(ts: seq<DevTask>, to: TaskStatus): (r: seq<DevTask>)
    ensures |r| == |ts| && forall i :: 0 <= i < |ts| ==> r[i] == ts[i].(status := to)
  {
    seq(|ts|, i requires 0 <= i < |ts| => ts[i].(status := to))
  }

  lemma AdvancedStep(ts: seq<DevTask>, i: nat, to: TaskStatus)
    requires i < |ts|
    ensures Advanced(ts[..i + 1], to) == Advanced(ts[..i], to) + [ts[i].(status := to)]
  {
    var a, b := Advanced(ts[..i + 1], to), Advanced(ts[..i], to) + [ts[i].(status := to)];
    forall j | 0 <= j < |a| ensures a[j] == b[j] {
      if j < i {
        assert ts[..i + 1][j] == ts[..i][j];
      }
    }
  }

  /** The store after the first i tasks of a bulk move that started from the
   *  rows tasks0, the history log0 and the other tables u. */
  ghost predicate BulkState(store: Store, ts: seq<DevTask>, i: nat, from: TaskStatus, to: TaskStatus, reason: string,
                            tasks0: seq<DevTask>, log0: seq<TaskTransition>, u: Untouched)
    reads store
    requires i <= |ts|
  {
    && store.Valid() && MovedBy(store.tasks, tasks0, ts[..i], to)
    && store.transitions == log0 + BulkLog(|log0|, ts[..i], from, to, reason)
    && UntouchedOf(store) == u
  }

  /** Moves the tasks ts, read from the store in ascending id order and all
   *  in status from, to status to; each move is allowed, so none of them
   *  throws. Returns the tasks as read after their move. */
  method BulkAdvance(store: Store, ts: seq<DevTask>, from: TaskStatus, to: TaskStatus, reason: string)
    returns (r: seq<DevTask>)
    requires store.Valid() && TaskStateMachine.CanTransition(from, to) && IncreasingIds(ts)
    requires forall i :: 0 <= i < |ts| ==> store.IsRead(ts[i]) && store.tasks[ts[i].id - 1].status == from
    modifies store
    ensures store.Valid() && |store.tasks| == old(|store.tasks|)
    ensures forall k :: 0 <= k < |store.tasks| ==>
      store.tasks[k] == if InIds(ts, k + 1) then old(store.tasks[k]).(status := to) else old(store.tasks[k])
    ensures store.transitions == old(store.transitions) + BulkLog(|old(store.transitions)|, ts, from, to, reason)
    ensures |r| == |ts| && forall i :: 0 <= i < |ts| ==> r[i] == ts[i].(status := to)
    ensures store.projects == old(store.projects) && store.epics == old(store.epics) && store.features == old(store.features)
    ensures store.dependencies == old(store.dependencies) && store.outputs == old(store.outputs)
  {
    ghost var tasks0, log0, u := store.tasks, store.transitions, UntouchedOf(store);
    assert AllReadIn(tasks0, store.dependencies, ts, from);
    assert MovedBy(store.tasks, tasks0, ts[..0], to);
    r := [];
    var i := 0;
    while i < |ts|
      invariant i <= |ts| && BulkState(store, ts, i, from, to, reason, tasks0, log0, u)
      invariant r == Advanced(ts[..i], to)
    {
      var moved := BulkAdvanceAt(store, ts, i, from, to, reason, tasks0, log0, u);
      AdvancedStep(ts, i, to);
      r := r + [moved];
      i := i + 1;
    }
    assert ts[..i] == ts;
  }

  /** Task i of a bulk move whose earlier tasks have moved. */
  method BulkAdvanceAt(store: Store, ts: seq<DevTask>, i: nat, from: TaskStatus, to: TaskStatus, reason: string,
                       ghost tasks0: seq<DevTask>, ghost log0: seq<TaskTransition>, ghost u: Untouched)
    returns (r: DevTask)
    requires TaskStateMachine.CanTransition(from, to) && IncreasingIds(ts)
    requires i < |ts| && AllReadIn(tasks0, u.dependencies, ts, from)
    requires BulkState(store, ts, i, from, to, reason, tasks0, log0, u)
    modifies store
    ensures BulkState(store, ts, i + 1, from, to, reason, tasks0, log0, u)
    ensures r == ts[i].(status := to)
  {
    NotYetMoved(ts, i);
    ghost var before := store.tasks;
    r := AdvanceRead(store, ts[i], to, reason);
    BulkTasksStep(tasks0, before, ts, i, to);
    BulkLogStep(|log0|, ts, i, from, to, reason);
  }

  /** Ids increase, so task i is not among the tasks before it. */
  lemma NotYetMoved(ts: seq<DevTask>, i: nat)
    requires i < |ts| && IncreasingIds(ts)
    ensures !InIds(ts[..i], ts[i].id)
  {
    forall j | 0 <= j < i ensures ts[..i][j].id != ts[i].id {
      assert ts[..i][j] == ts[j];
    }
  }

  /** `transitionTask` on a task read from the store, where the move is
   *  allowed: returns the same task in its new status. */
  method AdvanceRead(store: Store, t: DevTask, to: TaskStatus, reason: string) returns (r: DevTask)
    requires store.Valid() && 1 <= t.id <= |store.tasks|
    requires t == store.tasks[t.id - 1].(dependsOn := Targets(store.dependencies, t.id))
    requires TaskStateMachine.CanTransition(store.tasks[t.id - 1].status, to)
    modifies store
    ensures store.Valid()
    ensures store.tasks == old(store.tasks)[t.id - 1 := old(store.tasks[t.id - 1]).(status := to)]
    ensures store.transitions == old(store.transitions)
      + [Logged(|old(store.transitions)| + 1, t.id, old(store.tasks[t.id - 1].status), to, reason)]
    ensures r == t.(status := to)
    ensures store.projects == old(store.projects) && store.epics == old(store.epics) && store.features == old(store.features)
    ensures store.dependencies == old(store.dependencies) && store.outputs == old(store.outputs)
  {
    r := Advance(store, t.id, to, reason);
  }

  lemma BulkTasksStep(tasks0: seq<DevTask>, before: seq<DevTask>, ts: seq<DevTask>, i: nat, to: TaskStatus)
    requires i < |ts| && 1 <= ts[i].id <= |tasks0|
    requires !InIds(ts[..i], ts[i].id) && MovedBy(before, tasks0, ts[..i], to)
    ensures MovedBy(before[ts[i].id - 1 := before[ts[i].id - 1].(status := to)], tasks0, ts[..i + 1], to)
  {
    var after := before[ts[i].id - 1 := before[ts[i].id - 1].(status := to)];
    forall k | 0 <= k < |after|
      ensures after[k] == if InIds(ts[..i + 1], k + 1) then tasks0[k].(status := to) else tasks0[k]
    {
      InIdsStep(ts, i, k + 1);
    }
  }

  /** The tasks `getTasksByProject` returns for a status are exactly the
   *  project's tasks in that status. */
  lemma ProjectIds(store: Store, projectId: Id, status: TaskStatus)
    requires TaskRows(store.tasks)
    ensures var ts := store.GetTasksByProject(projectId, Some(status));
      && IncreasingIds(ts)
      && (forall i :: 0 <= i < |ts| ==> store.IsRead(ts[i]) && store.tasks[ts[i].id - 1].status == status)
      && forall k :: 0 <= k < |store.tasks| ==>
           (InIds(ts, k + 1) <==> store.InProject(k, projectId) && store.tasks[k].status == status)
  {
    var ts := store.GetTasksByProject(projectId, Some(status));
    store.TasksByProjectRows(projectId, Some(status));
    forall k | 0 <= k < |store.tasks| && store.InProject(k, projectId) && store.tasks[k].status == status
      ensures InIds(ts, k + 1)
    {
      assert store.StatusMatches(k, Some(status));
      var j :| 0 <= j < |ts| && ts[j] == store.ReadTask(k);
      assert ts[j].id == k + 1;
    }
  }

  /** `transitionCreatedToPlanned`: every CREATED task of the project moves
   *  to PLANNED, in id order, and nothing else changes. The moves cannot
   *  throw, so the swallowed exceptions never arise. */
  method TransitionCreatedToPlanned(store: Store, projectId: Id)
    requires store.Valid()
    modifies store
    ensures store.Valid() && |store.tasks| == old(|store.tasks|)
    ensures forall k :: 0 <= k < |store.tasks| ==>
      store.tasks[k] == if old(store.InProject(k, projectId) && store.tasks[k].status == CREATED)
                        then old(store.tasks[k]).(status := PLANNED) else old(store.tasks[k])
    ensures store.transitions == old(store.transitions)
      + BulkLog(|old(store.transitions)|, old(store.GetTasksByProject(projectId, Some(CREATED))), CREATED, PLANNED, "Auto-planned by pipeline")
    ensures store.projects == old(store.projects) && store.epics == old(store.epics) && store.features == old(store.features)
    ensures store.dependencies == old(store.dependencies) && store.outputs == old(store.outputs)
  {
    var created := store.GetTasksByProject(projectId, Some(CREATED));
    ProjectIds(store, projectId, CREATED);
    var _ := BulkAdvance(store, created, CREATED, PLANNED, "Auto-planned by pipeline");
  }

  /** A status `processTask` leaves a task in. */
  predicate Concluded(s: TaskStatus) {
    s == DEPLOYED || s == CHANGES_REQUESTED
  }

  /** t is row t.id of tasks read back with its dependencies, with status s. */
  predicate ReadAs(t: DevTask, tasks: seq<DevTask>, deps: seq<Edge>, s: TaskStatus) {
    1 <= t.id <= |tasks| && t == tasks[t.id - 1].(dependsOn := Targets(deps, t.id), status := s)
  }

  /** Each task of ts has a row in tasks that a review concluded: DEPLOYED
   *  exactly when the task's review approves, CHANGES_REQUESTED otherwise. */
  predicate ReviewedRows(tasks: seq<DevTask>, ts: seq<DevTask>, process: PipelineCall -> string) {
    forall i :: 0 <= i < |ts| ==>
      && 1 <= ts[i].id <= |tasks| && Concluded(tasks[ts[i].id - 1].status)
      && (tasks[ts[i].id - 1].status == DEPLOYED <==> IsApproved(ReviewOf(ts[i], process)))
  }

  /** The review `processTask` obtains for a task read from the store. */
  function ReviewOf(t: DevTask, process: PipelineCall -> string): string {
    process(ReviewCall(t, process(CodeCall(t))))
  }

  /** The row of task t once `processTask` is through with it: DEPLOYED
   *  exactly when the review approves, CHANGES_REQUESTED otherwise, with its
   *  branch, the code writer as agent and, when the pull request call
   *  succeeded, the pull request's url. */
  function Finished(row: DevTask, t: DevTask, process: PipelineCall -> string, github: GitRequest -> GitReply): (r: DevTask)
    ensures Concluded(r.status) && (r.status == DEPLOYED <==> IsApproved(ReviewOf(t, process)))
    ensures r.(status := row.status, branchName := row.branchName, assignedAgent := row.assignedAgent, prUrl := row.prUrl) == row
  {
    var pr := github(CreatePr(t, process(CodeCall(t))));
    row.(status := if IsApproved(ReviewOf(t, process)) then DEPLOYED else CHANGES_REQUESTED,
         branchName := BranchName(t.id, t.title),
         assignedAgent := "CODE_WRITER",
         prUrl := if PrSucceeded(pr) then PrUrl(pr) else row.prUrl)
  }

  /** Each task of ts has its row in fin finished from its row in rows. */
  predicate FinishedFrom(fin: seq<DevTask>, rows: seq<DevTask>, ts: seq<DevTask>,
                         process: PipelineCall -> string, github: GitRequest -> GitReply) {
    forall i :: 0 <= i < |ts| ==>
      1 <= ts[i].id <= |rows| && ts[i].id <= |fin| && fin[ts[i].id - 1] == Finished(rows[ts[i].id - 1], ts[i], process, github)
  }

  /** Finished rows are concluded by their reviews. */
  lemma FinishedAreReviewed(fin: seq<DevTask>, rows: seq<DevTask>, ts: seq<DevTask>,
                            process: PipelineCall -> string, github: GitRequest -> GitReply)
    requires FinishedFrom(fin, rows, ts, process, github)
    ensures ReviewedRows(fin, ts, process)
  {
  }

  /** The history rows `processTask` writes for task t after n rows. */
  function TaskLog(n: nat, t: DevTask, process: PipelineCall -> string, github: GitRequest -> GitReply): seq<TaskTransition> {
    var code := process(CodeCall(t));
    var review := ReviewOf(t, process);
    [Logged(n + 1, t.id, t.status, IN_PROGRESS, "Pipeline started")]
      + [Logged(n + 2, t.id, IN_PROGRESS, PR_OPENED, "Code generated"),
         Logged(n + 3, t.id, PR_OPENED, REVIEWING, "PR created: " + PrUrl(github(CreatePr(t, code))))]
      + ReviewLog(n + 3, t.id, IsApproved(review), review)
  }

  /** The outputs `processTask` saves for task t after m outputs. */
  function TaskOutputs(m: nat, t: DevTask, process: PipelineCall -> string): seq<TaskOutput> {
    [TaskOutput(m + 1, t.id, "CODE_GENERATION", process(CodeCall(t)), "CODE_WRITER"),
     TaskOutput(m + 2, t.id, "REVIEW", ReviewOf(t, process), "REVIEWER")]
  }

  /** The history log0 after the tasks of ts ran one after the other:
   *  each task's rows follow on from the rows before it. */
  function RanLog(log0: seq<TaskTransition>, ts: seq<DevTask>, process: PipelineCall -> string, github: GitRequest -> GitReply): seq<TaskTransition>
    decreases |ts|
  {
    if ts == [] then log0
    else
      var before := RanLog(log0, ts[..|ts| - 1], process, github);
      before + TaskLog(|before|, ts[|ts| - 1], process, github)
  }

  /** The outputs out0 after the tasks of ts ran one after the other. */
  function RanOutputs(out0: seq<TaskOutput>, ts: seq<DevTask>, process: PipelineCall -> string): seq<TaskOutput>
    decreases |ts|
  {
    if ts == [] then out0
    else
      var before := RanOutputs(out0, ts[..|ts| - 1], process);
      before + TaskOutputs(|before|, ts[|ts| - 1], process)
  }

  /** A task's history rows are numbered on from n and all name the task. */
  lemma TaskLogIds(n: nat, t: DevTask, process: PipelineCall -> string, github: GitRequest -> GitReply)
    requires t.status == READY
    ensures var l := TaskLog(n, t, process, github);
      forall j :: 0 <= j < |l| ==> l[j].id == n + j + 1 && l[j].taskId == t.id
  {
    ProcessLogIsChain(n, t.id, t.status, IsApproved(ReviewOf(t, process)),
                      PrUrl(github(CreatePr(t, process(CodeCall(t))))), ReviewOf(t, process));
  }

  /** Running a batch only appends to the history, and the appended rows
   *  continue its numbering without a gap. */
  lemma {:induction false} RanLogNumbered(log0: seq<TaskTransition>, ts: seq<DevTask>, process: PipelineCall -> string, github: GitRequest -> GitReply)
    requires forall i :: 0 <= i < |ts| ==> ts[i].status == READY
    ensures |log0| <= |RanLog(log0, ts, process, github)| && RanLog(log0, ts, process, github)[..|log0|] == log0
    ensures forall j :: |log0| <= j < |RanLog(log0, ts, process, github)| ==> RanLog(log0, ts, process, github)[j].id == j + 1
    decreases |ts|
  {
    if ts != [] {
      var front, t := ts[..|ts| - 1], ts[|ts| - 1];
      var fl := RanLog(log0, front, process, github);
      RanLogNumbered(log0, front, process, github);
      var tl := TaskLog(|fl|, t, process, github);
      TaskLogIds(|fl|, t, process, github);
      LogNumberedSnoc(log0, fl, tl);
    }
  }

  /** The step of RanLogNumbered: a numbered extension of log0 followed by
   *  rows numbered on from it is again one. */
  lemma LogNumberedSnoc(log0: seq<TaskTransition>, fl: seq<TaskTransition>, tl: seq<TaskTransition>)
    requires |log0| <= |fl| && fl[..|log0|] == log0
    requires forall j :: |log0| <= j < |fl| ==> fl[j].id == j + 1
    requires forall j :: 0 <= j < |tl| ==> tl[j].id == |fl| + j + 1
    ensures (fl + tl)[..|log0|] == log0
    ensures forall j :: |log0| <= j < |fl + tl| ==> (fl + tl)[j].id == j + 1
  {
    var l := fl + tl;
    assert l[..|log0|] == fl[..|log0|];
    forall j | |log0| <= j < |l| ensures l[j].id == j + 1 {
      if j >= |fl| {
        assert l[j] == tl[j - |fl|];
      }
    }
  }

  /** Each history row a batch appends names a task of the batch. */
  lemma {:induction false} RanLogTasks(log0: seq<TaskTransition>, ts: seq<DevTask>, process: PipelineCall -> string, github: GitRequest -> GitReply)
    requires forall i :: 0 <= i < |ts| ==> ts[i].status == READY
    ensures |log0| <= |RanLog(log0, ts, process, github)|
    ensures forall j :: |log0| <= j < |RanLog(log0, ts, process, github)| ==> InIds(ts, RanLog(log0, ts, process, github)[j].taskId)
    decreases |ts|
  {
    if ts != [] {
      var front, t := ts[..|ts| - 1], ts[|ts| - 1];
      var fl := RanLog(log0, front, process, github);
      RanLogTasks(log0, front, process, github);
      var tl := TaskLog(|fl|, t, process, github);
      TaskLogIds(|fl|, t, process, github);
      LogTasksSnoc(ts, |log0|, fl, tl);
    }
  }

  /** The step of RanLogTasks: rows naming the front's tasks, then rows
   *  naming the last task, all name tasks of the batch. */
  lemma LogTasksSnoc(ts: seq<DevTask>, n: nat, fl: seq<TaskTransition>, tl: seq<TaskTransition>)
    requires ts != [] && n <= |fl|
    requires forall j :: n <= j < |fl| ==> InIds(ts[..|ts| - 1], fl[j].taskId)
    requires forall j :: 0 <= j < |tl| ==> tl[j].taskId == ts[|ts| - 1].id
    ensures forall j :: n <= j < |fl + tl| ==> InIds(ts, (fl + tl)[j].taskId)
  {
    var l := fl + tl;
    forall j | n <= j < |l| ensures InIds(ts, l[j].taskId) {
      InIdsStep(ts, |ts| - 1, l[j].taskId);
      assert ts[..|ts|] == ts;
      if j >= |fl| {
        assert l[j] == tl[j - |fl|];
      }
    }
  }

  /** A batch appends two outputs per task, in batch order: the code, then
   *  the review, numbered on from the outputs before it. */
  lemma {:induction false} RanOutputsShape(out0: seq<TaskOutput>, ts: seq<DevTask>, process: PipelineCall -> string)
    ensures var o := RanOutputs(out0, ts, process);
      && |o| == |out0| + 2 * |ts| && o[..|out0|] == out0
      && forall i :: 0 <= i < |ts| ==>
           && o[|out0| + 2 * i] == TaskOutput(|out0| + 2 * i + 1, ts[i].id, "CODE_GENERATION", process(CodeCall(ts[i])), "CODE_WRITER")
           && o[|out0| + 2 * i + 1] == TaskOutput(|out0| + 2 * i + 2, ts[i].id, "REVIEW", ReviewOf(ts[i], process), "REVIEWER")
    decreases |ts|
  {
    if ts != [] {
      var front := ts[..|ts| - 1];
      RanOutputsShape(out0, front, process);
      var o := RanOutputs(out0, ts, process);
      var fo := RanOutputs(out0, front, process);
      assert o == fo + TaskOutputs(|fo|, ts[|ts| - 1], process);
      assert o[..|out0|] == fo[..|out0|];
      forall i | 0 <= i < |ts|
        ensures o[|out0| + 2 * i] == TaskOutput(|out0| + 2 * i + 1, ts[i].id, "CODE_GENERATION", process(CodeCall(ts[i])), "CODE_WRITER")
        ensures o[|out0| + 2 * i + 1] == TaskOutput(|out0| + 2 * i + 2, ts[i].id, "REVIEW", ReviewOf(ts[i], process), "REVIEWER")
      {
        if i < |front| {
          assert ts[i] == front[i];
          assert o[|out0| + 2 * i] == fo[|out0| + 2 * i] && o[|out0| + 2 * i + 1] == fo[|out0| + 2 * i + 1];
        }
      }
    }
  }

  /** `processTask`'s rows for a task read from the store, in the terms of
   *  Finished, TaskLog and TaskOutputs. */
  lemma ProcessedRows(tasks0: seq<DevTask>, log0: seq<TaskTransition>, out0: seq<TaskOutput>,
                      t: DevTask, process: PipelineCall -> string, github: GitRequest -> GitReply,
                      tasks: seq<DevTask>, log: seq<TaskTransition>, out: seq<TaskOutput>)
    requires 1 <= t.id <= |tasks0| && t.status == tasks0[t.id - 1].status
    requires Processed(tasks0, log0, out0, t.id, t, process, github, tasks, log, out)
    ensures tasks == tasks0[t.id - 1 := Finished(tasks0[t.id - 1], t, process, github)]
    ensures log == log0 + TaskLog(|log0|, t, process, github)
    ensures out == out0 + TaskOutputs(|out0|, t, process)
  {
    ProcessedLog(tasks0, log0, out0, t, process, github, tasks, log, out);
  }

  /** The history part of ProcessedRows. */
  lemma ProcessedLog(tasks0: seq<DevTask>, log0: seq<TaskTransition>, out0: seq<TaskOutput>,
                      t: DevTask, process: PipelineCall -> string, github: GitRequest -> GitReply,
                      tasks: seq<DevTask>, log: seq<TaskTransition>, out: seq<TaskOutput>)
    requires 1 <= t.id <= |tasks0| && t.status == tasks0[t.id - 1].status
    requires Processed(tasks0, log0, out0, t.id, t, process, github, tasks, log, out)
    ensures log == log0 + TaskLog(|log0|, t, process, github)
  {
  }

  /** `processTask` on a READY task, with its exceptions swallowed: the
   *  task's row is finished, its history rows and outputs are appended, and
   *  no other task changes. */
  method RunTask(store: Store, taskId: Id, process: PipelineCall -> string, github: GitRequest -> GitReply)
    requires store.Valid() && store.HasTask(taskId) && store.tasks[taskId - 1].status == READY
    modifies store
    ensures store.Valid() && |store.tasks| == old(|store.tasks|)
    ensures var t := old(store.ReadTask(taskId - 1));
      && store.tasks == old(store.tasks)[taskId - 1 := Finished(old(store.tasks[taskId - 1]), t, process, github)]
      && store.transitions == old(store.transitions) + TaskLog(|old(store.transitions)|, t, process, github)
      && store.outputs == old(store.outputs) + TaskOutputs(|old(store.outputs)|, t, process)
    ensures store.projects == old(store.projects) && store.epics == old(store.epics) && store.features == old(store.features)
    ensures store.dependencies == old(store.dependencies)
  {
    ghost var tasks0, log0, out0 := store.tasks, store.transitions, store.outputs;
    ghost var t := store.ReadTask(taskId - 1);
    assert t.id == taskId && t.status == READY;
    assert StartError(tasks0, taskId).None?;
    var r := ProcessTask(store, taskId, process, github);
    assert r.Ok?;
    ProcessedRows(tasks0, log0, out0, t, process, github, store.tasks, store.transitions, store.outputs);
  }

  /** `processTask`'s effect on a task row, as a value: the row and the
   *  task as read give the finished row. */
  function FinishWith(process: PipelineCall -> string, github: GitRequest -> GitReply): (finish: (DevTask, DevTask) -> DevTask)
    ensures forall row, t :: finish(row, t) == Finished(row, t, process, github)
  {
    (row, t) => Finished(row, t, process, github)
  }

  /** The task rows tasks0 after the tasks of ts ran one after the other:
   *  each task's row is finished with the task as read. */
  function Replay(tasks0: seq<DevTask>, ts: seq<DevTask>, finish: (DevTask, DevTask) -> DevTask): seq<DevTask>
    decreases |ts|
  {
    if ts == [] then tasks0
    else
      var before := Replay(tasks0, ts[..|ts| - 1], finish);
      var t := ts[|ts| - 1];
      if 1 <= t.id <= |before| then before[t.id - 1 := finish(before[t.id - 1], t)] else before
  }

  /** After a batch of tasks with increasing ids ran, each task's row is its
   *  starting row finished with the task, and every other row is as it
   *  was. */
  lemma {:induction false} ReplayAt(tasks0: seq<DevTask>, ts: seq<DevTask>, finish: (DevTask, DevTask) -> DevTask)
    requires IncreasingIds(ts) && forall j :: 0 <= j < |ts| ==> 1 <= ts[j].id <= |tasks0|
    ensures |Replay(tasks0, ts, finish)| == |tasks0|
    ensures forall j :: 0 <= j < |ts| ==> Replay(tasks0, ts, finish)[ts[j].id - 1] == finish(tasks0[ts[j].id - 1], ts[j])
    ensures forall k :: 0 <= k < |tasks0| && !InIds(ts, k + 1) ==> Replay(tasks0, ts, finish)[k] == tasks0[k]
    decreases |ts|
  {
    if ts != [] {
      var n := |ts| - 1;
      IncreasingPrefix(ts, n);
      ReplayAt(tasks0, ts[..n], finish);
      NotYetMoved(ts, n);
      ReplayStep(tasks0, ts[..n], ts, Replay(tasks0, ts[..n], finish), Replay(tasks0, ts, finish), finish);
    }
  }

  /** One more task, with an id not run before, finishes its own row and
   *  leaves the others as they were. */
  lemma ReplayStep(tasks0: seq<DevTask>, front: seq<DevTask>, ts: seq<DevTask>, cur: seq<DevTask>, next: seq<DevTask>,
                   finish: (DevTask, DevTask) -> DevTask)
    requires ts != [] && front == ts[..|ts| - 1] && |cur| == |tasks0|
    requires 1 <= ts[|ts| - 1].id <= |tasks0| && !InIds(front, ts[|ts| - 1].id)
    requires forall j :: 0 <= j < |front| ==>
      1 <= front[j].id <= |tasks0| && cur[front[j].id - 1] == finish(tasks0[front[j].id - 1], front[j])
    requires forall k :: 0 <= k < |tasks0| && !InIds(front, k + 1) ==> cur[k] == tasks0[k]
    requires next == cur[ts[|ts| - 1].id - 1 := finish(cur[ts[|ts| - 1].id - 1], ts[|ts| - 1])]
    ensures |next| == |tasks0|
    ensures forall j :: 0 <= j < |ts| ==> next[ts[j].id - 1] == finish(tasks0[ts[j].id - 1], ts[j])
    ensures forall k :: 0 <= k < |tasks0| && !InIds(ts, k + 1) ==> next[k] == tasks0[k]
  {
    var n := |ts| - 1;
    forall j | 0 <= j < |ts| ensures next[ts[j].id - 1] == finish(tasks0[ts[j].id - 1], ts[j]) {
      if j < n {
        assert ts[j] == front[j];
      }
    }
    forall k | 0 <= k < |tasks0| && !InIds(ts, k + 1) ensures next[k] == tasks0[k] {
      forall j | 0 <= j < n ensures front[j].id != k + 1 {
        assert ts[j] == front[j];
      }
    }
  }

  lemma IncreasingPrefix(ts: seq<DevTask>, n: nat)
    requires IncreasingIds(ts) && n <= |ts|
    ensures IncreasingIds(ts[..n])
  {
    forall i, j | 0 <= i < j < n ensures ts[..n][i].id < ts[..n][j].id {
      assert ts[..n][i] == ts[i] && ts[..n][j] == ts[j];
    }
  }

  /** Running one more task finishes its row. */
  lemma ReplaySnoc(tasks0: seq<DevTask>, ts: seq<DevTask>, i: nat, finish: (DevTask, DevTask) -> DevTask)
    requires i < |ts|
    ensures var before := Replay(tasks0, ts[..i], finish);
      Replay(tasks0, ts[..i + 1], finish)
      == if 1 <= ts[i].id <= |before| then before[ts[i].id - 1 := finish(before[ts[i].id - 1], ts[i])] else before
  {
    var s := ts[..i + 1];
    assert s[..|s| - 1] == ts[..i] && s[|s| - 1] == ts[i];
  }

  /** Running one more task appends its history rows. */
  lemma RanLogSnoc(log0: seq<TaskTransition>, ts: seq<DevTask>, i: nat, process: PipelineCall -> string, github: GitRequest -> GitReply)
    requires i < |ts|
    ensures RanLog(log0, ts[..i + 1], process, github)
      == RanLog(log0, ts[..i], process, github) + TaskLog(|RanLog(log0, ts[..i], process, github)|, ts[i], process, github)
  {
    var s := ts[..i + 1];
    assert s[..|s| - 1] == ts[..i] && s[|s| - 1] == ts[i];
  }

  /** Running one more task appends its outputs. */
  lemma RanOutputsSnoc(out0: seq<TaskOutput>, ts: seq<DevTask>, i: nat, process: PipelineCall -> string)
    requires i < |ts|
    ensures RanOutputs(out0, ts[..i + 1], process)
      == RanOutputs(out0, ts[..i], process) + TaskOutputs(|RanOutputs(out0, ts[..i], process)|, ts[i], process)
  {
    var s := ts[..i + 1];
    assert s[..|s| - 1] == ts[..i] && s[|s| - 1] == ts[i];
  }

  /** The store after the first i tasks of ts ran, from the rows tasks0,
   *  the history log0, the outputs out0 and the other tables u. */
  ghost predicate RunState(store: Store, ts: seq<DevTask>, i: nat, tasks0: seq<DevTask>, log0: seq<TaskTransition>,
                           out0: seq<TaskOutput>, u: Untouched, process: PipelineCall -> string, github: GitRequest -> GitReply)
    reads store
    requires i <= |ts|
  {
    && store.Valid() && store.tasks == Replay(tasks0, ts[..i], FinishWith(process, github))
    && store.transitions == RanLog(log0, ts[..i], process, github)
    && store.outputs == RanOutputs(out0, ts[..i], process)
    && store.projects == u.projects && store.epics == u.epics && store.features == u.features
    && store.dependencies == u.dependencies
  }

  /** Lines 88-94: run every task of ts, all READY reads in ascending id
   *  order, through the pipeline, one after the other: each one's row is
   *  finished (DEPLOYED exactly when its review approves), each one's
   *  history rows and outputs are appended in turn, and the other tasks are
   *  untouched. */
  method ProcessAll(store: Store, ts: seq<DevTask>, process: PipelineCall -> string, github: GitRequest -> GitReply)
    requires store.Valid() && IncreasingIds(ts)
    requires forall i :: 0 <= i < |ts| ==> store.IsRead(ts[i]) && ts[i].status == READY
    modifies store
    ensures store.Valid() && |store.tasks| == old(|store.tasks|)
    ensures FinishedFrom(store.tasks, old(store.tasks), ts, process, github)
    ensures forall k :: 0 <= k < |store.tasks| && !InIds(ts, k + 1) ==> store.tasks[k] == old(store.tasks[k])
    ensures store.transitions == RanLog(old(store.transitions), ts, process, github)
    ensures store.outputs == RanOutputs(old(store.outputs), ts, process)
    ensures store.projects == old(store.projects) && store.epics == old(store.epics) && store.features == old(store.features)
    ensures store.dependencies == old(store.dependencies)
  {
    ghost var tasks0, log0, out0, u := store.tasks, store.transitions, store.outputs, UntouchedOf(store);
    assert AllReadIn(tasks0, store.dependencies, ts, READY);
    assert ts[..0] == [];
    var i := 0;
    while i < |ts|
      invariant i <= |ts| && RunState(store, ts, i, tasks0, log0, out0, u, process, github)
    {
      UnrunRead(store, tasks0, ts, i, FinishWith(process, github));
      RunNext(store, ts, i, process, github, tasks0, log0, out0);
      i := i + 1;
    }
    assert ts[..i] == ts;
    ReplayAt(tasks0, ts, FinishWith(process, github));
  }

  /** Task i of ts, run once the tasks before it have run. */
  method RunNext(store: Store, ts: seq<DevTask>, i: nat, process: PipelineCall -> string, github: GitRequest -> GitReply,
                 ghost tasks0: seq<DevTask>, ghost log0: seq<TaskTransition>, ghost out0: seq<TaskOutput>)
    requires i < |ts| && store.Valid() && store.IsRead(ts[i]) && ts[i].status == READY
    requires store.tasks == Replay(tasks0, ts[..i], FinishWith(process, github))
    requires store.transitions == RanLog(log0, ts[..i], process, github) && store.outputs == RanOutputs(out0, ts[..i], process)
    modifies store
    ensures store.Valid()
    ensures store.tasks == Replay(tasks0, ts[..i + 1], FinishWith(process, github))
    ensures store.transitions == RanLog(log0, ts[..i + 1], process, github) && store.outputs == RanOutputs(out0, ts[..i + 1], process)
    ensures store.projects == old(store.projects) && store.epics == old(store.epics) && store.features == old(store.features)
    ensures store.dependencies == old(store.dependencies)
  {
    RunRow(store, ts, i, process, github, tasks0);
    RanLogSnoc(log0, ts, i, process, github);
    RanOutputsSnoc(out0, ts, i, process);
  }

  /** Task i of ts, run: its row is finished, as after ts[..i + 1] ran, and
   *  its history rows and outputs are appended. */
  method RunRow(store: Store, ts: seq<DevTask>, i: nat, process: PipelineCall -> string, github: GitRequest -> GitReply,
                ghost tasks0: seq<DevTask>)
    requires i < |ts| && store.Valid() && store.IsRead(ts[i]) && ts[i].status == READY
    requires store.tasks == Replay(tasks0, ts[..i], FinishWith(process, github))
    modifies store
    ensures store.Valid()
    ensures store.tasks == Replay(tasks0, ts[..i + 1], FinishWith(process, github))
    ensures store.transitions == old(store.transitions) + TaskLog(|old(store.transitions)|, ts[i], process, github)
    ensures store.outputs == old(store.outputs) + TaskOutputs(|old(store.outputs)|, ts[i], process)
    ensures store.projects == old(store.projects) && store.epics == old(store.epics) && store.features == old(store.features)
    ensures store.dependencies == old(store.dependencies)
  {
    RunAt(store, ts[i], process, github);
    ReplaySnoc(tasks0, ts, i, FinishWith(process, github));
  }

  /** `processTask` on the READY task t, as read: its row is finished and
   *  its history rows and outputs are appended. */
  method RunAt(store: Store, t: DevTask, process: PipelineCall -> string, github: GitRequest -> GitReply)
    requires store.Valid() && store.IsRead(t) && t.status == READY
    modifies store
    ensures store.Valid() && 1 <= t.id <= |old(store.tasks)|
    ensures store.tasks == old(store.tasks)[t.id - 1 := Finished(old(store.tasks)[t.id - 1], t, process, github)]
    ensures store.transitions == old(store.transitions) + TaskLog(|old(store.transitions)|, t, process, github)
    ensures store.outputs == old(store.outputs) + TaskOutputs(|old(store.outputs)|, t, process)
    ensures store.projects == old(store.projects) && store.epics == old(store.epics) && store.features == old(store.features)
    ensures store.dependencies == old(store.dependencies)
  {
    RunTask(store, t.id, process, github);
  }

  /** A task not yet run still has its starting row, and is its read. */
  lemma UnrunRead(store: Store, tasks0: seq<DevTask>, ts: seq<DevTask>, i: nat,
                  finish: (DevTask, DevTask) -> DevTask)
    requires i < |ts| && IncreasingIds(ts) && AllReadIn(tasks0, store.dependencies, ts, READY)
    requires TaskRows(store.tasks) && store.tasks == Replay(tasks0, ts[..i], finish)
    ensures store.IsRead(ts[i]) && ts[i].status == READY
  {
    NotYetMoved(ts, i);
    var k := ts[i].id - 1;
    ReplayKeeps(tasks0, ts[..i], k, finish);
    assert store.tasks[k] == tasks0[k];
  }

  /** A row whose task is not in ts is left as it was. */
  lemma {:induction false} ReplayKeeps(tasks0: seq<DevTask>, ts: seq<DevTask>, k: nat, finish: (DevTask, DevTask) -> DevTask)
    requires k < |tasks0| && !InIds(ts, k + 1)
    ensures |Replay(tasks0, ts, finish)| == |tasks0| && Replay(tasks0, ts, finish)[k] == tasks0[k]
    decreases |ts|
  {
    if ts != [] {
      var n := |ts| - 1;
      forall j | 0 <= j < n ensures ts[..n][j].id != k + 1 {
        assert ts[..n][j] == ts[j];
      }
      ReplayKeeps(tasks0, ts[..n], k, finish);
      assert ts[n].id != k + 1;
    }
  }

  /** `getReadyTasks` returns, in ascending id order, exactly the project's
   *  PLANNED tasks whose existing dependencies are all DEPLOYED. */
  lemma ReadyIds(store: Store, projectId: Id)
    requires TaskRows(store.tasks)
    ensures var ts := store.GetReadyTasks(projectId);
      && IncreasingIds(ts)
      && (forall i :: 0 <= i < |ts| ==> store.IsRead(ts[i]) && store.tasks[ts[i].id - 1].status == PLANNED)
      && forall k :: 0 <= k < |store.tasks| ==>
           (InIds(ts, k + 1) <==>
              store.InProject(k, projectId) && store.tasks[k].status == PLANNED
              && store.DependenciesDeployed(store.ReadTask(k)))
  {
    ReadyRows(store, projectId);
    forall k | 0 <= k < |store.tasks|
      ensures InIds(store.GetReadyTasks(projectId), k + 1) <==>
        store.InProject(k, projectId) && store.tasks[k].status == PLANNED
        && store.DependenciesDeployed(store.ReadTask(k))
    {
      ReadyIdsAt(store, projectId, k);
    }
  }

  /** The ready tasks are read rows, PLANNED, in id order. */
  lemma ReadyRows(store: Store, projectId: Id)
    requires TaskRows(store.tasks)
    ensures var ts := store.GetReadyTasks(projectId);
      && IncreasingIds(ts)
      && (forall i :: 0 <= i < |ts| ==> store.IsRead(ts[i]) && store.tasks[ts[i].id - 1].status == PLANNED)
  {
    var planned := store.GetTasksByProject(projectId, Some(PLANNED));
    var ts := store.GetReadyTasks(projectId);
    ProjectIds(store, projectId, PLANNED);
    store.ReadyAmongRows(planned);
    forall i | 0 <= i < |ts| ensures store.IsRead(ts[i]) && store.tasks[ts[i].id - 1].status == PLANNED {
      assert ts[i] in planned;
    }
  }

  /** One row: it is among the ready tasks exactly when it is a PLANNED task
   *  of the project whose dependencies are deployed. */
  lemma ReadyIdsAt(store: Store, projectId: Id, k: nat)
    requires TaskRows(store.tasks) && k < |store.tasks|
    ensures InIds(store.GetReadyTasks(projectId), k + 1) <==>
      store.InProject(k, projectId) && store.tasks[k].status == PLANNED
      && store.DependenciesDeployed(store.ReadTask(k))
  {
    var planned := store.GetTasksByProject(projectId, Some(PLANNED));
    ProjectIds(store, projectId, PLANNED);
    if InIds(store.GetReadyTasks(projectId), k + 1) {
      ReadyRowIsPlanned(store, planned, k);
    }
    if InIds(planned, k + 1) && store.DependenciesDeployed(store.ReadTask(k)) {
      PlannedRowIsReady(store, planned, k);
    }
  }

  lemma ReadyRowIsPlanned(store: Store, planned: seq<DevTask>, k: nat)
    requires IncreasingIds(planned) && k < |store.tasks|
    requires forall i :: 0 <= i < |planned| ==> store.IsRead(planned[i])
    requires InIds(store.ReadyAmong(planned), k + 1)
    ensures InIds(planned, k + 1) && store.DependenciesDeployed(store.ReadTask(k))
  {
    var ts := store.ReadyAmong(planned);
    store.ReadyAmongRows(planned);
    var j :| 0 <= j < |ts| && ts[j].id == k + 1;
    assert ts[j] in planned;
    var x :| 0 <= x < |planned| && planned[x] == ts[j];
    assert planned[x] == store.ReadTask(k) by {
      assert store.IsRead(planned[x]) && planned[x].id == k + 1;
    }
    store.ReadyAmongExact(planned, ts[j]);
    assert InIds(planned, k + 1) by {
      assert planned[x].id == k + 1;
    }
  }

  lemma PlannedRowIsReady(store: Store, planned: seq<DevTask>, k: nat)
    requires k < |store.tasks|
    requires forall i :: 0 <= i < |planned| ==> store.IsRead(planned[i])
    requires InIds(planned, k + 1) && store.DependenciesDeployed(store.ReadTask(k))
    ensures InIds(store.ReadyAmong(planned), k + 1)
  {
    var j :| 0 <= j < |planned| && planned[j].id == k + 1;
    assert store.IsRead(planned[j]);
    store.ReadyAmongExact(planned, planned[j]);
    var ts := store.ReadyAmong(planned);
    var x :| 0 <= x < |ts| && ts[x] == planned[j];
    assert ts[x].id == k + 1;
  }

  /** Statuses that planning leaves in place keep DEPLOYED rows DEPLOYED
   *  and makes none. */
  lemma PlanningKeepsDeployed(tasks0: seq<DevTask>, tasks1: seq<DevTask>, ids: seq<Id>)
    requires |tasks1| == |tasks0|
    requires forall k :: 0 <= k < |tasks0| ==>
      tasks1[k] == tasks0[k] || (tasks0[k].status == CREATED && tasks1[k] == tasks0[k].(status := PLANNED))
    ensures DeployedAll(tasks1, ids) <==> DeployedAll(tasks0, ids)
  {
    assert forall k :: 0 <= k < |tasks0| ==> (tasks1[k].status == DEPLOYED <==> tasks0[k].status == DEPLOYED);
  }

  /** Lines 65-67: plan the project's CREATED tasks, then find the ready
   *  ones, stated against the state before planning. */
  method PlanAndFindReady(store: Store, projectId: Id) returns (ready: seq<DevTask>)
    requires store.Valid()
    modifies store
    ensures store.Valid() && |store.tasks| == old(|store.tasks|)
    ensures forall k :: 0 <= k < |store.tasks| ==>
      store.tasks[k] == if old(store.InProject(k, projectId) && store.tasks[k].status == CREATED)
                        then old(store.tasks[k]).(status := PLANNED) else old(store.tasks[k])
    ensures forall k :: 0 <= k < |store.tasks| ==> store.tasks[k] == old(store.tasks[k]).(status := store.tasks[k].status)
    ensures IncreasingIds(ready)
    ensures forall i :: 0 <= i < |ready| ==>
      && 1 <= ready[i].id <= |store.tasks|
      && store.IsRead(ready[i]) && store.tasks[ready[i].id - 1].status == PLANNED
      && ready[i] == old(store.ReadTask(ready[i].id - 1)).(status := PLANNED)
    ensures store.transitions == old(store.transitions)
      + BulkLog(|old(store.transitions)|, old(store.GetTasksByProject(projectId, Some(CREATED))), CREATED, PLANNED, "Auto-planned by pipeline")
    ensures forall k :: 0 <= k < |store.tasks| ==>
      (InIds(ready, k + 1) <==> old(
         && store.InProject(k, projectId)
         && (store.tasks[k].status == CREATED || store.tasks[k].status == PLANNED)
         && store.DependenciesDeployed(store.ReadTask(k))))
    ensures store.projects == old(store.projects) && store.epics == old(store.epics) && store.features == old(store.features)
    ensures store.dependencies == old(store.dependencies) && store.outputs == old(store.outputs)
  {
    ghost var tasks0 := store.tasks;
    TransitionCreatedToPlanned(store, projectId);
    forall k | 0 <= k < |store.tasks| ensures store.InProject(k, projectId) == old(store.InProject(k, projectId)) {
      assert store.tasks[k].featureId == tasks0[k].featureId;
    }
    ready := store.GetReadyTasks(projectId);
    ReadyAfterPlanning(store, tasks0, projectId);
    forall i | 0 <= i < |ready| ensures ready[i] == old(store.ReadTask(ready[i].id - 1)).(status := PLANNED) {
      ghost var k := ready[i].id - 1;
      assert tasks0[k].id == ready[i].id;
      assert old(store.ReadTask(k)) == tasks0[k].(dependsOn := Targets(old(store.dependencies), tasks0[k].id));
    }
  }

  /** The ready tasks after planning, against the rows before it: a
   *  project task that was CREATED or PLANNED and whose dependencies were
   *  all DEPLOYED, read with status PLANNED. */
  lemma ReadyAfterPlanning(store: Store, tasks0: seq<DevTask>, projectId: Id)
    requires TaskRows(store.tasks) && |tasks0| == |store.tasks|
    requires forall k :: 0 <= k < |tasks0| ==>
      store.tasks[k] == if store.InProject(k, projectId) && tasks0[k].status == CREATED
                        then tasks0[k].(status := PLANNED) else tasks0[k]
    ensures var ready := store.GetReadyTasks(projectId);
      && IncreasingIds(ready)
      && (forall i :: 0 <= i < |ready| ==>
            && 1 <= ready[i].id <= |store.tasks|
            && store.IsRead(ready[i]) && store.tasks[ready[i].id - 1].status == PLANNED
            && ready[i] == tasks0[ready[i].id - 1].(dependsOn := Targets(store.dependencies, ready[i].id)).(status := PLANNED))
      && forall k :: 0 <= k < |tasks0| ==>
           (InIds(ready, k + 1) <==>
              && store.InProject(k, projectId)
              && (tasks0[k].status == CREATED || tasks0[k].status == PLANNED)
              && DeployedAll(tasks0, Targets(store.dependencies, k + 1)))
  {
    var ready := store.GetReadyTasks(projectId);
    ReadyRows(store, projectId);
    forall i | 0 <= i < |ready|
      ensures ready[i] == tasks0[ready[i].id - 1].(dependsOn := Targets(store.dependencies, ready[i].id)).(status := PLANNED)
    {
      var k := ready[i].id - 1;
      assert ready[i] == store.ReadTask(k);
      assert store.tasks[k] == tasks0[k].(status := PLANNED);
    }
    forall k | 0 <= k < |tasks0|
      ensures InIds(ready, k + 1) <==>
        && store.InProject(k, projectId)
        && (tasks0[k].status == CREATED || tasks0[k].status == PLANNED)
        && DeployedAll(tasks0, Targets(store.dependencies, k + 1))
    {
      ReadyAfterPlanningAt(store, tasks0, projectId, k);
    }
  }

  lemma ReadyAfterPlanningAt(store: Store, tasks0: seq<DevTask>, projectId: Id, k: nat)
    requires TaskRows(store.tasks) && |tasks0| == |store.tasks| && k < |tasks0|
    requires forall j :: 0 <= j < |tasks0| ==>
      store.tasks[j] == tasks0[j] || (tasks0[j].status == CREATED && store.tasks[j] == tasks0[j].(status := PLANNED))
    requires store.tasks[k] == if store.InProject(k, projectId) && tasks0[k].status == CREATED
                               then tasks0[k].(status := PLANNED) else tasks0[k]
    ensures InIds(store.GetReadyTasks(projectId), k + 1) <==>
      && store.InProject(k, projectId)
      && (tasks0[k].status == CREATED || tasks0[k].status == PLANNED)
      && DeployedAll(tasks0, Targets(store.dependencies, k + 1))
  {
    ReadyIdsAt(store, projectId, k);
    var deps := Targets(store.dependencies, k + 1);
    assert store.DependenciesDeployed(store.ReadTask(k)) <==> DeployedAll(store.tasks, deps);
    PlanningKeepsDeployed(tasks0, store.tasks, deps);
    assert store.InProject(k, projectId) && store.tasks[k].status == PLANNED <==>
      store.InProject(k, projectId) && (tasks0[k].status == CREATED || tasks0[k].status == PLANNED);
  }

  /** Lines 76-84: move the ready tasks, each read from the store in status
   *  PLANNED, to READY. `rows0` are rows that differ from the current ones
   *  at most in status. Returns the tasks as read after the move: each is
   *  its row in `rows0` read with status READY. Only the moved rows change,
   *  and only in status; the history gains one row per move. */
  method MoveReady(store: Store, ready: seq<DevTask>, ghost rows0: seq<DevTask>) returns (r: seq<DevTask>)
    requires store.Valid() && IncreasingIds(ready)
    requires forall i :: 0 <= i < |ready| ==> store.IsRead(ready[i]) && store.tasks[ready[i].id - 1].status == PLANNED
    requires |rows0| == |store.tasks|
    requires forall k :: 0 <= k < |store.tasks| ==> store.tasks[k] == rows0[k].(status := store.tasks[k].status)
    modifies store
    ensures store.Valid() && |store.tasks| == old(|store.tasks|)
    ensures IncreasingIds(r) && forall id :: InIds(r, id) <==> InIds(ready, id)
    ensures |r| == |ready| && forall i :: 0 <= i < |r| ==>
      r[i] == ready[i].(status := READY) && store.IsRead(r[i]) && ReadAs(r[i], rows0, store.dependencies, READY)
    ensures forall k :: 0 <= k < |store.tasks| ==> store.tasks[k] == rows0[k].(status := store.tasks[k].status)
    ensures forall k :: 0 <= k < |store.tasks| && !InIds(r, k + 1) ==> store.tasks[k] == old(store.tasks[k])
    ensures store.transitions == old(store.transitions) + BulkLog(|old(store.transitions)|, r, PLANNED, READY, "Dependencies satisfied")
    ensures store.projects == old(store.projects) && store.epics == old(store.epics) && store.features == old(store.features)
    ensures store.dependencies == old(store.dependencies) && store.outputs == old(store.outputs)
  {
    ghost var mid := store.tasks;
    assert AllReadIn(mid, store.dependencies, ready, PLANNED);
    r := BulkAdvance(store, ready, PLANNED, READY, "Dependencies satisfied");
    SameIds(r, ready);
    BulkLogByIds(|old(store.transitions)|, ready, r, PLANNED, READY, "Dependencies satisfied");
    MovedReads(store, mid, rows0, ready, r);
  }

  /** The tasks of a bulk move to READY, as returned, are the moved rows as
   *  read, and are the rows of rows0 read with status READY. */
  lemma MovedReads(store: Store, mid: seq<DevTask>, rows0: seq<DevTask>, ready: seq<DevTask>, r: seq<DevTask>)
    requires TaskRows(store.tasks) && |mid| == |store.tasks| && |rows0| == |mid|
    requires AllReadIn(mid, store.dependencies, ready, PLANNED)
    requires forall k :: 0 <= k < |store.tasks| ==>
      store.tasks[k] == if InIds(ready, k + 1) then mid[k].(status := READY) else mid[k]
    requires forall k :: 0 <= k < |mid| ==> mid[k] == rows0[k].(status := mid[k].status)
    requires |r| == |ready| && forall i :: 0 <= i < |ready| ==> r[i] == ready[i].(status := READY)
    ensures forall i :: 0 <= i < |r| ==> store.IsRead(r[i]) && ReadAs(r[i], rows0, store.dependencies, READY)
    ensures forall k :: 0 <= k < |store.tasks| ==> store.tasks[k] == rows0[k].(status := store.tasks[k].status)
  {
    forall i | 0 <= i < |r| ensures store.IsRead(r[i]) && ReadAs(r[i], rows0, store.dependencies, READY) {
      var k := ready[i].id - 1;
      assert InIds(ready, k + 1);
      StartedRow(rows0[k], mid[k], ready[i], store.dependencies);
    }
    forall k | 0 <= k < |store.tasks| ensures store.tasks[k] == rows0[k].(status := store.tasks[k].status) {
      assert mid[k] == rows0[k].(status := mid[k].status);
    }
  }

  /** Lines 76-94: move the ready tasks to READY, then run each through
   *  the pipeline. Returns them as moved. `rows0` are rows that differ
   *  from the current ones at most in status, such as the rows before
   *  planning. Each returned task is its row in `rows0` read with status
   *  READY, and its row ends as that row finished (DEPLOYED exactly when
   *  its review approves); every other row is unchanged. The history gains
   *  the bulk move's rows and then each task's rows in turn; the outputs
   *  gain each task's two outputs in turn. */
  method ReadyAndRun(store: Store, ready: seq<DevTask>, process: PipelineCall -> string, github: GitRequest -> GitReply,
                     ghost rows0: seq<DevTask>)
    returns (r: seq<DevTask>)
    requires store.Valid() && IncreasingIds(ready)
    requires forall i :: 0 <= i < |ready| ==> store.IsRead(ready[i]) && store.tasks[ready[i].id - 1].status == PLANNED
    requires |rows0| == |store.tasks|
    requires forall k :: 0 <= k < |store.tasks| ==> store.tasks[k] == rows0[k].(status := store.tasks[k].status)
    modifies store
    ensures store.Valid() && |store.tasks| == old(|store.tasks|)
    ensures IncreasingIds(r) && forall id :: InIds(r, id) <==> InIds(ready, id)
    ensures |r| == |ready| && forall i :: 0 <= i < |r| ==> r[i] == ready[i].(status := READY)
    ensures (forall i :: 0 <= i < |r| ==> ReadAs(r[i], rows0, store.dependencies, READY))
      && FinishedFrom(store.tasks, rows0, r, process, github)
    ensures forall k :: 0 <= k < |store.tasks| && !InIds(r, k + 1) ==> store.tasks[k] == old(store.tasks[k])
    ensures store.transitions
      == RanLog(old(store.transitions) + BulkLog(|old(store.transitions)|, r, PLANNED, READY, "Dependencies satisfied"),
                r, process, github)
    ensures store.outputs == RanOutputs(old(store.outputs), r, process)
    ensures store.projects == old(store.projects) && store.epics == old(store.epics) && store.features == old(store.features)
    ensures store.dependencies == old(store.dependencies)
  {
    r := MoveReady(store, ready, rows0);
    ghost var moved := store.tasks;
    ProcessAll(store, r, process, github);
    FinishedRows(rows0, moved, store.tasks, r, process, github);
  }

  /** Finishing rows that differ from rows0 at most in status is finishing
   *  the rows of rows0. */
  lemma FinishedRows(rows0: seq<DevTask>, moved: seq<DevTask>, fin: seq<DevTask>, r: seq<DevTask>,
                     process: PipelineCall -> string, github: GitRequest -> GitReply)
    requires |rows0| == |moved| && forall k :: 0 <= k < |moved| ==> moved[k] == rows0[k].(status := moved[k].status)
    requires FinishedFrom(fin, moved, r, process, github)
    ensures FinishedFrom(fin, rows0, r, process, github)
  {
    forall i | 0 <= i < |r| ensures fin[r[i].id - 1] == Finished(rows0[r[i].id - 1], r[i], process, github) {
      var k := r[i].id - 1;
      FinishedIgnoresStatus(rows0[k], moved[k].status, r[i], process, github);
    }
  }

  /** A task read from a row that differs from row0 at most in status, then
   *  moved to READY, is row0 read with status READY. */
  lemma StartedRow(row0: DevTask, row: DevTask, t: DevTask, deps: seq<Edge>)
    requires row == row0.(status := row.status)
    requires t == row.(dependsOn := Targets(deps, row.id))
    ensures t.(status := READY) == row0.(dependsOn := Targets(deps, row0.id), status := READY)
  {
  }

  /** Finishing a row sets its status, whatever the status was. */
  lemma FinishedIgnoresStatus(row: DevTask, s: TaskStatus, t: DevTask, process: PipelineCall -> string, github: GitRequest -> GitReply)
    ensures Finished(row.(status := s), t, process, github) == Finished(row, t, process, github)
  {
  }

  lemma SameIds(r: seq<DevTask>, ts: seq<DevTask>)
    requires |r| == |ts| && forall i :: 0 <= i < |r| ==> r[i].id == ts[i].id
    ensures forall id :: InIds(r, id) <==> InIds(ts, id)
    ensures IncreasingIds(ts) ==> IncreasingIds(r)
  {
    forall id ensures InIds(r, id) <==> InIds(ts, id) {
      if InIds(r, id) {
        var j :| 0 <= j < |r| && r[j].id == id;
        assert ts[j].id == id;
      }
      if InIds(ts, id) {
        var j :| 0 <= j < |ts| && ts[j].id == id;
        assert r[j].id == id;
      }
    }
  }

  /** `executeNextTasks`: plan the CREATED tasks, move the ready ones to
   *  READY and run each through the pipeline. Returns the tasks as moved to
   *  READY: exactly the project's tasks that were CREATED or PLANNED with
   *  every existing dependency DEPLOYED, in id order. Each one's row ends
   *  as before, finished: DEPLOYED exactly when its review approves. Of
   *  the rest, the project's CREATED tasks are PLANNED and everything else
   *  is as before. The history gains the planning rows, the bulk move's
   *  rows and each task's rows in turn; the outputs gain each task's two
   *  outputs in turn. */
  method ExecuteNextTasks(store: Store, projectId: Id, process: PipelineCall -> string, github: GitRequest -> GitReply)
    returns (r: seq<DevTask>)
    requires store.Valid()
    modifies store
    ensures store.Valid() && |store.tasks| == old(|store.tasks|)
    ensures IncreasingIds(r)
    ensures (forall i :: 0 <= i < |r| ==> ReadAs(r[i], old(store.tasks), store.dependencies, READY))
      && FinishedFrom(store.tasks, old(store.tasks), r, process, github)
    ensures forall k :: 0 <= k < |store.tasks| ==>
      (InIds(r, k + 1) <==> old(
         && store.InProject(k, projectId)
         && (store.tasks[k].status == CREATED || store.tasks[k].status == PLANNED)
         && store.DependenciesDeployed(store.ReadTask(k))))
    ensures forall k :: 0 <= k < |store.tasks| && !InIds(r, k + 1) ==>
      store.tasks[k] == if old(store.InProject(k, projectId) && store.tasks[k].status == CREATED)
                        then old(store.tasks[k]).(status := PLANNED) else old(store.tasks[k])
    ensures var planned := old(store.transitions)
          + BulkLog(|old(store.transitions)|, old(store.GetTasksByProject(projectId, Some(CREATED))), CREATED, PLANNED, "Auto-planned by pipeline");
      store.transitions == RanLog(planned + BulkLog(|planned|, r, PLANNED, READY, "Dependencies satisfied"), r, process, github)
    ensures store.outputs == RanOutputs(old(store.outputs), r, process)
    ensures store.projects == old(store.projects) && store.epics == old(store.epics) && store.features == old(store.features)
    ensures store.dependencies == old(store.dependencies)
  {
    ghost var rows0 := store.tasks;
    var ready := PlanAndFindReady(store, projectId);
    if ready == [] {
      assert store.transitions + BulkLog(|store.transitions|, ready, PLANNED, READY, "Dependencies satisfied") == store.transitions;
      return [];
    }
    r := ReadyAndRun(store, ready, process, github, rows0);
  }

  /** A bulk move's history rows depend only on the tasks' ids. */
  lemma BulkLogByIds(start: nat, a: seq<DevTask>, b: seq<DevTask>, from: TaskStatus, to: TaskStatus, reason: string)
    requires |a| == |b| && forall i :: 0 <= i < |a| ==> a[i].id == b[i].id
    ensures BulkLog(start, a, from, to, reason) == BulkLog(start, b, from, to, reason)
  {
  }

  // ---- analysis ----

  /** `analyzeProject`: a missing project is an IllegalArgument and changes
   *  nothing; otherwise the analyzer's breakdown of the reply is stored and
   *  returned. The chat call is left out: its reply is the parameter. */
  method AnalyzeProject(store: Store, projectId: Id, reply: string, decode: string -> Option<AnalysisResult>)
    returns (r: Result<AnalysisResult, StoreError>)
    requires store.Valid()
    modifies store
    ensures store.Valid()
    ensures !old(store.HasProject(projectId)) ==>
      && r == Err(IllegalArgument("Project " + Text.IntToString(projectId) + " not found"))
      && store.epics == old(store.epics) && store.features == old(store.features)
      && store.tasks == old(store.tasks) && store.dependencies == old(store.dependencies)
    ensures old(store.HasProject(projectId)) ==>
      var result := ProjectAnalyzer.ParseAnalysisResponse(reply, decode);
      var edges := ProjectAnalyzer.AnalysisEdges(|old(store.tasks)|, |old(store.features)|, result);
      && store.epics == old(store.epics) + ProjectAnalyzer.EpicRows(|old(store.epics)|, projectId, result.epics)
      && store.features == old(store.features)
         + ProjectAnalyzer.EpicFeatureRows(|old(store.epics)|, |old(store.features)|, result.epics)
      && store.tasks == old(store.tasks)
         + ProjectAnalyzer.Rows(|old(store.tasks)|, ProjectAnalyzer.PlaceEpics(|old(store.features)|, result.epics))
      && (r.Ok? <==> NoDuplicates(old(store.dependencies) + edges))
      && (r.Ok? ==> r.value == result && store.dependencies == old(store.dependencies) + edges)
      && (r.Err? ==> r.error == ConstraintViolation("task_dependencies"))
      && (r.Err? ==> ProjectAnalyzer.StoppedAtRepeat(old(store.dependencies), edges, store.dependencies))
    ensures store.projects == old(store.projects)
    ensures store.transitions == old(store.transitions) && store.outputs == old(store.outputs)
  {
    var project := store.GetProject(projectId);
    if project.None? {
      return Err(IllegalArgument("Project " + Text.IntToString(projectId) + " not found"));
    }
    r := ProjectAnalyzer.Analyze(store, projectId, reply, decode);
  }

  /** `analyzeAndExecute`: analyze, plan every CREATED task, then run the
   *  ready ones. A failed analysis ends the call with its error before any
   *  task moves; otherwise the result is `executeNextTasks`'s: tasks
   *  moved to READY, in id order, each of which ends DEPLOYED or
   *  CHANGES_REQUESTED. */
  method AnalyzeAndExecute(store: Store, projectId: Id, reply: string, decode: string -> Option<AnalysisResult>,
                           process: PipelineCall -> string, github: GitRequest -> GitReply)
    returns (r: Result<seq<DevTask>, StoreError>, ghost planned: seq<TaskTransition>)
    requires store.Valid()
    modifies store
    ensures store.Valid()
    ensures !old(store.HasProject(projectId)) ==>
      && r == Err(IllegalArgument("Project " + Text.IntToString(projectId) + " not found"))
      && store.epics == old(store.epics) && store.features == old(store.features)
      && store.tasks == old(store.tasks) && store.dependencies == old(store.dependencies)
    ensures
      var result := ProjectAnalyzer.ParseAnalysisResponse(reply, decode);
      var edges := ProjectAnalyzer.AnalysisEdges(|old(store.tasks)|, |old(store.features)|, result);
      && (r.Ok? <==> old(store.HasProject(projectId)) && NoDuplicates(old(store.dependencies) + edges))
      && (r.Ok? ==> store.dependencies == old(store.dependencies) + edges)
    ensures r.Err? ==> store.transitions == old(store.transitions) && store.outputs == old(store.outputs)
    ensures r.Err? && old(store.HasProject(projectId)) ==>
      var result := ProjectAnalyzer.ParseAnalysisResponse(reply, decode);
      var edges := ProjectAnalyzer.AnalysisEdges(|old(store.tasks)|, |old(store.features)|, result);
      && r.error == ConstraintViolation("task_dependencies")
      && store.tasks == old(store.tasks)
         + ProjectAnalyzer.Rows(|old(store.tasks)|, ProjectAnalyzer.PlaceEpics(|old(store.features)|, result.epics))
      && ProjectAnalyzer.StoppedAtRepeat(old(store.dependencies), edges, store.dependencies)
    ensures old(store.HasProject(projectId)) ==>
      var result := ProjectAnalyzer.ParseAnalysisResponse(reply, decode);
      && store.epics == old(store.epics) + ProjectAnalyzer.EpicRows(|old(store.epics)|, projectId, result.epics)
      && store.features == old(store.features)
         + ProjectAnalyzer.EpicFeatureRows(|old(store.epics)|, |old(store.features)|, result.epics)
      && |store.tasks| == |old(store.tasks)| + |ProjectAnalyzer.PlaceEpics(|old(store.features)|, result.epics)|
    ensures r.Ok? ==>
      && IncreasingIds(r.value)
      && (forall i :: 0 <= i < |r.value| ==> r.value[i].status == READY)
      && ReviewedRows(store.tasks, r.value, process)
      && old(store.transitions) <= planned
      && store.transitions == RanLog(planned + BulkLog(|planned|, r.value, PLANNED, READY, "Dependencies satisfied"), r.value, process, github)
      && store.outputs == RanOutputs(old(store.outputs), r.value, process)
    ensures store.projects == old(store.projects)
  {
    var analysis := AnalyzeProject(store, projectId, reply, decode);
    if analysis.Err? {
      return Err(analysis.error), store.transitions;
    }
    var started;
    started, planned := PlanAndExecute(store, projectId, process, github);
    return Ok(started), planned;
  }

  lemma PrefixOfPrefix<T>(a: seq<T>, b: seq<T>, c: seq<T>)
    requires a + b <= c
    ensures a <= c
  {
    assert a == (a + b)[..|a|];
  }

  /** Lines 39-43 after the analysis: plan every CREATED task, then run the
   *  ready ones. Each started task ends DEPLOYED exactly when its review
   *  approves; the history keeps its rows and ends with the bulk move's
   *  rows and each task's rows; the outputs gain each task's two outputs. */
  method PlanAndExecute(store: Store, projectId: Id, process: PipelineCall -> string, github: GitRequest -> GitReply)
    returns (r: seq<DevTask>, ghost planned: seq<TaskTransition>)
    requires store.Valid()
    modifies store
    ensures store.Valid() && |store.tasks| == old(|store.tasks|)
    ensures IncreasingIds(r)
    ensures (forall i :: 0 <= i < |r| ==> r[i].status == READY) && ReviewedRows(store.tasks, r, process)
    ensures old(store.transitions)
      + BulkLog(|old(store.transitions)|, old(store.GetTasksByProject(projectId, Some(CREATED))), CREATED, PLANNED, "Auto-planned by pipeline")
      <= planned
    ensures old(store.transitions) <= planned
    ensures store.transitions == RanLog(planned + BulkLog(|planned|, r, PLANNED, READY, "Dependencies satisfied"), r, process, github)
    ensures store.outputs == RanOutputs(old(store.outputs), r, process)
    ensures store.projects == old(store.projects) && store.epics == old(store.epics) && store.features == old(store.features)
    ensures store.dependencies == old(store.dependencies)
  {
    TransitionCreatedToPlanned(store, projectId);
    ghost var log1, created := store.transitions, store.GetTasksByProject(projectId, Some(CREATED));
    ghost var rows1 := store.tasks;
    r := ExecuteNextTasks(store, projectId, process, github);
    FinishedAreReviewed(store.tasks, rows1, r, process, github);
    planned := log1 + BulkLog(|log1|, created, CREATED, PLANNED, "Auto-planned by pipeline");
    PrefixOfPrefix(old(store.transitions), BulkLog(|old(store.transitions)|, old(store.GetTasksByProject(projectId, Some(CREATED))), CREATED, PLANNED, "Auto-planned by pipeline"), planned);
  }

  // ---- project status ----

  /** `getProjectStatus`'s response, with the entities as they are stored. */
  datatype StatusReport = StatusReport(
    projectId: Id, projectName: string, totalTasks: nat,
    tasksByStatus: map<string, nat>,
    epics: seq<Epic>, features: seq<Feature>, tasks: seq<DevTask>)

  /** The number of tasks of ts in status s. */
  function CountOf(ts: seq<DevTask>, s: TaskStatus): nat {
    if ts == [] then 0
    else CountOf(ts[..|ts| - 1], s) + (if ts[|ts| - 1].status == s then 1 else 0)
  }

  /** `groupBy { it.status.name }.mapValues { it.value.size }` */
  function GroupCounts(ts: seq<DevTask>): map<string, nat> {
    if ts == [] then map[]
    else
      var m := GroupCounts(ts[..|ts| - 1]);
      var key := StatusName(ts[|ts| - 1].status);
      m[key := (if key in m then m[key] else 0) + 1]
  }

  /** Every status with a task gets its count under its name; no other key
   *  appears. */
  lemma {:induction false} GroupCountsExact(ts: seq<DevTask>, s: TaskStatus)
    ensures var m := GroupCounts(ts);
      && (StatusName(s) in m <==> CountOf(ts, s) > 0)
      && (StatusName(s) in m ==> m[StatusName(s)] == CountOf(ts, s))
  {
    if ts != [] {
      GroupCountsExact(ts[..|ts| - 1], s);
      StatusNameInjective(s, ts[|ts| - 1].status);
    }
  }

  lemma {:induction false} GroupCountsKeys(ts: seq<DevTask>, key: string)
    ensures key in GroupCounts(ts) ==> exists s :: key == StatusName(s) && CountOf(ts, s) > 0
  {
    if ts != [] && key in GroupCounts(ts) {
      var last := ts[|ts| - 1].status;
      if key == StatusName(last) {
        assert CountOf(ts, last) > 0;
      } else {
        GroupCountsKeys(ts[..|ts| - 1], key);
        var s :| key == StatusName(s) && CountOf(ts[..|ts| - 1], s) > 0;
        assert CountOf(ts, s) > 0;
      }
    }
  }

  /** The counts of all fourteen statuses added up. */
  function CountAll(ts: seq<DevTask>): nat {
    CountOf(ts, CREATED) + CountOf(ts, PLANNED) + CountOf(ts, READY) + CountOf(ts, IN_PROGRESS)
    + CountOf(ts, PR_OPENED) + CountOf(ts, REVIEWING) + CountOf(ts, CHANGES_REQUESTED)
    + CountOf(ts, APPROVED) + CountOf(ts, MERGED) + CountOf(ts, TESTING) + CountOf(ts, TEST_PASSED)
    + CountOf(ts, TEST_FAILED) + CountOf(ts, BUG_CREATED) + CountOf(ts, DEPLOYED)
  }

  /** The per-status counts add up to the total. */
  lemma {:induction false} CountsAddUp(ts: seq<DevTask>)
    ensures CountAll(ts) == |ts|
  {
    if ts != [] {
      CountsAddUp(ts[..|ts| - 1]);
    }
  }

  /** `getProjectStatus`: a missing project throws; otherwise the project's
   *  epics, features and tasks with the task counts per status name. */
  function GetProjectStatus(store: Store, projectId: Id): (r: Result<StatusReport, StoreError>)
    reads store
    requires store.Valid()
    ensures r.Err? <==> !store.HasProject(projectId)
    ensures r.Err? ==> r.error == IllegalArgument("Project " + Text.IntToString(projectId) + " not found")
    ensures r.Ok? ==>
      && r.value.projectId == projectId
      && r.value.tasks == store.GetTasksByProject(projectId, None)
      && r.value.totalTasks == |r.value.tasks|
      && r.value.epics == store.GetEpicsByProject(projectId)
      && r.value.features == store.GetFeaturesByProject(projectId)
  {
    match store.GetProject(projectId)
    case None => Err(IllegalArgument("Project " + Text.IntToString(projectId) + " not found"))
    case Some(project) =>
      var tasks := store.GetTasksByProject(projectId, None);
      Ok(StatusReport(project.id, project.name, |tasks|, GroupCounts(tasks),
        store.GetEpicsByProject(projectId), store.GetFeaturesByProject(projectId), tasks))
  }

  /** The report's counts: each key names a status, each count is the
   *  number of the project's tasks in that status, and over all statuses
   *  they add up to the total. */
  lemma ReportCounts(store: Store, projectId: Id, s: TaskStatus)
    requires store.Valid() && store.HasProject(projectId)
    ensures var rep := GetProjectStatus(store, projectId).value;
      && (StatusName(s) in rep.tasksByStatus <==> CountOf(rep.tasks, s) > 0)
      && (StatusName(s) in rep.tasksByStatus ==> rep.tasksByStatus[StatusName(s)] == CountOf(rep.tasks, s))
      && (forall key :: key in rep.tasksByStatus ==> exists s' :: key == StatusName(s'))
      && CountAll(rep.tasks) == rep.totalTasks
  {
    var rep := GetProjectStatus(store, projectId).value;
    GroupCountsExact(rep.tasks, s);
    forall key | key in rep.tasksByStatus ensures exists s' :: key == StatusName(s') {
      GroupCountsKeys(rep.tasks, key);
    }
    CountsAddUp(rep.tasks);
  }
}
