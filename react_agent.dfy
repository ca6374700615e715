/** The ReAct loop of one agent: ask the reasoning capability for the next
 *  step, run the tool it names, and stop on an answer, a delegation, a fatal
 *  error, an exhausted retry budget or an exhausted iteration budget. */
module ReActAgent {
  import opened Wrappers
  import Text
  import opened AgentRoles
  import opened AgentSteps

  /** The confidence threshold is kept in tenths; it only selects a log line. */
  datatype AgentConfig = AgentConfig(
    maxIterations: int,
    maxRetries: int,
    toolTimeoutMs: int,
    confidenceTenths: nat,
    tokenBudget: int)

  const DefaultConfig: AgentConfig := AgentConfig(10, 3, 30000, 7, 50000)

  /** What one call of the reasoning capability did: returned a step or threw. */
  datatype Reply = Returned(step: AgentStep) | Threw(message: string)

  /** What one tool execution did: returned, threw, or ran past the timeout. */
  datatype ToolOutcome = Completed(result: ToolResult) | Raised(message: string) | TimedOut

  datatype ToolRun = ToolRun(outcome: ToolOutcome, durationMs: nat)

  /** The agent and what it is given. The system prompt, built once from memory
   *  before the loop, is folded into reason, which sees the trajectory so far.
   *  A tool run sees its input and the trajectory up to its Act. */
  datatype Env = Env(
    cfg: AgentConfig,
    role: AgentRole,
    reason: seq<AgentStep> -> Reply,
    tools: set<string>,
    runTool: (string, map<string, string>, seq<AgentStep>) -> ToolRun)

  /** How execute ends: it returns an Answer or throws one of three exceptions. */
  datatype Outcome =
    | Answered(answer: AgentStep)
    | AgentFailure(message: string)
    | Delegated(delegation: AgentStep)
    | MaxIterationsExceeded(iterations: int)

  /** The outcome, the final trajectory and the number of loop passes, which is
   *  the number of calls of the reasoning capability. */
  datatype Run = Run(outcome: Outcome, trajectory: seq<AgentStep>, calls: nat)

  function Max(a: int, b: int): int { if a < b then b else a }

  /** The message once the retry budget is spent. */
  function RetriesExceededMessage(cfg: AgentConfig, m: string): string {
    "Max retries (" + Text.IntToString(cfg.maxRetries) + ") exceeded: " + m
  }

  /** The same message as the template in the source renders it: `$config`
   *  interpolates the whole configuration and ".maxRetries" stays literal. */
  function RetriesExceededMessageAsWritten(cfg: AgentConfig, m: string): string {
    "Max retries (" + ConfigString(cfg) + ".maxRetries) exceeded: " + m
  }

  /** Which rendering of the retries message a run uses: the template as the
   *  source writes it, or the message evidently intended. */
  datatype Template = AsWritten | Intended

  function RetriesText(tpl: Template, cfg: AgentConfig, m: string): string {
    match tpl
    case AsWritten => RetriesExceededMessageAsWritten(cfg, m)
    case Intended => RetriesExceededMessage(cfg, m)
  }

  /** The data class's `toString`. */
  function ConfigString(cfg: AgentConfig): string {
    "AgentConfig(" + ConfigFields(cfg) + ")"
  }

  /** The properties between the parentheses, in declaration order. */
  function ConfigFields(cfg: AgentConfig): string {
    "maxIterations=" + Text.IntToString(cfg.maxIterations)
    + ", maxRetries=" + Text.IntToString(cfg.maxRetries)
    + ", toolTimeoutMs=" + Text.IntToString(cfg.toolTimeoutMs)
    + ", confidenceThreshold=" + Text.NatToString(cfg.confidenceTenths / 10) + "." + Text.NatToString(cfg.confidenceTenths % 10)
    + ", tokenBudget=" + Text.IntToString(cfg.tokenBudget)
  }

  /** The as-written message never shows the budget as a bare number: it
   *  starts with the configuration's class name instead. */
  lemma RetriesMessageShowsConfig(m: string)
    ensures Text.StartsWith(RetriesExceededMessageAsWritten(DefaultConfig, m), "Max retries (AgentConfig(")
    ensures Text.StartsWith(RetriesExceededMessage(DefaultConfig, m), "Max retries (3)")
    ensures RetriesExceededMessageAsWritten(DefaultConfig, m) != RetriesExceededMessage(DefaultConfig, m)
  {
    assert DefaultConfig.maxRetries == 3;
    RetriesMessageWithThree(DefaultConfig, m);
  }

  lemma RetriesMessageWithThree(cfg: AgentConfig, m: string)
    requires cfg.maxRetries == 3
    ensures Text.StartsWith(RetriesExceededMessageAsWritten(cfg, m), "Max retries (AgentConfig(")
    ensures Text.StartsWith(RetriesExceededMessage(cfg, m), "Max retries (3)")
    ensures RetriesExceededMessageAsWritten(cfg, m) != RetriesExceededMessage(cfg, m)
  {
    AsWrittenStart(cfg, m);
    IntendedStart(cfg, m);
    var w := RetriesExceededMessageAsWritten(cfg, m);
    var c := RetriesExceededMessage(cfg, m);
    assert w[13] == "Max retries (AgentConfig("[13] == 'A';
    assert c[13] == "Max retries (3)"[13] == '3';
  }

  lemma AsWrittenStart(cfg: AgentConfig, m: string)
    ensures Text.StartsWith(RetriesExceededMessageAsWritten(cfg, m), "Max retries (AgentConfig(")
  {
    var head := "Max retries (";
    var cs := ConfigString(cfg);
    StartsWithAppend("AgentConfig(", "AgentConfig(", ConfigFields(cfg));
    StartsWithAppend("AgentConfig(" + ConfigFields(cfg), "AgentConfig(", ")");
    StartsWithBoth(head, cs, "AgentConfig(");
    assert head + "AgentConfig(" == "Max retries (AgentConfig(";
    StartsWithAppend(head + cs, "Max retries (AgentConfig(", ".maxRetries) exceeded: ");
    StartsWithAppend(head + cs + ".maxRetries) exceeded: ", "Max retries (AgentConfig(", m);
  }

  lemma IntendedStart(cfg: AgentConfig, m: string)
    requires cfg.maxRetries == 3
    ensures Text.StartsWith(RetriesExceededMessage(cfg, m), "Max retries (3)")
  {
    assert Text.IntToString(3) == "3";
    var c0 := "Max retries (" + "3" + ") exceeded: ";
    assert c0[..15] == "Max retries (3)";
    StartsWithAppend(c0, "Max retries (3)", m);
  }

  lemma StartsWithAppend(s: string, p: string, t: string)
    requires Text.StartsWith(s, p)
    ensures Text.StartsWith(s + t, p)
  {
    assert (s + t)[..|p|] == s[..|p|];
  }

  lemma StartsWithBoth(p: string, q: string, r: string)
    requires Text.StartsWith(q, r)
    ensures Text.StartsWith(p + q, p + r)
  {
    assert (p + q)[..|p + r|] == p + q[..|r|];
  }

  /** The step that enters the trajectory: the reply, or the Error that a
   *  thrown call becomes. */
  function ReplyStep(env: Env, traj: seq<AgentStep>, retry: int): AgentStep {
    match env.reason(traj)
    case Returned(s) => s
    case Threw(m) => Error("LLM cagri hatasi: " + m, retry < env.cfg.maxRetries, Some("Tekrar dene"))
  }

  function ToolResultOf(env: Env, name: string, run: ToolRun): ToolResult {
    match run.outcome
    case Completed(r) => r
    case Raised(m) => Failure("Tool exception: " + m, true)
    case TimedOut => Failure("Tool timeout (" + Text.IntToString(env.cfg.toolTimeoutMs) + "ms): " + name, true)
  }

  /** The Observe the loop appends after an Act; t ends with that Act. */
  function ObserveFor(env: Env, act: AgentStep, t: seq<AgentStep>): (r: AgentStep)
    requires act.Act?
    ensures r.Observe? && r.toolName == act.toolName
    ensures act.toolName !in env.tools ==>
      r.result == Failure("Bilinmeyen tool: " + act.toolName, true) && r.durationMs == 0
    ensures act.toolName in env.tools && !env.runTool(act.toolName, act.toolInput, t).outcome.Completed? ==>
      r.result.Failure? && r.result.retryable
  {
    if act.toolName !in env.tools then
      Observe(act.toolName, Failure("Bilinmeyen tool: " + act.toolName, true), 0)
    else
      var run := env.runTool(act.toolName, act.toolInput, t);
      Observe(act.toolName, ToolResultOf(env, act.toolName, run), run.durationMs)
  }

  /** Tool names of the Act steps, in trajectory order. */
  function ActNames(t: seq<AgentStep>): seq<string> {
    if t == [] then []
    else (if t[0].Act? then [t[0].toolName] else []) + ActNames(t[1..])
  }

  /** Sum of the Observe durations. */
  function ObserveDurations(t: seq<AgentStep>): int {
    if t == [] then 0
    else (if t[0].Observe? then t[0].durationMs else 0) + ObserveDurations(t[1..])
  }

  function CountActs(t: seq<AgentStep>): nat {
    if t == [] then 0 else (if t[0].Act? then 1 else 0) + CountActs(t[1..])
  }

  function RecoverableErrors(t: seq<AgentStep>): nat {
    if t == [] then 0 else (if t[0].Error? && t[0].recoverable then 1 else 0) + RecoverableErrors(t[1..])
  }

  function Metadata(role: AgentRole, t: seq<AgentStep>): AnswerMetadata {
    AnswerMetadata(|t|, Text.Distinct(ActNames(t)), ObserveDurations(t), [role])
  }

  datatype Next = Continue(trajectory: seq<AgentStep>, retries: int) | Stop(outcome: Outcome, trajectory: seq<AgentStep>)

  /** One pass of the loop body. */
  function Iterate(tpl: Template, env: Env, traj: seq<AgentStep>, retry: int): Next {
    var step := ReplyStep(env, traj, retry);
    var t := traj + [step];
    match step
    case Think(_, _) => Continue(t, retry)
    case Act(_, _, _) => Continue(t + [ObserveFor(env, step, t)], retry)
    case Answer(c, arts, _) => Stop(Answered(Answer(c, arts, Some(Metadata(env.role, t)))), t)
    case Delegate(_, _) => Stop(Delegated(step), t)
    case Error(m, rec, _) =>
      if !rec then Stop(AgentFailure(m), t)
      else if retry + 1 >= env.cfg.maxRetries then Stop(AgentFailure(RetriesText(tpl, env.cfg, m)), t)
      else Continue(t, retry + 1)
    case Observe(_, _, _) => Continue(t, retry)
  }

  /** The rest of a run from a loop state. */
  function RunFrom(tpl: Template, env: Env, traj: seq<AgentStep>, iteration: nat, retry: int): Run
    decreases env.cfg.maxIterations - iteration
  {
    if iteration >= env.cfg.maxIterations then Run(MaxIterationsExceeded(env.cfg.maxIterations), traj, iteration)
    else
      match Iterate(tpl, env, traj, retry)
      case Continue(t, r) => RunFrom(tpl, env, t, iteration + 1, r)
      case Stop(o, t) => Run(o, t, iteration + 1)
  }

  /** `execute` */
  method Execute(env: Env) returns (r: Run)
    ensures r == RunFrom(AsWritten, env, [], 0, 0)
  {
    var trajectory: seq<AgentStep> := [];
    var iteration: nat := 0;
    var retryCount := 0;
    while iteration < env.cfg.maxIterations
      invariant RunFrom(AsWritten, env, [], 0, 0) == RunFrom(AsWritten, env, trajectory, iteration, retryCount)
      decreases env.cfg.maxIterations - iteration
    {
      ghost var before, retryBefore := trajectory, retryCount;
      iteration := iteration + 1;
      var nextStep: AgentStep;
      var reply := env.reason(trajectory);
      match reply {
        case Returned(s) => nextStep := s;
        case Threw(m) => nextStep := Error("LLM cagri hatasi: " + m, retryCount < env.cfg.maxRetries, Some("Tekrar dene"));
      }
      trajectory := trajectory + [nextStep];
      match nextStep {
        case Think(_, _) =>
        case Act(name, input, _) =>
          if name !in env.tools {
            trajectory := trajectory + [Observe(name, Failure("Bilinmeyen tool: " + name, true), 0)];
          } else {
            var run := env.runTool(name, input, trajectory);
            var result: ToolResult;
            match run.outcome {
              case Completed(res) => result := res;
              case Raised(m) => result := Failure("Tool exception: " + m, true);
              case TimedOut => result := Failure("Tool timeout (" + Text.IntToString(env.cfg.toolTimeoutMs) + "ms): " + name, true);
            }
            trajectory := trajectory + [Observe(name, result, run.durationMs)];
          }
        case Answer(content, artifacts, _) =>
          var enriched := Answer(content, artifacts, Some(AnswerMetadata(|trajectory|, Text.Distinct(ActNames(trajectory)), ObserveDurations(trajectory), [env.role])));
          return Run(Answered(enriched), trajectory, iteration);
        case Delegate(_, _) =>
          return Run(Delegated(nextStep), trajectory, iteration);
        case Error(message, recoverable, _) =>
          if !recoverable {
            return Run(AgentFailure(message), trajectory, iteration);
          }
          retryCount := retryCount + 1;
          if retryCount >= env.cfg.maxRetries {
            return Run(AgentFailure(RetriesExceededMessageAsWritten(env.cfg, message)), trajectory, iteration);
          }
        case Observe(_, _, _) =>
      }
      assert Iterate(AsWritten, env, before, retryBefore) == Continue(trajectory, retryCount);
    }
    return Run(MaxIterationsExceeded(env.cfg.maxIterations), trajectory, iteration);
  }

  // ---- properties of a run ----

  /** The reasoning capability is called at least once per loop pass already
   *  made and never more than the iteration budget allows; running out of
   *  budget means every allowed pass was made. */
  lemma {:induction false} CallsBounded(tpl: Template, env: Env, traj: seq<AgentStep>, it: nat, retry: int)
    ensures it <= RunFrom(tpl, env, traj, it, retry).calls <= Max(it, env.cfg.maxIterations)
    ensures RunFrom(tpl, env, traj, it, retry).outcome.MaxIterationsExceeded? ==>
      RunFrom(tpl, env, traj, it, retry).calls == Max(it, env.cfg.maxIterations)
    decreases env.cfg.maxIterations - it
  {
    if it < env.cfg.maxIterations {
      match Iterate(tpl, env, traj, retry)
      case Continue(t, r) => CallsBounded(tpl, env, t, it + 1, r);
      case Stop(_, _) =>
    }
  }

  lemma CallsAtMostBudget(env: Env)
    ensures RunFrom(AsWritten, env, [], 0, 0).calls <= Max(0, env.cfg.maxIterations)
    ensures RunFrom(AsWritten, env, [], 0, 0).outcome.MaxIterationsExceeded? ==>
      RunFrom(AsWritten, env, [], 0, 0).calls == Max(0, env.cfg.maxIterations)
  {
    CallsBounded(AsWritten, env, [], 0, 0);
  }

  lemma {:induction false} CountActsAppend(t: seq<AgentStep>, x: AgentStep)
    ensures CountActs(t + [x]) == CountActs(t) + (if x.Act? then 1 else 0)
  {
    if t != [] {
      assert (t + [x])[1..] == t[1..] + [x];
      CountActsAppend(t[1..], x);
    }
  }

  lemma {:induction false} RecoverableAppend(t: seq<AgentStep>, x: AgentStep)
    ensures RecoverableErrors(t + [x]) == RecoverableErrors(t) + (if x.Error? && x.recoverable then 1 else 0)
  {
    if t != [] {
      assert (t + [x])[1..] == t[1..] + [x];
      RecoverableAppend(t[1..], x);
    }
  }

  /** Every loop pass adds the reply and, after an Act, exactly one Observe:
   *  the trajectory holds one step per call plus one per tool run. */
  lemma {:induction false} TrajectoryLength(tpl: Template, env: Env, traj: seq<AgentStep>, it: nat, retry: int)
    requires |traj| == it + CountActs(traj)
    ensures var r := RunFrom(tpl, env, traj, it, retry); |r.trajectory| == r.calls + CountActs(r.trajectory)
    decreases env.cfg.maxIterations - it
  {
    if it < env.cfg.maxIterations {
      var step := ReplyStep(env, traj, retry);
      var t := traj + [step];
      CountActsAppend(traj, step);
      if step.Act? {
        CountActsAppend(t, ObserveFor(env, step, t));
      }
      match Iterate(tpl, env, traj, retry)
      case Continue(t', r) => TrajectoryLength(tpl, env, t', it + 1, r);
      case Stop(_, _) =>
    }
  }

  /** Each Act in a trajectory is immediately followed by the Observe of the
   *  tool it names, run on the trajectory up to that Act. */
  predicate ActsObserved(env: Env, t: seq<AgentStep>) {
    forall i :: 0 <= i < |t| && t[i].Act? ==>
      i + 1 < |t| && t[i + 1] == ObserveFor(env, t[i], t[..i + 1])
  }

  lemma AppendKeepsObserved(env: Env, t: seq<AgentStep>, x: AgentStep)
    requires ActsObserved(env, t) && !x.Act?
    ensures ActsObserved(env, t + [x])
  {
    var u := t + [x];
    forall i | 0 <= i < |u| && u[i].Act?
      ensures i + 1 < |u| && u[i + 1] == ObserveFor(env, u[i], u[..i + 1])
    {
      assert i < |t| && u[i] == t[i];
      assert u[..i + 1] == t[..i + 1];
    }
  }

  lemma AppendActKeepsObserved(env: Env, t: seq<AgentStep>, act: AgentStep)
    requires ActsObserved(env, t) && act.Act?
    ensures ActsObserved(env, t + [act] + [ObserveFor(env, act, t + [act])])
  {
    var o := ObserveFor(env, act, t + [act]);
    var u := t + [act] + [o];
    forall i | 0 <= i < |u| && u[i].Act?
      ensures i + 1 < |u| && u[i + 1] == ObserveFor(env, u[i], u[..i + 1])
    {
      if i < |t| {
        assert u[i] == t[i] && u[i + 1] == t[i + 1];
        assert u[..i + 1] == t[..i + 1];
      } else {
        assert i == |t|;
        assert u[..i + 1] == t + [act];
      }
    }
  }

  lemma {:induction false} RunKeepsObserved(tpl: Template, env: Env, traj: seq<AgentStep>, it: nat, retry: int)
    requires ActsObserved(env, traj)
    ensures ActsObserved(env, RunFrom(tpl, env, traj, it, retry).trajectory)
    decreases env.cfg.maxIterations - it
  {
    if it < env.cfg.maxIterations {
      var step := ReplyStep(env, traj, retry);
      if step.Act? {
        AppendActKeepsObserved(env, traj, step);
      } else {
        AppendKeepsObserved(env, traj, step);
      }
      match Iterate(tpl, env, traj, retry)
      case Continue(t, r) => RunKeepsObserved(tpl, env, t, it + 1, r);
      case Stop(_, _) =>
    }
  }

  lemma EveryActObserved(env: Env)
    ensures ActsObserved(env, RunFrom(AsWritten, env, [], 0, 0).trajectory)
    ensures |RunFrom(AsWritten, env, [], 0, 0).trajectory| == RunFrom(AsWritten, env, [], 0, 0).calls + CountActs(RunFrom(AsWritten, env, [], 0, 0).trajectory)
  {
    RunKeepsObserved(AsWritten, env, [], 0, 0);
    TrajectoryLength(AsWritten, env, [], 0, 0);
  }

  /** How a run ends is read off its last step: an Answer is returned with
   *  metadata computed from the whole trajectory, a Delegate is rethrown as
   *  such, a failure follows an Error, and only the budget ends a run whose
   *  last reply did not stop it. */
  lemma {:induction false} OutcomeMatchesLastStep(tpl: Template, env: Env, traj: seq<AgentStep>, it: nat, retry: int)
    ensures var r := RunFrom(tpl, env, traj, it, retry);
      && (r.outcome.Answered? ==>
            |r.trajectory| > 0 && r.trajectory[|r.trajectory| - 1].Answer?
            && r.outcome.answer == Answer(r.trajectory[|r.trajectory| - 1].content,
                                          r.trajectory[|r.trajectory| - 1].artifacts,
                                          Some(Metadata(env.role, r.trajectory))))
      && (r.outcome.Delegated? ==>
            |r.trajectory| > 0 && r.outcome.delegation == r.trajectory[|r.trajectory| - 1]
            && r.outcome.delegation.Delegate?)
      && (r.outcome.AgentFailure? ==> |r.trajectory| > 0 && r.trajectory[|r.trajectory| - 1].Error?)
      && (r.outcome.MaxIterationsExceeded? ==> r.outcome.iterations == env.cfg.maxIterations)
    decreases env.cfg.maxIterations - it
  {
    if it < env.cfg.maxIterations {
      match Iterate(tpl, env, traj, retry)
      case Continue(t, r) => OutcomeMatchesLastStep(tpl, env, t, it + 1, r);
      case Stop(_, _) =>
    }
  }

  /** The retry counter equals the number of recoverable Errors so far. A run
   *  fails on a recoverable Error exactly when that Error spends the budget,
   *  with the retries message; otherwise it fails with the Error's own text. */
  lemma {:induction false} RetryAccounting(tpl: Template, env: Env, traj: seq<AgentStep>, it: nat, retry: int)
    requires retry == RecoverableErrors(traj) && retry < Max(1, env.cfg.maxRetries)
    ensures var r := RunFrom(tpl, env, traj, it, retry);
      RecoverableErrors(r.trajectory) <= Max(1, env.cfg.maxRetries) && FailureExplained(tpl, env, r.outcome, r.trajectory)
    decreases env.cfg.maxIterations - it
  {
    if it < env.cfg.maxIterations {
      PassAccounting(tpl, env, traj, retry);
      match Iterate(tpl, env, traj, retry)
      case Continue(t, r) => RetryAccounting(tpl, env, t, it + 1, r);
      case Stop(_, _) =>
    }
  }

  /** A failure outcome ending the trajectory t is explained by its last
   *  step, an Error, and by the count of recoverable Errors in t. */
  predicate FailureExplained(tpl: Template, env: Env, o: Outcome, t: seq<AgentStep>) {
    o.AgentFailure? ==>
      |t| > 0 && t[|t| - 1].Error?
      && var last := t[|t| - 1];
         (last.recoverable <==> RecoverableErrors(t) == Max(1, env.cfg.maxRetries))
         && o.message == (if last.recoverable then RetriesText(tpl, env.cfg, last.message) else last.message)
  }

  /** One loop pass keeps the retry counter equal to the recoverable Errors
   *  seen, below the budget while the run goes on. */
  lemma PassAccounting(tpl: Template, env: Env, traj: seq<AgentStep>, retry: int)
    requires retry == RecoverableErrors(traj) && retry < Max(1, env.cfg.maxRetries)
    ensures Iterate(tpl, env, traj, retry).Continue? ==>
      var r := Iterate(tpl, env, traj, retry).retries;
      r == RecoverableErrors(Iterate(tpl, env, traj, retry).trajectory) && r < Max(1, env.cfg.maxRetries)
    ensures Iterate(tpl, env, traj, retry).Stop? ==>
      var n := Iterate(tpl, env, traj, retry);
      RecoverableErrors(n.trajectory) <= Max(1, env.cfg.maxRetries) && FailureExplained(tpl, env, n.outcome, n.trajectory)
  {
    var step := ReplyStep(env, traj, retry);
    RecoverableAppend(traj, step);
    if step.Act? {
      RecoverableAppend(traj + [step], ObserveFor(env, step, traj + [step]));
    }
  }

  lemma FailuresExplained(env: Env)
    ensures var r := RunFrom(AsWritten, env, [], 0, 0);
      r.outcome.AgentFailure? ==>
        |r.trajectory| > 0 && r.trajectory[|r.trajectory| - 1].Error?
        && var last := r.trajectory[|r.trajectory| - 1];
           (last.recoverable <==> RecoverableErrors(r.trajectory) == Max(1, env.cfg.maxRetries))
           && r.outcome.message == (if last.recoverable then RetriesExceededMessageAsWritten(env.cfg, last.message) else last.message)
  {
    RetryAccounting(AsWritten, env, [], 0, 0);
  }

  /** While retries remain, a thrown reasoning call is recoverable: it either
   *  spends one retry or ends the run with the retries message. */
  lemma ThrowIsRecoverable(tpl: Template, env: Env, traj: seq<AgentStep>, retry: int)
    requires retry < env.cfg.maxRetries && env.reason(traj).Threw?
    ensures Iterate(tpl, env, traj, retry).Continue? ==> Iterate(tpl, env, traj, retry).retries == retry + 1
    ensures Iterate(tpl, env, traj, retry).Stop? ==>
      Iterate(tpl, env, traj, retry).outcome
        == AgentFailure(RetriesText(tpl, env.cfg, "LLM cagri hatasi: " + env.reason(traj).message))
  {
  }

  /** A reasoning capability that only ever thinks runs out of iterations
   *  after exactly the budgeted number of calls. */
  lemma {:induction false} ThinkingForever(tpl: Template, env: Env, traj: seq<AgentStep>, it: nat, retry: int)
    requires forall t :: env.reason(t).Returned? && env.reason(t).step.Think?
    ensures RunFrom(tpl, env, traj, it, retry).outcome == MaxIterationsExceeded(env.cfg.maxIterations)
    ensures RunFrom(tpl, env, traj, it, retry).calls == Max(it, env.cfg.maxIterations)
    decreases env.cfg.maxIterations - it
  {
    if it < env.cfg.maxIterations {
      assert Iterate(tpl, env, traj, retry).Continue?;
      ThinkingForever(tpl, env, Iterate(tpl, env, traj, retry).trajectory, it + 1, retry);
    }
  }

  /** A reasoning capability that only ever reports recoverable errors fails
   *  after exactly maxRetries calls when the iteration budget allows that many. */
  lemma {:induction false} RecoverableErrorsForever(tpl: Template, env: Env, traj: seq<AgentStep>, k: nat)
    requires forall t :: env.reason(t).Returned? && env.reason(t).step.Error? && env.reason(t).step.recoverable
    requires k < env.cfg.maxRetries <= env.cfg.maxIterations
    ensures RunFrom(tpl, env, traj, k, k).outcome.AgentFailure?
    ensures RunFrom(tpl, env, traj, k, k).calls == env.cfg.maxRetries
    ensures var r := RunFrom(tpl, env, traj, k, k);
      |r.trajectory| > 0 && r.trajectory[|r.trajectory| - 1].Error?
      && r.outcome.message == RetriesText(tpl, env.cfg, r.trajectory[|r.trajectory| - 1].message)
    decreases env.cfg.maxRetries - k
  {
    var n := Iterate(tpl, env, traj, k);
    if k + 1 < env.cfg.maxRetries {
      assert n.Continue? && n.retries == k + 1;
      RecoverableErrorsForever(tpl, env, n.trajectory, k + 1);
    } else {
      var step := ReplyStep(env, traj, k);
      assert n == Stop(AgentFailure(RetriesText(tpl, env.cfg, step.message)), traj + [step]);
    }
  }

  /** The loop as written: once three recoverable Errors spend the budget,
   *  the failure shows the whole configuration where the budget belongs. */
  lemma ExhaustedRetriesShowConfig(env: Env)
    requires forall t :: env.reason(t).Returned? && env.reason(t).step.Error? && env.reason(t).step.recoverable
    requires env.cfg.maxRetries == 3 <= env.cfg.maxIterations
    ensures var r := RunFrom(AsWritten, env, [], 0, 0);
      r.outcome.AgentFailure? && Text.StartsWith(r.outcome.message, "Max retries (AgentConfig(")
  {
    RecoverableErrorsForever(AsWritten, env, [], 0);
    var r := RunFrom(AsWritten, env, [], 0, 0);
    AsWrittenStart(env.cfg, r.trajectory[|r.trajectory| - 1].message);
  }

  /** The loop with the intended message: the same run fails with "Max
   *  retries (3) exceeded: " followed by the last Error's text. */
  lemma ExhaustedRetriesIntended(env: Env)
    requires forall t :: env.reason(t).Returned? && env.reason(t).step.Error? && env.reason(t).step.recoverable
    requires env.cfg.maxRetries == 3 <= env.cfg.maxIterations
    ensures var r := RunFrom(Intended, env, [], 0, 0);
      && r.outcome.AgentFailure? && |r.trajectory| > 0 && r.trajectory[|r.trajectory| - 1].Error?
      && r.outcome.message == "Max retries (3) exceeded: " + r.trajectory[|r.trajectory| - 1].message
  {
    RecoverableErrorsForever(Intended, env, [], 0);
    assert Text.IntToString(3) == "3";
  }
}
