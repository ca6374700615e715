/** The meta-controller: the live `process`, which answers through one chat
 *  call, and the pieces of the multi-agent pipeline it has switched off —
 *  running one plan step on its agent with a single delegation hop, the
 *  fallback plan, handing a failed verification to the fixer, the context a
 *  step gets from the results it depends on, merging the step results into
 *  one response, and the test for a simple message. Agents, the chat call
 *  and the plan decoder are parameters: an agent is a function from its
 *  task to how its run ended. */
module MetaController {
  import opened Wrappers
  import Text
  import Fences
  import opened AgentRoles
  import opened AgentSteps
  import opened AgentModels
  import opened AgentTasks
  import opened ExecutionPlan

  const SystemPrompt := "Sen KAI, cok yetenekli bir AI kod asistanisin.\nKullanicinin dilinde yanit ver (genellikle Turkce).\nKod isteklerinde Kotlin/Ktor oncelikli yaz.\nKod bloklari icin markdown ``` kullan.\nKisa, net ve yardimci ol."
  const Greeting := "Merhaba! Size nasil yardimci olabilirim?"
  const ThinkingNote := "Düşünüyorum..."
  const ChatFailed := "Bir hata olustu: "

  /** What a listener sees and what the caller gets back. */
  datatype Processed = Processed(events: seq<StreamEvent>, response: AgentResponse)

  /** The live `process`: one chat call with the fixed system prompt. The
   *  answer is the reply, the exception's message after a note, or a
   *  greeting when the reply is empty; no plan runs, so the response has
   *  no artifacts and no plan steps and reports a single step. */
  function Process(request: string, chat: (string, string) -> Result<string, string>): (r: Processed)
    ensures r.response.answer != []
    ensures r.events == [Thinking(ThinkingNote), Done(r.response.answer, None)]
    ensures chat(SystemPrompt, request).Ok? && chat(SystemPrompt, request).value != [] ==>
      r.response.answer == chat(SystemPrompt, request).value
    ensures chat(SystemPrompt, request) == Ok([]) ==> r.response.answer == Greeting
    ensures chat(SystemPrompt, request).Err? ==>
      r.response.answer == ChatFailed + chat(SystemPrompt, request).error
    ensures r.response.artifacts == [] && r.response.planSteps == []
    ensures r.response.metadata == Some(AnswerMetadata(1, [], 0, []))
  {
    var answer := match chat(SystemPrompt, request)
      case Ok(t) => t
      case Err(m) => ChatFailed + m;
    var finalAnswer := if answer == [] then Greeting else answer;
    Processed([Thinking(ThinkingNote), Done(finalAnswer, None)],
      AgentResponse(finalAnswer, [], [], Some(AnswerMetadata(1, [], 0, []))))
  }

  /** Whatever the chat call does, the live response reports no plan step
   *  and no artifact, where the pipeline would report one step per plan
   *  step and the artifacts of every step. */
  lemma ProcessReportsNoPlan(request: string, chat: (string, string) -> Result<string, string>)
    ensures Process(request, chat).response.planSteps == []
    ensures Process(request, chat).response.artifacts == []
  {
  }

  // ---------------------------------------------------------------------
  // One plan step

  /** The final answer of an agent's run. */
  type AnswerStep = s: AgentStep | s.Answer? witness Answer("", [], None)

  /** How an agent's `execute` ended: with its answer, by asking to hand
   *  the task over (a DelegationException), or with another exception. */
  datatype Execution =
    | Finished(answer: AnswerStep)
    | Delegating(target: AgentRole, context: DelegationContext)
    | Raised(message: string)

  type Agents = map<AgentRole, AgentTask -> Execution>

  /** The task a step's agent is given. */
  function StepTask(step: PlanStep, previous: map<string, AnswerStep>): (t: AgentTask)
    ensures t.description == step.description && t.constraints == step.constraints
    ensures t.parentTaskId.None?
    ensures step.dependsOn == [] ==> t.context == []
  {
    AgentTask(step.description, BuildStepContext(previous, step.dependsOn), step.constraints, None)
  }

  datatype StepRun = StepRun(events: seq<StreamEvent>, outcome: Execution)

  /** `executeStep`: the step's agent runs the step's task; a request to
   *  delegate is honoured once, by the target agent on the task built from
   *  the delegation; a missing agent or target is an AgentException. */
  function ExecuteStep(step: PlanStep, previous: map<string, AnswerStep>, agents: Agents): (r: StepRun)
    ensures step.assignedAgent !in agents <==> r.events == []
    ensures step.assignedAgent !in agents ==>
      r.outcome == Raised(RoleName(step.assignedAgent) + " icin ajan bulunamadi")
    ensures step.assignedAgent in agents ==>
      r.events == [PlanUpdate(step.id, RUNNING, step.description)]
    ensures step.assignedAgent in agents ==>
      var first := agents[step.assignedAgent](StepTask(step, previous));
      && (!first.Delegating? ==> r.outcome == first)
      && (first.Delegating? && first.target !in agents ==>
            r.outcome == Raised("Delegation target bulunamadi: " + RoleName(first.target)))
      && (first.Delegating? && first.target in agents ==>
            r.outcome == agents[first.target](FromDelegation(first.context)))
  {
    if step.assignedAgent !in agents then
      StepRun([], Raised(RoleName(step.assignedAgent) + " icin ajan bulunamadi"))
    else
      var events := [PlanUpdate(step.id, RUNNING, step.description)];
      match agents[step.assignedAgent](StepTask(step, previous))
      case Delegating(target, context) =>
        if target !in agents then StepRun(events, Raised("Delegation target bulunamadi: " + RoleName(target)))
        else StepRun(events, agents[target](FromDelegation(context)))
      case other => StepRun(events, other)
  }

  /** An answer of a step comes from its own agent or from the agent it
   *  delegated to, and a step that still asks to delegate asked twice: a
   *  delegation is followed for one hop only. */
  lemma StepAnswerOrigin(step: PlanStep, previous: map<string, AnswerStep>, agents: Agents)
    ensures var r := ExecuteStep(step, previous, agents);
      r.outcome.Finished? ==>
        && step.assignedAgent in agents
        && var first := agents[step.assignedAgent](StepTask(step, previous));
        (first == r.outcome
         || (first.Delegating? && first.target in agents
             && agents[first.target](FromDelegation(first.context)) == r.outcome))
    ensures var r := ExecuteStep(step, previous, agents);
      r.outcome.Delegating? ==>
        && step.assignedAgent in agents
        && var first := agents[step.assignedAgent](StepTask(step, previous));
        first.Delegating? && first.target in agents
        && agents[first.target](FromDelegation(first.context)) == r.outcome
  {
  }

  // ---------------------------------------------------------------------
  // Planning

  /** The plan used when the reply cannot be decoded: one Kotlin step for
   *  the code writer holding the whole request. */
  function Fallback(request: string): (s: PlanStep)
    ensures s.id == "step_1" && s.description == request && s.assignedAgent == CODE_WRITER
    ensures s.dependsOn == [] && s.requiresVerification && s.constraints == ["Kotlin"]
  {
    PlanStep("step_1", request, CODE_WRITER, [], true, ["Kotlin"])
  }

  /** `planTask` once the planning reply is in: the decoded JSON of the
   *  reply (fenced or bare), or the fallback plan when decoding throws. */
  function PlanTask(request: string, reply: string, decode: string -> Result<seq<PlanStep>, string>): (r: seq<PlanStep>)
    ensures decode(Fences.ExtractJson(reply)).Ok? ==> r == decode(Fences.ExtractJson(reply)).value
    ensures decode(Fences.ExtractJson(reply)).Err? ==> r == [Fallback(request)]
  {
    match decode(Fences.ExtractJson(reply))
    case Ok(steps) => steps
    case Err(_) => [Fallback(request)]
  }

  /** The fallback plan always runs, in a single wave. */
  lemma FallbackOneWave(request: string)
    ensures WavesFrom([Fallback(request)], {}) == Ok([[Fallback(request)]])
  {
    var s := Fallback(request);
    assert Ready([s], {}) == [s];
    assert Blocked([s], {}) == [];
    assert WavesFrom([], {} + Ids([s])) == Ok([]);
    assert [[s]] + [] == [[s]];
  }

  // ---------------------------------------------------------------------
  // Repair after a failed verification

  /** The task given to the fixer: the description of what to fix, under
   *  the step's constraints. */
  function FixTask(step: PlanStep, description: string): (t: AgentTask)
    ensures t.description == description && t.constraints == step.constraints
    ensures t.context == [] && t.parentTaskId.None?
  {
    AgentTask(description, "", step.constraints, None)
  }

  /** `handleVerificationFailure`: the fixer's answer when there is a fixer
   *  and it answers; the original answer otherwise (no fixer, or the fixer
   *  threw, a request to delegate included). */
  function HandleVerificationFailure(step: PlanStep, original: AnswerStep, agents: Agents, fixDescription: string): (r: AnswerStep)
    ensures r == original || (FIXER in agents && agents[FIXER](FixTask(step, fixDescription)) == Finished(r))
    ensures FIXER !in agents ==> r == original
    ensures FIXER in agents && agents[FIXER](FixTask(step, fixDescription)).Finished? ==>
      r == agents[FIXER](FixTask(step, fixDescription)).answer
  {
    if FIXER !in agents then original
    else match agents[FIXER](FixTask(step, fixDescription))
      case Finished(a) => a
      case _ => original
  }

  // ---------------------------------------------------------------------
  // Context of a step

  /** The dependencies that have a result, in the order they are listed. */
  function Present(results: map<string, AnswerStep>, deps: seq<string>): (r: seq<string>)
    ensures |r| <= |deps|
    ensures forall d :: d in r <==> d in deps && d in results
  {
    if deps == [] then []
    else
      var last := deps[|deps| - 1];
      Present(results, deps[..|deps| - 1]) + (if last in results then [last] else [])
  }

  /** One artifact as a step context shows it. */
  function FileLine(a: CodeArtifact): string {
    "Dosya: " + a.filename + "\n" + a.content
  }

  /** The context entry for the result of dependency id: the first 1000
   *  characters of its answer, then its files. */
  function Entry(id: string, a: AnswerStep): (r: string)
    ensures Text.StartsWith(r, "[" + id + " sonucu]: ")
  {
    var head := "[" + id + " sonucu]: ";
    var r := head + Text.Take16(a.content, 1000) + "\n"
      + Text.Join(seq(|a.artifacts|, i requires 0 <= i < |a.artifacts| => FileLine(a.artifacts[i])), "\n");
    assert r[..|head|] == head;
    r
  }

  function Entries(results: map<string, AnswerStep>, ids: seq<string>): (r: seq<string>)
    requires forall id :: id in ids ==> id in results
    ensures |r| == |ids|
  {
    seq(|ids|, i requires 0 <= i < |ids| => Entry(ids[i], results[ids[i]]))
  }

  /** `buildStepContext`: the entries of the dependencies that have a
   *  result, separated by blank lines; "" without any. */
  function BuildStepContext(results: map<string, AnswerStep>, deps: seq<string>): (r: string)
    ensures Present(results, deps) == [] ==> r == []
  {
    if deps == [] then ""
    else Text.Join(Entries(results, Present(results, deps)), "\n\n")
  }

  /** Listing one more dependency adds its entry at the end when it has a
   *  result, after a blank line when the context was not empty, and
   *  changes nothing when it has none. */
  lemma ContextSnoc(results: map<string, AnswerStep>, deps: seq<string>, d: string)
    ensures BuildStepContext(results, deps + [d]) ==
      if d !in results then BuildStepContext(results, deps)
      else if Present(results, deps) == [] then Entry(d, results[d])
      else BuildStepContext(results, deps) + "\n\n" + Entry(d, results[d])
  {
    PresentSnoc(results, deps, d);
    ContextIsJoin(results, deps);
    ContextIsJoin(results, deps + [d]);
    var p := Present(results, deps);
    var es := Entries(results, p);
    assert es == [] <==> p == [];
    if d in results {
      EntriesSnoc(results, p, d);
      JoinEntriesSnoc(es, Entry(d, results[d]));
    } else {
      assert Present(results, deps + [d]) == p;
    }
  }

  /** The context is the join of the present entries, also without any
   *  dependency, where both are empty. */
  lemma ContextIsJoin(results: map<string, AnswerStep>, deps: seq<string>)
    ensures BuildStepContext(results, deps) == Text.Join(Entries(results, Present(results, deps)), "\n\n")
  {
    if deps == [] {
      assert Entries(results, Present(results, deps)) == [];
    }
  }

  lemma JoinEntriesSnoc(es: seq<string>, e: string)
    ensures Text.Join(es + [e], "\n\n") == if es == [] then e else Text.Join(es, "\n\n") + "\n\n" + e
  {
    if es == [] {
      assert es + [e] == [e];
    } else {
      Text.JoinSnoc(es, e, "\n\n");
    }
  }

  lemma PresentSnoc(results: map<string, AnswerStep>, deps: seq<string>, d: string)
    ensures Present(results, deps + [d]) == Present(results, deps) + (if d in results then [d] else [])
  {
    assert (deps + [d])[..|deps|] == deps;
  }

  lemma EntriesSnoc(results: map<string, AnswerStep>, ids: seq<string>, d: string)
    requires (forall id :: id in ids ==> id in results) && d in results
    ensures Entries(results, ids + [d]) == Entries(results, ids) + [Entry(d, results[d])]
  {
    var a := Entries(results, ids + [d]);
    var b := Entries(results, ids) + [Entry(d, results[d])];
    forall i | 0 <= i < |a| ensures a[i] == b[i] {
      if i < |ids| {
        assert (ids + [d])[i] == ids[i];
      }
    }
  }

  /** The context of a single dependency with a result is its entry. */
  lemma SingleDependencyContext(results: map<string, AnswerStep>, d: string)
    requires d in results
    ensures BuildStepContext(results, [d]) == Entry(d, results[d])
  {
    ContextSnoc(results, [], d);
  }

  // ---------------------------------------------------------------------
  // Merging the step results

  function ToolsOf(v: AgentStep): seq<string> {
    if v.Answer? && v.metadata.Some? then v.metadata.value.toolsUsed else []
  }

  function AgentsOf(v: AgentStep): seq<AgentRole> {
    if v.Answer? && v.metadata.Some? then v.metadata.value.agentsInvolved else []
  }

  /** All artifacts of the results, in order. */
  function AllArtifacts(values: seq<AnswerStep>): (r: seq<CodeArtifact>)
    ensures forall a :: a in r <==> exists i :: 0 <= i < |values| && a in values[i].artifacts
  {
    if values == [] then []
    else
      var init := values[..|values| - 1];
      assert forall i :: 0 <= i < |init| ==> init[i] == values[i];
      AllArtifacts(init) + values[|values| - 1].artifacts
  }

  /** Every tool reported by some result, repeats kept. */
  function AllTools(values: seq<AnswerStep>): (r: seq<string>)
    ensures forall t :: t in r <==> exists i :: 0 <= i < |values| && t in ToolsOf(values[i])
  {
    if values == [] then []
    else
      var init := values[..|values| - 1];
      assert forall i :: 0 <= i < |init| ==> init[i] == values[i];
      AllTools(init) + ToolsOf(values[|values| - 1])
  }

  /** Every agent reported by some result, repeats kept. */
  function AllAgents(values: seq<AnswerStep>): (r: seq<AgentRole>)
    ensures forall g :: g in r <==> exists i :: 0 <= i < |values| && g in AgentsOf(values[i])
  {
    if values == [] then []
    else
      var init := values[..|values| - 1];
      assert forall i :: 0 <= i < |init| ==> init[i] == values[i];
      AllAgents(init) + AgentsOf(values[|values| - 1])
  }

  /** The sum of the durations the results report. */
  function TotalDuration(values: seq<AnswerStep>): int {
    if values == [] then 0
    else
      var v := values[|values| - 1];
      TotalDuration(values[..|values| - 1]) + (if v.metadata.Some? then v.metadata.value.totalDurationMs else 0)
  }

  /** The total of two batches of results is the sum of their totals. */
  lemma {:induction false} TotalDurationAppend(a: seq<AnswerStep>, b: seq<AnswerStep>)
    ensures TotalDuration(a + b) == TotalDuration(a) + TotalDuration(b)
    decreases |b|
  {
    if b != [] {
      assert (a + b)[..|a + b| - 1] == a + b[..|b| - 1];
      TotalDurationAppend(a, b[..|b| - 1]);
    } else {
      assert a + b == a;
    }
  }

  /** The artifacts of two batches of results are those of the first
   *  followed by those of the second. */
  lemma {:induction false} AllArtifactsAppend(a: seq<AnswerStep>, b: seq<AnswerStep>)
    ensures AllArtifacts(a + b) == AllArtifacts(a) + AllArtifacts(b)
    decreases |b|
  {
    if b != [] {
      assert (a + b)[..|a + b| - 1] == a + b[..|b| - 1];
      AllArtifactsAppend(a, b[..|b| - 1]);
    } else {
      assert a + b == a;
    }
  }

  /** Each reported tool once. */
  function MergedTools(values: seq<AnswerStep>): (r: seq<string>)
    ensures forall t :: t in r <==> exists i :: 0 <= i < |values| && t in ToolsOf(values[i])
    ensures forall i, j :: 0 <= i < j < |r| ==> r[i] != r[j]
  {
    Text.DistinctMembers(AllTools(values));
    Text.Distinct(AllTools(values))
  }

  /** Each reported agent once. */
  function MergedAgents(values: seq<AnswerStep>): (r: seq<AgentRole>)
    ensures forall g :: g in r <==> exists i :: 0 <= i < |values| && g in AgentsOf(values[i])
    ensures forall i, j :: 0 <= i < j < |r| ==> r[i] != r[j]
  {
    Text.DistinctMembers(AllAgents(values));
    Text.Distinct(AllAgents(values))
  }

  /** `synthesizeResults` over the results in the order they were stored:
   *  the last answer (or a closing note), every artifact, the plan step
   *  reports, their number, the summed duration and each tool and agent
   *  once. */
  function SynthesizeResults(values: seq<AnswerStep>, stepResults: seq<PlanStepResult>): (r: AgentResponse)
    ensures values == [] ==> r.answer == "Islem tamamlandi."
    ensures values != [] ==> r.answer == values[|values| - 1].content
    ensures r.artifacts == AllArtifacts(values) && r.planSteps == stepResults
    ensures r.metadata == Some(AnswerMetadata(|stepResults|, MergedTools(values),
      TotalDuration(values), MergedAgents(values)))
  {
    var lastAnswer := if values == [] then "Islem tamamlandi." else values[|values| - 1].content;
    AgentResponse(lastAnswer, AllArtifacts(values), stepResults,
      Some(AnswerMetadata(|stepResults|, MergedTools(values), TotalDuration(values), MergedAgents(values))))
  }

  // ---------------------------------------------------------------------
  // Simple messages

  const CodeWords: seq<string> := ["```", "kod", "code", "yaz", "write", "create", "oluştur",
    "implement", "fix", "düzelt", "debug", "refactor"]

  /** The message as it is looked at: trimmed, then lower-cased. */
  function Lowered(message: string): string {
    Text.Lower(Text.Trim(message))
  }

  /** `isSimpleMessage`: at most five words and none of the code words. */
  predicate IsSimpleMessage(message: string) {
    var lower := Lowered(message);
    |Text.SplitWs(lower)| <= 5 && forall k :: 0 <= k < |CodeWords| ==> !Text.Contains(lower, CodeWords[k])
  }

  /** A character of a code word: a backtick or a character at or after
   *  'a', so neither white space nor an upper-case letter. */
  predicate PlainChar(c: char) {
    c == '`' || 'a' <= c
  }

  /** The code words are non-empty and made of such characters. */
  lemma CodeWordsPlain()
    ensures forall k :: 0 <= k < |CodeWords| ==>
      CodeWords[k] != [] && forall j :: 0 <= j < |CodeWords[k]| ==> PlainChar(CodeWords[k][j])
  {
    assert PlainChar("refactor"[7]);
  }

  /** A message that names a code word anywhere, fence included, is never
   *  simple. */
  lemma CodeWordNeverSimple(message: string, k: nat, i: int)
    requires k < |CodeWords| && Text.OccursAt(message, CodeWords[k], i)
    ensures !IsSimpleMessage(message)
  {
    var w := CodeWords[k];
    CodeWordsPlain();
    Text.TrimKeeps(message, w, i);
    var t := Text.Trim(message);
    var m :| 0 <= m <= |t| - |w| && Text.OccursAt(t, w, m);
    Text.LowerKeeps(t, w, m);
    assert Text.Contains(Lowered(message), w);
  }

  /** A message holding a code fence is never simple. */
  lemma FenceNeverSimple(message: string, i: int)
    requires Text.OccursAt(message, "```", i)
    ensures !IsSimpleMessage(message)
  {
    CodeWordNeverSimple(message, 0, i);
  }

  /** A blank message is simple. */
  lemma BlankIsSimple(message: string)
    requires Text.IsBlank(message)
    ensures IsSimpleMessage(message)
  {
    Text.TrimBlank(message);
    assert Lowered(message) == [];
    assert Text.SplitWs([]) == [[]];
    CodeWordsPlain();
    forall k | 0 <= k < |CodeWords| ensures !Text.Contains([], CodeWords[k]) {
      assert CodeWords[k] != [];
    }
  }
}
