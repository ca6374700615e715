/** The production memory layer: episodes in a vector store, facts in a
 *  graph store, session notes in a map. The embedding client and both
 *  stores are collaborators whose calls return a value or throw; every
 *  failure is absorbed here. */
module DualMemory {
  import opened Wrappers
  import Text
  import opened AgentRoles
  import opened AgentSteps
  import opened AgentTasks
  import opened MemoryLayer

  type Embedding = seq<real>

  /** The row handed to the vector store: the score in tenths. */
  datatype EpisodeRow = EpisodeRow(
    taskDescription: string,
    trajectorySummary: string,
    scoreTenths: int,
    artifacts: seq<CodeArtifact>,
    embedding: Embedding)

  /** The collaborators. Err carries the message of the exception thrown. */
  datatype Backend = Backend(
    embed: string -> Result<Embedding, string>,
    querySimilar: (Embedding, int) -> Result<seq<Episode>, string>,
    insertEpisode: EpisodeRow -> Result<(), string>,
    queryRelated: seq<string> -> Result<GraphContext, string>,
    mergeFacts: seq<Fact> -> Result<(), string>)

  /** The number of Error steps in a trajectory (`count { it is Error }`). */
  function ErrorCount(t: seq<AgentStep>): (n: nat)
    ensures n <= |t|
    ensures n == 0 <==> forall i :: 0 <= i < |t| ==> !t[i].Error?
    ensures n == |t| <==> forall i :: 0 <= i < |t| ==> t[i].Error?
  {
    if t == [] then 0
    else
      assert forall i :: 1 <= i < |t| ==> t[1..][i - 1] == t[i];
      (if t[0].Error? then 1 else 0) + ErrorCount(t[1..])
  }

  /** Counting errors splits over the parts of a trajectory. */
  lemma {:induction false} ErrorCountAppend(a: seq<AgentStep>, b: seq<AgentStep>)
    ensures ErrorCount(a + b) == ErrorCount(a) + ErrorCount(b)
  {
    if a != [] {
      assert (a + b)[0] == a[0] && (a + b)[1..] == a[1..] + b;
      ErrorCountAppend(a[1..], b);
    } else {
      assert a + b == b;
    }
  }

  function Clamp(x: int, lo: int, hi: int): int
    requires lo <= hi
  {
    if x < lo then lo else if x > hi then hi else x
  }

  /** The score formula in tenths: 5, plus 2 with artifacts, minus 1 per
   *  error step, minus 1 beyond eight steps, clamped to [0, 10]. */
  function Score(hasArtifacts: bool, errors: nat, steps: nat): (s: int)
    ensures 0 <= s <= 10
  {
    Clamp(5 + (if hasArtifacts then 2 else 0) - errors - (if steps > 8 then 1 else 0), 0, 10)
  }

  /** `calculateScore`, adjusting the score step by step. */
  method CalculateScore(outcome: AgentStep, trajectory: seq<AgentStep>) returns (score: int)
    requires outcome.Answer?
    ensures score == Score(|outcome.artifacts| > 0, ErrorCount(trajectory), |trajectory|)
    ensures 0 <= score <= 10
  {
    score := 5;
    if |outcome.artifacts| > 0 {
      score := score + 2;
    }
    var errorCount := ErrorCount(trajectory);
    score := score - errorCount;
    if |trajectory| > 8 {
      score := score - 1;
    }
    score := Clamp(score, 0, 10);
  }

  /** A clean short run without artifacts scores 0.5, one with artifacts 0.7. */
  lemma ScoreBaseline(steps: nat)
    requires steps <= 8
    ensures Score(false, 0, steps) == 5 && Score(true, 0, steps) == 7
  {
  }

  /** Artifacts never lower the score; more errors or a long run never raise
   *  it, and lower it strictly while the score stays above 0. */
  lemma ScoreMonotone(a: bool, e: nat, s: nat, e2: nat, s2: nat)
    requires e <= e2 && s <= s2
    ensures Score(false, e, s) <= Score(true, e, s)
    ensures Score(a, e2, s2) <= Score(a, e, s)
    ensures Score(a, e, s) > 0 && Score(a, e, s) < 10 && e < e2 ==> Score(a, e2, s) < Score(a, e, s)
  {
  }

  /** One trajectory step in the summary. */
  function Segment(step: AgentStep): (r: string)
    ensures step.Observe? ==> Text.StartsWith(r, "Observe: " + step.toolName + " -> ")
    ensures step.Observe? ==> Text.EndsWith(r, if step.result.Success? then "success" else "failure")
  {
    match step
    case Think(thought, _) => "Think: " + Text.Take16(thought, 100)
    case Act(name, _, reasoning) => "Act: " + name + "(" + Text.Take16(reasoning, 50) + ")"
    case Observe(name, result, _) =>
      var prefix := "Observe: " + name + " -> ";
      var kind := if result.Success? then "success" else "failure";
      assert (prefix + kind)[..|prefix|] == prefix;
      assert (prefix + kind)[|prefix + kind| - |kind|..] == kind;
      prefix + kind
    case Answer(content, _, _) => "Answer: " + Text.Take16(content, 100)
    case Error(message, _, _) => "Error: " + Text.Take16(message, 100)
    case Delegate(target, _) => "Delegate: -> " + RoleName(target)
  }

  function Segments(t: seq<AgentStep>): (r: seq<string>)
    ensures |r| == |t| && forall i :: 0 <= i < |t| ==> r[i] == Segment(t[i])
  {
    seq(|t|, i requires 0 <= i < |t| => Segment(t[i]))
  }

  /** `summarizeTrajectory`: the segments joined by " | ". */
  function Summarize(t: seq<AgentStep>): string {
    Text.Join(Segments(t), " | ")
  }

  /** One segment per step, in trajectory order: a step added at the end
   *  adds " | " and its segment. */
  lemma SummaryAppend(t: seq<AgentStep>, step: AgentStep)
    ensures Summarize(t + [step]) == if t == [] then Segment(step) else Summarize(t) + " | " + Segment(step)
  {
    assert Segments(t + [step]) == Segments(t) + [Segment(step)];
    if t != [] {
      Text.JoinSnoc(Segments(t), Segment(step), " | ");
    }
  }

  class Memory {
    const backend: Backend
    var sessions: map<string, string>

    constructor (backend: Backend)
      ensures this.backend == backend && sessions == map[]
    {
      this.backend := backend;
      sessions := map[];
    }

    /** `recallSimilar`: the store's nearest episodes, or none when the
     *  embedding or the query fails. */
    method RecallSimilar(query: string, limit: int) returns (r: seq<Episode>)
      ensures backend.embed(query).Err? ==> r == []
      ensures backend.embed(query).Ok? ==>
        r == match backend.querySimilar(backend.embed(query).value, limit)
             case Ok(episodes) => episodes
             case Err(_) => []
    {
      match backend.embed(query)
      case Err(_) => r := [];
      case Ok(embedding) =>
        match backend.querySimilar(embedding, limit)
        case Ok(episodes) => r := episodes;
        case Err(_) => r := [];
    }

    /** `storeEpisode`: the row sent to the vector store, or None when the
     *  embedding fails first. A failing insert is absorbed as well. */
    method StoreEpisode(task: AgentTask, trajectory: seq<AgentStep>, outcome: AgentStep) returns (sent: Option<EpisodeRow>)
      requires outcome.Answer?
      ensures sent.Some? <==> backend.embed(task.description).Ok?
      ensures sent.Some? ==> sent.value == EpisodeRow(task.description, Summarize(trajectory),
        Score(|outcome.artifacts| > 0, ErrorCount(trajectory), |trajectory|), outcome.artifacts,
        backend.embed(task.description).value)
    {
      var summary := Summarize(trajectory);
      match backend.embed(task.description)
      case Err(_) => sent := None;
      case Ok(embedding) =>
        var score := CalculateScore(outcome, trajectory);
        var row := EpisodeRow(task.description, summary, score, outcome.artifacts, embedding);
        var _ := backend.insertEpisode(row);
        sent := Some(row);
    }

    /** `queryGraph`: the graph store's context, or an empty one that echoes
     *  the entities when the query fails. */
    method QueryGraph(entities: seq<string>) returns (r: GraphContext)
      ensures backend.queryRelated(entities).Ok? ==> r == backend.queryRelated(entities).value
      ensures backend.queryRelated(entities).Err? ==> r == GraphContext([], entities)
    {
      match backend.queryRelated(entities)
      case Ok(g) => r := g;
      case Err(_) => r := GraphContext([], entities);
    }

    /** `updateGraph`: the facts go to the graph store; whether the merge
     *  went through is all the caller could learn, since a failure is
     *  absorbed and nothing held here changes. */
    method UpdateGraph(facts: seq<Fact>) returns (merged: bool)
      ensures merged <==> backend.mergeFacts(facts).Ok?
    {
      match backend.mergeFacts(facts)
      case Ok(_) => merged := true;
      case Err(_) => merged := false;
    }

    /** `getSessionContext`: the last value written, or "". */
    function GetSessionContext(sessionId: string): (r: string)
      reads this
      ensures sessionId !in sessions ==> r == ""
      ensures sessionId in sessions ==> r == sessions[sessionId]
    {
      if sessionId in sessions then sessions[sessionId] else ""
    }

    /** `updateSessionContext`: a later read of this session returns the
     *  context written, and every other session reads as before. */
    method UpdateSessionContext(sessionId: string, context: string)
      modifies this
      ensures sessions == old(sessions)[sessionId := context]
      ensures GetSessionContext(sessionId) == context
      ensures forall other :: other != sessionId ==> GetSessionContext(other) == old(GetSessionContext(other))
    {
      sessions := sessions[sessionId := context];
    }
  }
}
