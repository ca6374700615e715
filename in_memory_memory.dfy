/** The memory layer used when no database is configured: a bounded list
 *  of the most recent episodes, a list of facts and a session map. */
module InMemoryMemory {
  import opened Wrappers
  import Text
  import opened AgentSteps
  import opened AgentTasks
  import opened MemoryLayer

  const MaxEpisodes: nat := 100

  /** A fact mentions an entity as its subject or its object. */
  predicate Mentions(f: Fact, entities: seq<string>) {
    f.subject in entities || f.objectEntity in entities
  }

  /** The facts that mention one of the entities as subject or object, in
   *  insertion order. */
  function Related(facts: seq<Fact>, entities: seq<string>): (r: seq<Fact>)
    ensures forall f :: f in r <==> f in facts && Mentions(f, entities)
    ensures |r| <= |facts|
    ensures (forall i :: 0 <= i < |facts| ==> Mentions(facts[i], entities)) ==> r == facts
  {
    if facts == [] then []
    else
      var last := facts[|facts| - 1];
      var r := Related(facts[..|facts| - 1], entities) + (if Mentions(last, entities) then [last] else []);
      assert facts == facts[..|facts| - 1] + [last];
      r
  }

  /** The filter keeps order and duplicates: the related facts of two lists
   *  one after the other are those of the first followed by those of the
   *  second. With the membership and length clauses of `Related`, this
   *  fixes the result for every list. */
  lemma {:induction false} RelatedConcat(a: seq<Fact>, b: seq<Fact>, entities: seq<string>)
    ensures Related(a + b, entities) == Related(a, entities) + Related(b, entities)
    decreases |b|
  {
    if b == [] {
      assert a + b == a;
    } else {
      var front := b[..|b| - 1];
      var last := b[|b| - 1];
      assert (a + b)[..|a + b| - 1] == a + front;
      assert (a + b)[|a + b| - 1] == last;
      RelatedConcat(a, front, entities);
    }
  }

  /** The buffer is a sliding window: the last 100 of what was there plus a
   *  new episode are the last 100 of the whole history plus that episode. */
  lemma {:induction false} WindowSlides<T>(history: seq<T>, e: T, n: nat)
    ensures Text.TakeLast(Text.TakeLast(history, n) + [e], n) == Text.TakeLast(history + [e], n)
  {
    var w := Text.TakeLast(history, n);
    var all := history + [e];
    if |history| > n && n > 0 {
      assert w + [e] == all[|all| - n - 1..];
      assert (w + [e])[|w + [e]| - n..] == all[|all| - n..];
    } else if n == 0 {
      assert Text.TakeLast(w + [e], n) == [] == Text.TakeLast(all, n);
    }
  }

  class InMemoryMemoryLayer {
    var episodes: seq<Episode>
    var facts: seq<Fact>
    var sessions: map<string, string>
    /** Every episode ever stored, oldest first. */
    ghost var history: seq<Episode>

    /** The buffer holds the latest 100 episodes of the history, in order. */
    ghost predicate Valid()
      reads this
    {
      episodes == Text.TakeLast(history, MaxEpisodes)
    }

    constructor ()
      ensures Valid() && history == [] && episodes == [] && facts == [] && sessions == map[]
    {
      episodes, facts, sessions := [], [], map[];
      history := [];
    }

    /** `recallSimilar`: the query is ignored; the last `limit` episodes in
     *  stored order. A negative limit makes `takeLast` throw. */
    method RecallSimilar(query: string, limit: int) returns (r: Result<seq<Episode>, string>)
      ensures limit < 0 <==> r.Err?
      ensures limit >= 0 ==> r.Ok? && |r.value| == (if |episodes| <= limit then |episodes| else limit)
      ensures limit >= 0 ==> r.Ok? && r.value == episodes[|episodes| - |r.value|..]
    {
      if limit < 0 {
        return Err("Requested element count " + Text.IntToString(limit) + " is less than zero.");
      }
      r := Ok(Text.TakeLast(episodes, limit));
    }

    /** `queryGraph`: the related facts, echoing the entities. */
    method QueryGraph(entities: seq<string>) returns (r: GraphContext)
      ensures r.entities == entities
      ensures r.facts == Related(facts, entities)
      ensures forall f :: f in r.facts <==> f in facts && Mentions(f, entities)
    {
      r := GraphContext(Related(facts, entities), entities);
    }

    /** `storeEpisode`: appends the episode, then drops the oldest until at
     *  most 100 remain. */
    method StoreEpisode(task: AgentTask, trajectory: seq<AgentStep>, outcome: AgentStep, now: int)
      requires Valid() && outcome.Answer?
      modifies this
      ensures history == old(history) + [Episode(task.description, Text.NatToString(|trajectory|) + " steps", 0.7, outcome.artifacts, now)]
      ensures Valid() && |episodes| <= MaxEpisodes
      ensures episodes == Text.TakeLast(old(episodes) + [history[|history| - 1]], MaxEpisodes)
      ensures facts == old(facts) && sessions == old(sessions)
    {
      var e := Episode(task.description, Text.NatToString(|trajectory|) + " steps", 0.7, outcome.artifacts, now);
      WindowSlides(history, e, MaxEpisodes);
      history := history + [e];
      episodes := episodes + [e];
      ghost var all := episodes;
      while |episodes| > MaxEpisodes
        invariant |episodes| <= |all| && episodes == all[|all| - |episodes|..]
        invariant |all| > MaxEpisodes ==> |episodes| >= MaxEpisodes
        invariant |all| <= MaxEpisodes ==> episodes == all
        invariant facts == old(facts) && sessions == old(sessions) && history == old(history) + [e]
        decreases |episodes|
      {
        episodes := episodes[1..];
      }
    }

    /** `updateGraph`: appends every fact, duplicates included. */
    method UpdateGraph(newFacts: seq<Fact>)
      modifies this
      ensures facts == old(facts) + newFacts
      ensures episodes == old(episodes) && history == old(history) && sessions == old(sessions)
    {
      facts := facts + newFacts;
    }

    /** `getSessionContext`: the last value written, or "". */
    function GetSessionContext(sessionId: string): (r: string)
      reads this
      ensures sessionId !in sessions ==> r == ""
      ensures sessionId in sessions ==> r == sessions[sessionId]
    {
      if sessionId in sessions then sessions[sessionId] else ""
    }

    /** `updateSessionContext`: this session now reads as written, the
     *  others as before. */
    method UpdateSessionContext(sessionId: string, context: string)
      modifies this
      ensures sessions == old(sessions)[sessionId := context]
      ensures GetSessionContext(sessionId) == context
      ensures forall other :: other != sessionId ==> GetSessionContext(other) == old(GetSessionContext(other))
      ensures episodes == old(episodes) && history == old(history) && facts == old(facts)
    {
      sessions := sessions[sessionId := context];
    }
  }
}
