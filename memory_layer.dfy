/** The memory layer's values: past episodes, facts of the knowledge graph,
 *  and the graph context rendered into a prompt. */
module MemoryLayer {
  import Text
  import opened AgentSteps

  /** A stored episode. Its score is a real number; the creation time is
   *  the clock reading passed in when the episode is built. */
  datatype Episode = Episode(
    taskDescription: string,
    trajectorySummary: string,
    outcomeScore: real,
    artifacts: seq<CodeArtifact>,
    createdAt: int)

  datatype Fact = Fact(subject: string, relation: string, objectEntity: string)

  datatype GraphContext = GraphContext(facts: seq<Fact>, entities: seq<string>)

  /** One fact as a prompt line: "subject --[relation]--> object". */
  function FactLine(f: Fact): (line: string)
    ensures |line| >= 8
  {
    f.subject + " --[" + f.relation + "]--> " + f.objectEntity
  }

  function FactLines(facts: seq<Fact>): (r: seq<string>)
    ensures |r| == |facts| && forall i :: 0 <= i < |facts| ==> r[i] == FactLine(facts[i])
  {
    seq(|facts|, i requires 0 <= i < |facts| => FactLine(facts[i]))
  }

  /** `toPromptString`: empty without facts, else one line per fact. */
  function ToPromptString(g: GraphContext): (r: string)
    ensures r == "" <==> g.facts == []
  {
    if g.facts == [] then ""
    else
      var lines := FactLines(g.facts);
      JoinNonEmpty(lines, "\n");
      Text.Join(lines, "\n")
  }

  lemma {:induction false} JoinNonEmpty(parts: seq<string>, sep: string)
    requires parts != [] && parts[0] != ""
    ensures Text.Join(parts, sep) != ""
  {
    if |parts| > 1 {
      assert Text.Join(parts, sep) == parts[0] + sep + Text.Join(parts[1..], sep);
      assert |Text.Join(parts, sep)| >= |parts[0]|;
    }
  }

  /** The lines follow the facts in order, separated by single newlines with
   *  none after the last: one more fact adds a newline and its line. */
  lemma PromptStringAppend(facts: seq<Fact>, f: Fact, entities: seq<string>)
    ensures ToPromptString(GraphContext(facts + [f], entities)) ==
            if facts == [] then FactLine(f)
            else ToPromptString(GraphContext(facts, entities)) + "\n" + FactLine(f)
  {
    assert FactLines(facts + [f]) == FactLines(facts) + [FactLine(f)];
    if facts != [] {
      Text.JoinSnoc(FactLines(facts), FactLine(f), "\n");
    }
  }

  /** The entities of a context play no part in its prompt text. */
  lemma PromptStringIgnoresEntities(facts: seq<Fact>, e1: seq<string>, e2: seq<string>)
    ensures ToPromptString(GraphContext(facts, e1)) == ToPromptString(GraphContext(facts, e2))
  {
  }
}
