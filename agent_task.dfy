/** The unit of work handed to an agent, and the entity words the memory
 *  layer uses to query the knowledge graph. */
module AgentTasks {
  import opened Wrappers
  import Text
  import opened AgentSteps

  datatype AgentTask = AgentTask(
    description: string,
    context: string,
    constraints: seq<string>,
    parentTaskId: Option<string>)

  /** A task built with the constructor's defaults: no context, no
   *  constraints, no parent. */
  function NewTask(description: string): (t: AgentTask)
    ensures t.description == description && t.context == "" && t.constraints == [] && t.parentTaskId.None?
  {
    AgentTask(description, "", [], None)
  }

  const TechnicalTerms: seq<string> := [
    "kotlin", "ktor", "coroutine", "flow", "channel",
    "sealed", "data class", "suspend", "gradle",
    "rest", "websocket", "api", "json", "database",
    "postgresql", "neo4j", "docker", "test", "junit"]

  predicate HasTechnicalTerm(word: string) {
    exists k :: 0 <= k < |TechnicalTerms| && Text.ContainsIgnoreCase(word, TechnicalTerms[k])
  }

  /** The filter of `entities()`: a nonempty word that starts with an upper
   *  case letter, contains a dot, or contains a technical term in any case. */
  predicate IsEntity(word: string) {
    word != [] && (Text.IsUpper(word[0]) || '.' in word || HasTechnicalTerm(word))
  }

  /** The entity words of a list, in list order. */
  function KeepEntities(words: seq<string>): (r: seq<string>)
    ensures forall i :: 0 <= i < |r| ==> r[i] in words && IsEntity(r[i])
    ensures forall w :: w in words && IsEntity(w) ==> w in r
  {
    if words == [] then []
    else (if IsEntity(words[0]) then [words[0]] else []) + KeepEntities(words[1..])
  }

  /** `entities()`: the distinct entity words of the description. */
  function Entities(t: AgentTask): (r: seq<string>)
    ensures forall i :: 0 <= i < |r| ==> r[i] in Text.SplitWs(t.description) && IsEntity(r[i])
    ensures forall w :: w in Text.SplitWs(t.description) && IsEntity(w) ==> w in r
    ensures forall i, j :: 0 <= i < j < |r| ==> r[i] != r[j]
    ensures forall i :: 0 <= i < |r| ==> r[i] != ""
  {
    Text.Distinct(KeepEntities(Text.SplitWs(t.description)))
  }

  /** The entities keep the order of first occurrence: a word added at the
   *  end of the filtered list shows up at the end of the entities exactly
   *  when it was not seen before. */
  lemma EntitiesInFirstOccurrenceOrder(words: seq<string>, w: string)
    requires IsEntity(w)
    ensures Text.Distinct(KeepEntities(words + [w])) ==
            Text.Distinct(KeepEntities(words)) + (if w in KeepEntities(words) then [] else [w])
  {
    KeepEntitiesSnoc(words, w);
    Text.DistinctSnoc(KeepEntities(words), w);
  }

  lemma {:induction false} KeepEntitiesSnoc(words: seq<string>, w: string)
    ensures KeepEntities(words + [w]) == KeepEntities(words) + (if IsEntity(w) then [w] else [])
  {
    if words == [] {
      assert words + [w] == [w];
    } else {
      assert (words + [w])[1..] == words[1..] + [w];
      KeepEntitiesSnoc(words[1..], w);
    }
  }

  /** The term "data class" holds a space, so no word of the white-space
   *  split can contain it: that entry of the term list never selects a word. */
  lemma DataClassNeverMatches(word: string)
    requires forall j :: 0 <= j < |word| ==> !Text.IsWs(word[j])
    ensures !Text.ContainsIgnoreCase(word, "data class")
  {
    var lw, lp := Text.Lower(word), Text.Lower("data class");
    assert lp[4] == ' ';
    forall i | 0 <= i <= |lw| - |lp| ensures !Text.OccursAt(lw, lp, i) {
      assert lw[i..i + |lp|][4] == lw[i + 4] == Text.LowerChar(word[i + 4]) != ' ';
    }
  }

  /** `fromDelegation`: the delegated task is the delegation's description,
   *  with its reason as context and its constraints, and no parent. */
  function FromDelegation(d: DelegationContext): (t: AgentTask)
    ensures t.description == d.taskDescription && t.context == d.reason
    ensures t.constraints == d.constraints && t.parentTaskId.None?
  {
    AgentTask(d.taskDescription, d.reason, d.constraints, None)
  }
}
