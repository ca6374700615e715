/** The parts of the graph store that do not talk to the database: the
 *  relation-name sanitiser and the context a related-facts query returns. */
module Neo4jStore {
  import Text
  import opened MemoryLayer

  /** The characters a relation type may keep: [A-Z0-9_]. */
  predicate RelationChar(c: char) {
    Text.IsUpper(c) || Text.IsDigit(c) || c == '_'
  }

  /** Upper-case the character, then replace it by '_' when it is outside
   *  [A-Z0-9_]. */
  function SanitizeChar(c: char): (d: char)
    ensures RelationChar(d)
    ensures RelationChar(c) ==> d == c
  {
    var u := Text.UpperChar(c);
    if RelationChar(u) then u else '_'
  }

  /** `sanitizeRelation`: upper-case, replace every character outside
   *  [A-Z0-9_] by '_', keep at most 50 characters. */
  function SanitizeRelation(relation: string): (r: string)
    ensures |r| == if |relation| <= 50 then |relation| else 50
    ensures forall i :: 0 <= i < |r| ==> RelationChar(r[i]) && r[i] == SanitizeChar(relation[i])
  {
    var replaced := seq(|relation|, i requires 0 <= i < |relation| => SanitizeChar(relation[i]));
    Text.Take(replaced, 50)
  }

  /** A relation that is already safe and short comes back unchanged. */
  lemma SafeRelationUnchanged(relation: string)
    requires |relation| <= 50 && forall i :: 0 <= i < |relation| ==> RelationChar(relation[i])
    ensures SanitizeRelation(relation) == relation
  {
  }

  /** Sanitising twice is sanitising once. */
  lemma SanitizeIdempotent(relation: string)
    ensures SanitizeRelation(SanitizeRelation(relation)) == SanitizeRelation(relation)
  {
    SafeRelationUnchanged(SanitizeRelation(relation));
  }

  /** `queryRelated`: an empty entity list answers an empty context without
   *  running the query. Otherwise `matches` gives the facts whose subject is
   *  one of the entities, in the database's order; `LIMIT 50` keeps the
   *  first 50 of them, and the context carries the caller's entities. */
  function QueryRelated(entities: seq<string>, matches: seq<string> -> seq<Fact>): (r: GraphContext)
    ensures r.entities == entities
    ensures entities == [] ==> r.facts == []
    ensures entities != [] ==> r.facts <= matches(entities) && |r.facts| <= 50
    ensures entities != [] && |matches(entities)| <= 50 ==> r.facts == matches(entities)
  {
    if entities == [] then GraphContext([], entities)
    else GraphContext(Text.Take(matches(entities), 50), entities)
  }
}
