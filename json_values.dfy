/** Parsed JSON, as the kotlinx element tree the core inspects. Parsing
 *  itself is a parameter wherever it is used. */
module JsonValues {
  import opened Wrappers

  datatype Json =
    | JNull
    | JBool(b: bool)
    | JNumber(literal: string)
    | JString(text: string)
    | JArray(items: seq<Json>)
    | JObject(fields: map<string, Json>)
  {
    predicate IsPrimitive() { !JArray? && !JObject? }
  }

  /** `(x as? JsonPrimitive)?.content`: the text of a primitive, None for
   *  an array or an object. */
  function Content(j: Json): (r: Option<string>)
    ensures r.Some? <==> j.IsPrimitive()
  {
    match j
    case JNull => Some("null")
    case JBool(b) => Some(if b then "true" else "false")
    case JNumber(t) => Some(t)
    case JString(t) => Some(t)
    case _ => None
  }

  /** `obj[key]` on an object; None for a missing key or a non-object. */
  function Field(j: Json, key: string): (r: Option<Json>)
    ensures r.Some? <==> j.JObject? && key in j.fields
  {
    if j.JObject? && key in j.fields then Some(j.fields[key]) else None
  }

  /** `(obj[key] as? JsonPrimitive)?.content` */
  function StringField(j: Json, key: string): Option<string> {
    match Field(j, key)
    case Some(v) => Content(v)
    case None => None
  }

  /* The typed views of kotlinx.serialization (`jsonObject`, `jsonArray`,
   * `jsonPrimitive`) throw IllegalArgumentException on an element of
   * another kind; Err carries that exception's message. */

  const NotAnObject := "Element is not a JsonObject"
  const NotAnArray := "Element is not a JsonArray"
  const NotAPrimitive := "Element is not a JsonPrimitive"

  /** `x.jsonObject` */
  function AsObject(j: Json): (r: Result<map<string, Json>, string>)
    ensures r.Ok? <==> j.JObject?
    ensures r.Ok? ==> r.value == j.fields
  {
    if j.JObject? then Ok(j.fields) else Err(NotAnObject)
  }

  /** `x.jsonPrimitive.content`; JSON null reads as "null". */
  function AsContent(j: Json): (r: Result<string, string>)
    ensures r.Ok? <==> j.IsPrimitive()
    ensures r.Ok? ==> Content(j) == Some(r.value)
  {
    match Content(j)
    case Some(t) => Ok(t)
    case None => Err(NotAPrimitive)
  }

  /** `obj[key]?.jsonPrimitive?.content`: None for a missing key. */
  function ContentAt(fields: map<string, Json>, key: string): (r: Result<Option<string>, string>)
    ensures key !in fields ==> r == Ok(None)
    ensures key in fields ==> (r.Ok? <==> fields[key].IsPrimitive())
    ensures key in fields && r.Ok? ==> r.value == Content(fields[key])
  {
    if key !in fields then Ok(None)
    else match Content(fields[key])
      case Some(t) => Ok(Some(t))
      case None => Err(NotAPrimitive)
  }

  /** `obj[key]?.jsonObject`: None for a missing key. */
  function ObjectAt(fields: map<string, Json>, key: string): (r: Result<Option<map<string, Json>>, string>)
    ensures key !in fields ==> r == Ok(None)
    ensures key in fields ==> (r.Ok? <==> fields[key].JObject?)
    ensures key in fields && r.Ok? ==> r.value == Some(fields[key].fields)
  {
    if key !in fields then Ok(None)
    else if fields[key].JObject? then Ok(Some(fields[key].fields))
    else Err(NotAnObject)
  }

  /** `obj[key]?.jsonArray`: None for a missing key. */
  function ArrayAt(fields: map<string, Json>, key: string): (r: Result<Option<seq<Json>>, string>)
    ensures key !in fields ==> r == Ok(None)
    ensures key in fields ==> (r.Ok? <==> fields[key].JArray?)
    ensures key in fields && r.Ok? ==> r.value == Some(fields[key].items)
  {
    if key !in fields then Ok(None)
    else if fields[key].JArray? then Ok(Some(fields[key].items))
    else Err(NotAnArray)
  }

  /** `entries.associate { (k, v) -> k to v.jsonPrimitive.content }`: the
   *  same keys, each with its value's text; a nested array or object
   *  throws. */
  function ContentEntries(fields: map<string, Json>): (r: Result<map<string, string>, string>)
    ensures r.Ok? <==> forall k :: k in fields ==> fields[k].IsPrimitive()
    ensures r.Ok? ==> r.value.Keys == fields.Keys
    ensures r.Ok? ==> forall k :: k in fields ==> Content(fields[k]) == Some(r.value[k])
  {
    if forall k :: k in fields ==> fields[k].IsPrimitive()
    then Ok(map k | k in fields :: Content(fields[k]).value)
    else Err(NotAPrimitive)
  }

  /** Past a first element that is inspected and does not match, the
   *  search over the rest decides the search over all. */
  lemma FirstWithStep(items: seq<Json>, key: string, value: string, rest: Result<Option<map<string, Json>>, string>)
    requires items != [] && Inspectable(items, 0, key) && !HasContent(items, 0, key, value)
    requires rest.Ok? && rest.value.Some? ==> exists i ::
      && HasContent(items[1..], i, key, value) && items[1..][i].fields == rest.value.value
      && forall x :: 0 <= x < i ==> Inspectable(items[1..], x, key) && !HasContent(items[1..], x, key, value)
    requires rest == Ok(None) <==>
      forall x :: 0 <= x < |items[1..]| ==> Inspectable(items[1..], x, key) && !HasContent(items[1..], x, key, value)
    ensures rest.Ok? && rest.value.Some? ==> exists i ::
      && HasContent(items, i, key, value) && items[i].fields == rest.value.value
      && forall x :: 0 <= x < i ==> Inspectable(items, x, key) && !HasContent(items, x, key, value)
    ensures rest == Ok(None) <==> forall x :: 0 <= x < |items| ==> Inspectable(items, x, key) && !HasContent(items, x, key, value)
  {
    var tail := items[1..];
    assert forall x :: 1 <= x < |items| ==>
      (Inspectable(items, x, key) <==> Inspectable(tail, x - 1, key)) &&
      (HasContent(items, x, key, value) <==> HasContent(tail, x - 1, key, value));
    if rest.Ok? && rest.value.Some? {
      var i :| HasContent(tail, i, key, value) && tail[i].fields == rest.value.value
        && forall x :: 0 <= x < i ==> Inspectable(tail, x, key) && !HasContent(tail, x, key, value);
      assert HasContent(items, i + 1, key, value);
    }
    if rest != Ok(None) {
      var x :| 0 <= x < |tail| && !(Inspectable(tail, x, key) && !HasContent(tail, x, key, value));
      assert !(Inspectable(items, x + 1, key) && !HasContent(items, x + 1, key, value));
    }
  }

  /** Element i is an object whose key holds the given text. */
  predicate HasContent(items: seq<Json>, i: int, key: string, value: string) {
    0 <= i < |items| && items[i].JObject? && ContentAt(items[i].fields, key) == Ok(Some(value))
  }

  /** Element i can be looked at without throwing: an object whose key is
   *  missing or holds a primitive. */
  predicate Inspectable(items: seq<Json>, i: int, key: string) {
    0 <= i < |items| && items[i].JObject? && ContentAt(items[i].fields, key).Ok?
  }

  /** `firstOrNull { it.jsonObject[key]?.jsonPrimitive?.content == value }`:
   *  the elements are looked at in order until one matches, and one that
   *  cannot be looked at before that throws. */
  function FirstWith(items: seq<Json>, key: string, value: string): (r: Result<Option<map<string, Json>>, string>)
    ensures r.Ok? && r.value.Some? ==> exists i ::
      && HasContent(items, i, key, value) && items[i].fields == r.value.value
      && forall x :: 0 <= x < i ==> Inspectable(items, x, key) && !HasContent(items, x, key, value)
    ensures r == Ok(None) <==> forall x :: 0 <= x < |items| ==> Inspectable(items, x, key) && !HasContent(items, x, key, value)
  {
    if items == [] then Ok(None)
    else if !Inspectable(items, 0, key) then
      if items[0].JObject? then Err(NotAPrimitive) else Err(NotAnObject)
    else if HasContent(items, 0, key, value) then
      Ok(Some(items[0].fields))
    else
      var rest := FirstWith(items[1..], key, value);
      FirstWithStep(items, key, value, rest);
      rest
  }
}
