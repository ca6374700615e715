/** How the Anthropic messages client turns a reply into the next agent
 *  step: the status check, `parseResponse`, the text of a `chat` reply and
 *  the naming of code artifacts. The request and the HTTP call are not
 *  modelled: a reply arrives as its status, its body and the outcome of
 *  parsing the body (Err carries the parser's exception message). */
module AnthropicClient {
  import opened Wrappers
  import Text
  import opened JsonValues
  import opened AgentSteps
  import opened LlmReplies

  const Starter := "Görevi başlat. Düşün ve uygun aracı kullan."
  const RateLimitAdvice := "Rate limit, bekle ve tekrar dene"

  /** The `messages` of a request: those converted from the trajectory, or
   *  a single user message starting the task when there are none. */
  function RequestMessages(converted: seq<Message>): (r: seq<Message>)
    ensures r != []
    ensures converted != [] ==> r == converted
    ensures converted == [] ==> |r| == 1 && r[0].role == "user" && r[0].content == Starter
  {
    if converted == [] then [Message("user", Starter)] else converted
  }

  /** The Error for a status outside 200..299: the body in it is cut at
   *  200 characters, only 429 and the server errors may be retried, and
   *  only 429 comes with advice. */
  function StatusError(status: Status, body: string): (r: AgentStep)
    requires !IsSuccess(status)
    ensures r.Error?
    ensures r.recoverable <==> 429 <= status.value <= 599
    ensures r.suggestedAction.Some? <==> status.value == 429
    ensures Text.EndsWith(r.message, Text.Take16(body, 200))
  {
    var head := "LLM API hatasi: " + StatusText(status) + " - ";
    Text.EndsWithAppended(head, Text.Take16(body, 200));
    Error(head + Text.Take16(body, 200), 429 <= status.value <= 599,
      if status.value == 429 then Some(RateLimitAdvice) else None)
  }

  /** `languageExtension`, on the lower-cased language name. */
  function LanguageExtension(language: string): (r: string)
    ensures r in {"kt", "java", "xml", "json", "yml", "gradle.kts", "txt"}
    ensures r == "txt" <==> Text.Lower(language) !in {"kotlin", "kt", "java", "xml", "json", "yaml", "yml", "groovy", "gradle"}
  {
    match Text.Lower(language)
    case "kotlin" => "kt"
    case "kt" => "kt"
    case "java" => "java"
    case "xml" => "xml"
    case "json" => "json"
    case "yaml" => "yml"
    case "yml" => "yml"
    case "groovy" => "gradle.kts"
    case "gradle" => "gradle.kts"
    case _ => "txt"
  }

  /** Upper or lower case in a fence's info word does not change the
   *  extension. */
  lemma ExtensionIgnoresCase(a: string, b: string)
    requires Text.Lower(a) == Text.Lower(b)
    ensures LanguageExtension(a) == LanguageExtension(b)
  {
  }

  /** `extractCodeArtifacts` */
  function Artifacts(text: string): seq<CodeArtifact> {
    CodeArtifacts(text, LanguageExtension)
  }

  /** The text of the first block of type "text", or "" without one. */
  function FirstText(blocks: seq<Json>): (r: Result<string, string>)
    ensures FirstWith(blocks, "type", "text") == Ok(None) ==> r == Ok("")
    ensures FirstWith(blocks, "type", "text").Err? ==> r.Err?
    ensures forall f :: FirstWith(blocks, "type", "text") == Ok(Some(f)) ==>
      (r.Ok? <==> ContentAt(f, "text").Ok?) && (r.Ok? ==> r.value == ContentAt(f, "text").value.GetOr(""))
  {
    var block :- FirstWith(blocks, "type", "text");
    match block
    case None => Ok("")
    case Some(fields) =>
      var t :- ContentAt(fields, "text");
      Ok(t.GetOr(""))
  }

  /** stop_reason "tool_use": an Act for the first tool_use block, its
   *  reasoning the first text; a recoverable Error without such a block. */
  function ToolUse(blocks: seq<Json>): (r: Result<AgentStep, string>)
    ensures FirstWith(blocks, "type", "tool_use") == Ok(None) ==>
      r == Ok(Error("Tool use beklendi ama bulunamadi", true, None))
    ensures FirstWith(blocks, "type", "tool_use").Err? ==> r.Err?
    ensures r.Ok? ==> r.value.Act? || r.value.Error?
    ensures r.Ok? && r.value.Act? ==>
      && FirstWith(blocks, "type", "tool_use").Ok? && FirstWith(blocks, "type", "tool_use").value.Some?
      && var f := FirstWith(blocks, "type", "tool_use").value.value;
      && ContentAt(f, "name").Ok? && r.value.toolName == ContentAt(f, "name").value.GetOr("unknown")
      && FirstText(blocks).Ok? && r.value.reasoning == FirstText(blocks).value
      && ("input" !in f ==> r.value.toolInput == map[])
      && ("input" in f ==>
            && f["input"].JObject? && r.value.toolInput.Keys == f["input"].fields.Keys
            && forall k :: k in f["input"].fields ==> Content(f["input"].fields[k]) == Some(r.value.toolInput[k]))
  {
    var tool :- FirstWith(blocks, "type", "tool_use");
    match tool
    case None => Ok(Error("Tool use beklendi ama bulunamadi", true, None))
    case Some(fields) =>
      var name :- ContentAt(fields, "name");
      var input :- ObjectAt(fields, "input");
      var thinking :- FirstText(blocks);
      var entries :- ContentEntries(input.GetOr(map[]));
      Ok(Act(name.GetOr("unknown"), entries, thinking))
  }

  /** stop_reason "end_turn" or none: the first text is an Answer when it
   *  holds code or is longer than 100 UTF-16 code units, a Think otherwise. */
  function EndTurn(blocks: seq<Json>): (r: Result<AgentStep, string>)
    ensures r.Ok? <==> FirstText(blocks).Ok?
    ensures r.Ok? ==>
      var t := FirstText(blocks).value;
      && (r.value.Answer? <==> Artifacts(t) != [] || Text.Length16(t) > 100)
      && (r.value.Answer? ==> r.value == Answer(t, Artifacts(t), None))
      && (!r.value.Answer? ==> r.value == Think(t, 0.5))
  {
    var text :- FirstText(blocks);
    var artifacts := Artifacts(text);
    if artifacts != [] || Text.Length16(text) > 100 then Ok(Answer(text, artifacts, None)) else Ok(Think(text, 0.5))
  }

  /** Any other stop_reason: a Think holding the first block's text, or the
   *  whole body, with the default confidence 0. */
  function OtherStop(blocks: seq<Json>, body: string): (r: Result<AgentStep, string>)
    ensures r.Ok? ==> r.value.Think? && r.value.confidence == 0.0
    ensures blocks == [] ==> r == Ok(Think(body, 0.0))
    ensures blocks != [] ==> (r.Ok? <==> blocks[0].JObject? && ContentAt(blocks[0].fields, "text").Ok?)
    ensures blocks != [] && r.Ok? ==> r.value.thought == ContentAt(blocks[0].fields, "text").value.GetOr(body)
  {
    if blocks == [] then Ok(Think(body, 0.0))
    else
      var first :- AsObject(blocks[0]);
      var t :- ContentAt(first, "text");
      Ok(Think(t.GetOr(body), 0.0))
  }

  /** The body of the try block of `parseResponse`; Err is an exception
   *  thrown inside it. A JSON null stop_reason reads as the text "null" and
   *  so counts as another reason. */
  function Classify(parsed: Result<Json, string>, body: string): Result<AgentStep, string> {
    var j :- parsed;
    var obj :- AsObject(j);
    var stopReason :- ContentAt(obj, "stop_reason");
    var content :- ArrayAt(obj, "content");
    match content
    case None => Ok(Error("Bos yanit", true, None))
    case Some(blocks) =>
      if stopReason == Some("tool_use") then ToolUse(blocks)
      else if stopReason.None? || stopReason == Some("end_turn") then EndTurn(blocks)
      else OtherStop(blocks, body)
  }

  /** `parseResponse`: what it returns is always a step the agent loop can
   *  take, every Error is recoverable, and an Answer carries exactly the
   *  artifacts of its text and is long or holds code. */
  function ParseResponse(parsed: Result<Json, string>, body: string): (r: AgentStep)
    ensures r.Think? || r.Act? || r.Answer? || r.Error?
    ensures r.Error? ==> r.recoverable && r.suggestedAction.None?
    ensures parsed.Err? ==> r == Error("Yanit parse hatasi: " + parsed.error, true, None)
    ensures parsed.Ok? && !parsed.value.JObject? ==> r.Error?
    ensures r.Answer? ==>
      r.metadata.None? && r.artifacts == Artifacts(r.content) && (r.artifacts != [] || Text.Length16(r.content) > 100)
  {
    match Classify(parsed, body)
    case Ok(step) => step
    case Err(message) => Error("Yanit parse hatasi: " + message, true, None)
  }

  /** A reply object without "content" is the Error "Bos yanit", unless its
   *  stop_reason cannot be read. */
  lemma MissingContent(obj: map<string, Json>, body: string)
    requires "content" !in obj
    requires "stop_reason" in obj ==> obj["stop_reason"].IsPrimitive()
    ensures ParseResponse(Ok(JObject(obj)), body) == Error("Bos yanit", true, None)
  {
  }

  /** An end-of-turn reply whose first block is a short text without a
   *  backtick is a Think with confidence 0.5 holding that text. */
  lemma ShortTextIsThink(obj: map<string, Json>, block: map<string, Json>, t: string, body: string)
    requires "stop_reason" in obj && obj["stop_reason"] == JString("end_turn")
    requires "content" in obj && obj["content"] == JArray([JObject(block)])
    requires "type" in block && block["type"] == JString("text")
    requires "text" in block && block["text"] == JString(t)
    requires Text.Length16(t) <= 100 && forall x :: 0 <= x < |t| ==> t[x] != '`'
    ensures ParseResponse(Ok(JObject(obj)), body) == Think(t, 0.5)
  {
    var blocks := [JObject(block)];
    assert HasContent(blocks, 0, "type", "text");
    assert FirstText(blocks) == Ok(t);
    NoBacktickNoArtifacts(t, LanguageExtension);
  }

  /** A tool-use reply with a text block and then a tool_use block whose
   *  input holds strings is an Act for that tool, with those arguments and
   *  the text as its reasoning. */
  lemma ToolUseIsAct(obj: map<string, Json>, textBlock: map<string, Json>, toolBlock: map<string, Json>,
                     t: string, name: string, args: map<string, Json>, body: string)
    requires "stop_reason" in obj && obj["stop_reason"] == JString("tool_use")
    requires "content" in obj && obj["content"] == JArray([JObject(textBlock), JObject(toolBlock)])
    requires "type" in textBlock && textBlock["type"] == JString("text")
    requires "text" in textBlock && textBlock["text"] == JString(t)
    requires "type" in toolBlock && toolBlock["type"] == JString("tool_use")
    requires "name" in toolBlock && toolBlock["name"] == JString(name)
    requires "input" in toolBlock && toolBlock["input"] == JObject(args)
    requires forall k :: k in args ==> args[k].JString?
    ensures var r := ParseResponse(Ok(JObject(obj)), body);
      && r.Act? && r.toolName == name && r.reasoning == t
      && r.toolInput.Keys == args.Keys && forall k :: k in args ==> r.toolInput[k] == args[k].text
  {
    var blocks := [JObject(textBlock), JObject(toolBlock)];
    assert !HasContent(blocks, 0, "type", "tool_use") && Inspectable(blocks, 0, "type");
    assert HasContent(blocks, 1, "type", "tool_use");
    assert FirstWith(blocks, "type", "tool_use") == Ok(Some(toolBlock));
    assert HasContent(blocks, 0, "type", "text");
    assert FirstText(blocks) == Ok(t);
  }

  /** `reason` once the reply is in: the status check, then
   *  `parseResponse`. Only a failed status outside 429..599 stops the agent
   *  with an Error it may not retry, and only 429 carries advice. */
  function Reason(status: Status, body: string, parsed: Result<Json, string>): (r: AgentStep)
    ensures r.Think? || r.Act? || r.Answer? || r.Error?
    ensures r.Error? && !r.recoverable <==> !IsSuccess(status) && !(429 <= status.value <= 599)
    ensures r.Error? && r.suggestedAction.Some? <==> status.value == 429
  {
    if IsSuccess(status) then ParseResponse(parsed, body) else StatusError(status, body)
  }

  /** `chat`: the text of the first content block, or "" when there is no
   *  content, no block or no text; a reply that is not an object, or whose
   *  first block is not one, throws. */
  function Chat(parsed: Result<Json, string>): (r: Result<string, string>)
    ensures parsed.Err? || !parsed.value.JObject? ==> r.Err?
    ensures parsed.Ok? && parsed.value.JObject? && "content" !in parsed.value.fields ==> r == Ok("")
    ensures parsed.Ok? && parsed.value.JObject? && "content" in parsed.value.fields ==>
      var c := parsed.value.fields["content"];
      && (!c.JArray? ==> r.Err?)
      && (c == JArray([]) ==> r == Ok(""))
      && (c.JArray? && c.items != [] ==>
            (r.Ok? <==> c.items[0].JObject? && ContentAt(c.items[0].fields, "text").Ok?)
            && (r.Ok? ==> r.value == ContentAt(c.items[0].fields, "text").value.GetOr("")))
  {
    var j :- parsed;
    var obj :- AsObject(j);
    var content :- ArrayAt(obj, "content");
    if content.None? || content.value == [] then Ok("")
    else
      var first :- AsObject(content.value[0]);
      var t :- ContentAt(first, "text");
      Ok(t.GetOr(""))
  }
}
