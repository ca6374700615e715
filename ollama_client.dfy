/** How the Ollama chat client turns a reply into the next agent step: the
 *  status and connection errors, `parseResponse` with its native and
 *  inline tool calls, the text of a `chat` reply and the naming of code
 *  artifacts. The request and the HTTP call are not modelled: a reply
 *  either never arrives (the exception's message) or arrives with a status
 *  and a body, and `parse` is the JSON parser, Err carrying its exception
 *  message. */
module OllamaClient {
  import opened Wrappers
  import Text
  import opened JsonValues
  import opened AgentSteps
  import opened LlmReplies
  import AnthropicClient

  const Starter := "Gorevi baslat. Dusun ve uygun araci kullan."
  const ServeAdvice := "Ollama servisinin calistigini kontrol et: ollama serve"

  /** What the HTTP call gives back. */
  datatype Reply = Received(status: Status, body: string) | Unreachable(message: string)

  /** The `messages` of a request: the system prompt, those converted from
   *  the trajectory, and a starter user message when there are none. */
  function RequestMessages(system: string, converted: seq<Message>): (r: seq<Message>)
    ensures |r| >= 2 && r[0] == Message("system", system)
    ensures converted != [] ==> r[1..] == converted
    ensures converted == [] ==> r[1..] == [Message("user", Starter)]
  {
    var messages := [Message("system", system)] + converted;
    if |messages| == 1 then messages + [Message("user", Starter)] else messages
  }

  /** `languageExtension`: as the Anthropic client's, without the Gradle
   *  case. */
  function LanguageExtension(language: string): (r: string)
    ensures r in {"kt", "java", "xml", "json", "yml", "txt"}
  {
    match Text.Lower(language)
    case "kotlin" => "kt"
    case "kt" => "kt"
    case "java" => "java"
    case "xml" => "xml"
    case "json" => "json"
    case "yaml" => "yml"
    case "yml" => "yml"
    case _ => "txt"
  }

  /** The two clients name files alike except that Groovy and Gradle code,
   *  a ".gradle.kts" file there, is a ".txt" file here. */
  lemma ExtensionsAgree(language: string)
    ensures LanguageExtension(language) ==
      if AnthropicClient.LanguageExtension(language) == "gradle.kts" then "txt"
      else AnthropicClient.LanguageExtension(language)
  {
  }

  /** `extractCodeArtifacts` */
  function Artifacts(text: string): seq<CodeArtifact> {
    CodeArtifacts(text, LanguageExtension)
  }

  /** A name an inline call may carry: a primitive other than JSON null
   *  (`jsonPrimitive.contentOrNull`). */
  predicate NamePrimitive(j: Json) {
    j.IsPrimitive() && !j.JNull?
  }

  /** `tryParseInlineToolCall`: content that, trimmed, is a braced JSON
   *  object with a non-null primitive "name" and an object "arguments" of
   *  primitives is an Act; anything else, a parse error included, is
   *  None. */
  function InlineToolCall(content: string, parse: string -> Result<Json, string>): (r: Option<AgentStep>)
    ensures r.Some? <==>
      var t := Text.Trim(content);
      && Text.StartsWith(t, "{") && Text.EndsWith(t, "}")
      && parse(t).Ok? && parse(t).value.JObject?
      && var o := parse(t).value.fields;
      && "name" in o && NamePrimitive(o["name"])
      && "arguments" in o && o["arguments"].JObject?
      && forall k :: k in o["arguments"].fields ==> o["arguments"].fields[k].IsPrimitive()
    ensures r.Some? ==>
      var o := parse(Text.Trim(content)).value.fields;
      && r.value.Act?
      && Some(r.value.toolName) == Content(o["name"])
      && r.value.toolInput.Keys == o["arguments"].fields.Keys
      && (forall k :: k in o["arguments"].fields ==> Content(o["arguments"].fields[k]) == Some(r.value.toolInput[k]))
      && r.value.reasoning == "Tool cagiriliyor (inline): " + r.value.toolName
  {
    var trimmed := Text.Trim(content);
    if !Text.StartsWith(trimmed, "{") || !Text.EndsWith(trimmed, "}") then None
    else match parse(trimmed)
      case Err(_) => None
      case Ok(j) =>
        if !j.JObject? || "name" !in j.fields || !NamePrimitive(j.fields["name"])
           || "arguments" !in j.fields || !j.fields["arguments"].JObject? then None
        else match ContentEntries(j.fields["arguments"].fields)
          case Err(_) => None
          case Ok(entries) =>
            var name := Content(j.fields["name"]).value;
            Some(Act(name, entries, "Tool cagiriliyor (inline): " + name))
  }

  /** A "function" object a native call can be read from: its "name", when
   *  present, is a primitive, its "arguments", when present, an object of
   *  primitives. */
  predicate ReadableFunction(f: map<string, Json>) {
    && ("name" !in f || f["name"].IsPrimitive())
    && ("arguments" !in f || f["arguments"].JObject?)
    && ("arguments" in f ==> forall k :: k in f["arguments"].fields ==> f["arguments"].fields[k].IsPrimitive())
  }

  /** The native tool call: the first entry of "tool_calls", when it has a
   *  "function", is an Act named by its "name" ("unknown" without one), with
   *  the texts of its "arguments" (none without them), whose reasoning is
   *  the content, or a note naming the tool when the content is empty. A
   *  first entry that is not an object, or a function that cannot be read,
   *  throws. */
  function NativeToolCall(toolCalls: Option<seq<Json>>, content: string): (r: Result<Option<AgentStep>, string>)
    ensures toolCalls.None? || toolCalls.value == [] ==> r == Ok(None)
    ensures toolCalls.Some? && toolCalls.value != [] && !toolCalls.value[0].JObject? ==> r.Err?
    ensures toolCalls.Some? && toolCalls.value != [] && toolCalls.value[0].JObject? ==>
      var call := toolCalls.value[0].fields;
      && ("function" !in call ==> r == Ok(None))
      && ("function" in call ==> (r.Ok? <==> call["function"].JObject? && ReadableFunction(call["function"].fields)))
    ensures r.Ok? && r.value.Some? ==>
      && toolCalls.Some? && toolCalls.value != [] && toolCalls.value[0].JObject?
      && "function" in toolCalls.value[0].fields
      && r.value.value.Act?
      && r.value.value.reasoning == (if content == "" then "Tool cagiriliyor: " + r.value.value.toolName else content)
    ensures r.Ok? && toolCalls.Some? && toolCalls.value != [] && "function" in toolCalls.value[0].fields ==>
      var f := toolCalls.value[0].fields["function"].fields;
      var arguments := if "arguments" in f then f["arguments"].fields else map[];
      && r.value.Some?
      && r.value.value.toolName == (if "name" in f then Content(f["name"]).value else "unknown")
      && r.value.value.toolInput.Keys == arguments.Keys
      && forall k :: k in arguments ==> Content(arguments[k]) == Some(r.value.value.toolInput[k])
  {
    if toolCalls.None? || toolCalls.value == [] then Ok(None)
    else
      var call :- AsObject(toolCalls.value[0]);
      var fn :- ObjectAt(call, "function");
      match fn
      case None => Ok(None)
      case Some(f) =>
        var name :- ContentAt(f, "name");
        var toolName := name.GetOr("unknown");
        var arguments :- ObjectAt(f, "arguments");
        var entries :- ContentEntries(arguments.GetOr(map[]));
        Ok(Some(Act(toolName, entries, if content == "" then "Tool cagiriliyor: " + toolName else content)))
  }

  /** Without a tool call: an Answer when the content holds code or is
   *  longer than 100 UTF-16 code units, a Think otherwise. */
  function TextStep(content: string): (r: AgentStep)
    ensures r.Answer? <==> Artifacts(content) != [] || Text.Length16(content) > 100
    ensures r.Answer? ==> r == Answer(content, Artifacts(content), None)
    ensures !r.Answer? ==> r == Think(content, 0.5)
  {
    var artifacts := Artifacts(content);
    if artifacts != [] || Text.Length16(content) > 100 then Answer(content, artifacts, None) else Think(content, 0.5)
  }

  /** Content outside the Basic Multilingual Plane counts two UTF-16 code
   *  units per character: 51 such characters without code already make an
   *  Answer. */
  lemma AstralTextIsAnswer(content: string)
    requires |content| > 50 && forall i :: 0 <= i < |content| ==> !Text.InBmp(content[i])
    ensures TextStep(content) == Answer(content, Artifacts(content), None)
  {
    Text.Length16Astral(content);
  }

  /** The body of the try block of `parseResponse`; Err is an exception
   *  thrown inside it. */
  function Classify(parse: string -> Result<Json, string>, body: string): (r: Result<AgentStep, string>)
    ensures parse(body).Err? ==> r == Err(parse(body).error)
    ensures r.Ok? ==> r.value.Think? || r.value.Act? || r.value.Answer? || r.value.Error?
    ensures r.Ok? && r.value.Error? ==> r.value.recoverable && r.value.suggestedAction.None?
    ensures r.Ok? && r.value.Act? ==> r.value.reasoning != ""
    ensures r.Ok? && r.value.Answer? ==>
      r.value.metadata.None? && r.value.artifacts == Artifacts(r.value.content)
      && (r.value.artifacts != [] || Text.Length16(r.value.content) > 100)
  {
    var j :- parse(body);
    var obj :- AsObject(j);
    var message :- ObjectAt(obj, "message");
    match message
    case None => Ok(Error("Bos Ollama yaniti", true, None))
    case Some(m) =>
      var c :- ContentAt(m, "content");
      var content := c.GetOr("");
      var toolCalls :- ArrayAt(m, "tool_calls");
      var native :- NativeToolCall(toolCalls, content);
      if native.Some? then Ok(native.value)
      else match InlineToolCall(content, parse)
        case Some(act) => Ok(act)
        case None => Ok(TextStep(content))
  }

  /** `parseResponse`: always a step the agent loop can take; every Error
   *  is recoverable; every Act says why it calls the tool; an Answer
   *  carries exactly the artifacts of its text and is long or holds code. */
  function ParseResponse(parse: string -> Result<Json, string>, body: string): (r: AgentStep)
    ensures r.Think? || r.Act? || r.Answer? || r.Error?
    ensures r.Error? ==> r.recoverable && r.suggestedAction.None?
    ensures parse(body).Err? ==> r == Error("Ollama yanit parse hatasi: " + parse(body).error, true, None)
    ensures r.Act? ==> r.reasoning != ""
    ensures r.Answer? ==>
      r.metadata.None? && r.artifacts == Artifacts(r.content) && (r.artifacts != [] || Text.Length16(r.content) > 100)
  {
    match Classify(parse, body)
    case Ok(step) => step
    case Err(message) => Error("Ollama yanit parse hatasi: " + message, true, None)
  }

  /** A reply object without "message" is the Error "Bos Ollama yaniti". */
  lemma MissingMessage(parse: string -> Result<Json, string>, body: string, obj: map<string, Json>)
    requires parse(body) == Ok(JObject(obj)) && "message" !in obj
    ensures ParseResponse(parse, body) == Error("Bos Ollama yaniti", true, None)
  {
  }

  /** A message without tool calls whose content is an inline call is that
   *  call. */
  lemma InlineCallIsAct(parse: string -> Result<Json, string>, body: string, obj: map<string, Json>, m: map<string, Json>, content: string)
    requires parse(body) == Ok(JObject(obj)) && "message" in obj && obj["message"] == JObject(m)
    requires "content" in m && m["content"] == JString(content) && "tool_calls" !in m
    requires InlineToolCall(content, parse).Some?
    ensures ParseResponse(parse, body) == InlineToolCall(content, parse).value
  {
  }

  /** `reason` once the call is made: only a failed connection gives an
   *  Error that may not be retried, and only a failed status gives
   *  advice. */
  function Reason(reply: Reply, parse: string -> Result<Json, string>): (r: AgentStep)
    ensures r.Error? && !r.recoverable <==> reply.Unreachable?
    ensures r.Error? && r.suggestedAction.Some? <==> reply.Received? && !IsSuccess(reply.status)
    ensures reply.Received? && !IsSuccess(reply.status) ==>
      r.Error? && Text.EndsWith(r.message, StatusText(reply.status))
  {
    match reply
    case Unreachable(message) =>
      Error("Ollama baglanti hatasi: " + message + ". 'ollama serve' calistigindan emin ol.", false, None)
    case Received(status, body) =>
      if IsSuccess(status) then ParseResponse(parse, body)
      else
        Text.EndsWithAppended("Ollama API hatasi: ", StatusText(status));
        Error("Ollama API hatasi: " + StatusText(status), true, Some(ServeAdvice))
  }

  /** The text of the "message" object's "content", or "". */
  function ChatText(parsed: Result<Json, string>): Result<string, string> {
    var j :- parsed;
    var obj :- AsObject(j);
    var message :- ObjectAt(obj, "message");
    match message
    case None => Ok("")
    case Some(m) =>
      var c :- ContentAt(m, "content");
      Ok(c.GetOr(""))
  }

  /** `chat`: the reply's message content; "" whenever anything fails,
   *  the status is not looked at. */
  function Chat(reply: Reply, parse: string -> Result<Json, string>): (r: string)
    ensures reply.Unreachable? ==> r == ""
    ensures reply.Received? && parse(reply.body).Err? ==> r == ""
    ensures reply.Received? && parse(reply.body).Ok? ==>
      var j := parse(reply.body);
      && (!j.value.JObject? || "message" !in j.value.fields ==> r == "")
      && (j.value.JObject? && "message" in j.value.fields && j.value.fields["message"].JObject?
          && "content" in j.value.fields["message"].fields ==>
            r == Content(j.value.fields["message"].fields["content"]).GetOr(""))
  {
    match reply
    case Unreachable(_) => ""
    case Received(_, body) =>
      match ChatText(parse(body))
      case Ok(t) => t
      case Err(_) => ""
  }
}
