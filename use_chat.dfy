/** The chat hook of the web client: the message list, whether a reply is
 *  in progress, and the id of the assistant message that stream events are
 *  written into. Sending adds the user's message and an empty assistant
 *  message; each event is recorded on that message and updates its text,
 *  files, plan steps and streaming flag. Fresh ids and the clock are
 *  parameters; the socket send is what `SendMessage` returns. */
module ChatHook {
  import opened Wrappers
  import AgentSteps
  import AgentModels

  datatype Role = User | Assistant

  /** A plan step as the client shows it. */
  datatype PlanStep = PlanStep(stepId: string, status: AgentModels.StepStatus, description: string)

  /** A stream event as the client receives it. */
  datatype StreamEvent =
    | Thinking(thought: string)
    | ToolCall(tool: string, input: string)
    | ToolResult(tool: string, output: string, success: bool)
    | CodeGenerated(artifact: AgentSteps.CodeArtifact)
    | PlanUpdate(stepId: string, status: AgentModels.StepStatus, description: string)
    | Delegation(from: string, to: string, reason: string)
    | Done(answer: string)
    | ErrorEvent(message: string, recoverable: bool)

  datatype ChatMessage = ChatMessage(
    id: string,
    role: Role,
    content: string,
    timestamp: int,
    events: seq<StreamEvent>,
    artifacts: seq<AgentSteps.CodeArtifact>,
    planSteps: seq<PlanStep>,
    isStreaming: bool)

  /** What goes over the socket. */
  datatype Outgoing = Outgoing(message: string, sessionId: string)

  /** `planSteps.findIndex(s => s.stepId === stepId)` */
  function FindStep(steps: seq<PlanStep>, stepId: string): (r: int)
    ensures -1 <= r < |steps|
    ensures r >= 0 ==> steps[r].stepId == stepId && forall j :: 0 <= j < r ==> steps[j].stepId != stepId
    ensures r == -1 ==> forall j :: 0 <= j < |steps| ==> steps[j].stepId != stepId
  {
    if steps == [] then -1
    else if steps[0].stepId == stepId then 0
    else
      var k := FindStep(steps[1..], stepId);
      if k == -1 then -1 else k + 1
  }

  /** A plan step update: replaces the step with the same id in place, or
   *  appends it. */
  function Upsert(steps: seq<PlanStep>, step: PlanStep): seq<PlanStep> {
    var k := FindStep(steps, step.stepId);
    if k >= 0 then steps[k := step] else steps + [step]
  }

  predicate UniqueStepIds(steps: seq<PlanStep>) {
    forall i, j :: 0 <= i < j < |steps| ==> steps[i].stepId != steps[j].stepId
  }

  /** An update keeps step ids unique, holds the new step, keeps every step
   *  with another id and grows the list only for a new id. */
  lemma UpsertKeepsIdsUnique(steps: seq<PlanStep>, step: PlanStep)
    requires UniqueStepIds(steps)
    ensures var r := Upsert(steps, step);
      && UniqueStepIds(r)
      && step in r
      && (forall p :: p in steps && p.stepId != step.stepId ==> p in r)
      && (forall p :: p in r ==> p == step || p in steps)
      && |r| == (if FindStep(steps, step.stepId) >= 0 then |steps| else |steps| + 1)
  {
    var k := FindStep(steps, step.stepId);
    var r := Upsert(steps, step);
    if k >= 0 {
      assert r[k] == step;
      forall p | p in steps && p.stepId != step.stepId ensures p in r {
        var i :| 0 <= i < |steps| && steps[i] == p;
        assert r[i] == p;
      }
    }
  }

  /** The assistant message after one event: the event is recorded; a file
   *  is added; a plan step is updated; `done` sets the answer and ends the
   *  stream; an error fills in an empty text and ends the stream only when
   *  it cannot be recovered from. */
  function Apply(m: ChatMessage, e: StreamEvent): (r: ChatMessage)
    ensures r.id == m.id && r.role == m.role && r.timestamp == m.timestamp
    ensures r.events == m.events + [e]
    ensures r.artifacts == if e.CodeGenerated? then m.artifacts + [e.artifact] else m.artifacts
    ensures r.planSteps == if e.PlanUpdate? then Upsert(m.planSteps, PlanStep(e.stepId, e.status, e.description)) else m.planSteps
    ensures e.Done? ==> r.content == e.answer && !r.isStreaming
    ensures e.ErrorEvent? ==>
      && r.content == (if m.content == [] then "Error: " + e.message else m.content)
      && r.isStreaming == (m.isStreaming && e.recoverable)
    ensures !e.Done? && !e.ErrorEvent? ==> r.content == m.content && r.isStreaming == m.isStreaming
  {
    var events := m.events + [e];
    match e
    case CodeGenerated(a) => m.(events := events, artifacts := m.artifacts + [a])
    case PlanUpdate(id, status, description) =>
      m.(events := events, planSteps := Upsert(m.planSteps, PlanStep(id, status, description)))
    case Done(answer) => m.(events := events, content := answer, isStreaming := false)
    case ErrorEvent(message, recoverable) =>
      m.(events := events,
         content := if m.content == [] then "Error: " + message else m.content,
         isStreaming := m.isStreaming && recoverable)
    case _ => m.(events := events)
  }

  lemma ApplyKeepsIdsUnique(m: ChatMessage, e: StreamEvent)
    requires UniqueStepIds(m.planSteps)
    ensures UniqueStepIds(Apply(m, e).planSteps)
  {
    if e.PlanUpdate? {
      UpsertKeepsIdsUnique(m.planSteps, PlanStep(e.stepId, e.status, e.description));
    }
  }

  /** Events, applied one after another to one message. */
  function Replay(m: ChatMessage, es: seq<StreamEvent>): ChatMessage
    decreases |es|
  {
    if es == [] then m else Replay(Apply(m, es[0]), es[1..])
  }

  /** Whatever the events, each is recorded in order, the message keeps its
   *  id, and its plan steps keep unique ids. */
  lemma {:induction false} ReplayRecordsEvents(m: ChatMessage, es: seq<StreamEvent>)
    requires UniqueStepIds(m.planSteps)
    ensures Replay(m, es).events == m.events + es
    ensures Replay(m, es).id == m.id
    ensures UniqueStepIds(Replay(m, es).planSteps)
    decreases |es|
  {
    if es != [] {
      var n := Apply(m, es[0]);
      ApplyKeepsIdsUnique(m, es[0]);
      ReplayRecordsEvents(n, es[1..]);
      assert Replay(m, es) == Replay(n, es[1..]);
      assert n.events + es[1..] == m.events + es;
    }
  }

  /** An event that ends the reply. */
  predicate Ends(e: StreamEvent) {
    e.Done? || (e.ErrorEvent? && !e.recoverable)
  }

  /** `if (!assistantId) return`: null and "" are both falsy. */
  predicate Current(id: Option<string>) {
    id.Some? && id.value != []
  }

  /** The message list after an event: only messages with the current id
   *  change, and nothing changes without one. */
  function Handled(messages: seq<ChatMessage>, current: Option<string>, e: StreamEvent): (r: seq<ChatMessage>)
    ensures |r| == |messages|
    ensures !Current(current) ==> r == messages
    ensures forall i :: 0 <= i < |messages| ==>
      r[i] == if Current(current) && messages[i].id == current.value then Apply(messages[i], e) else messages[i]
  {
    if !Current(current) then messages else
      seq(|messages|, i requires 0 <= i < |messages| =>
        if messages[i].id == current.value then Apply(messages[i], e) else messages[i])
  }

  /** Whether an event ends the reply: it is of an ending kind and some
   *  message carries the current id. */
  predicate Stops(messages: seq<ChatMessage>, current: Option<string>, e: StreamEvent) {
    Current(current) && Ends(e) && exists i :: 0 <= i < |messages| && messages[i].id == current.value
  }

  /** The state of the hook. */
  class ChatState {
    var messages: seq<ChatMessage>
    var isProcessing: bool
    var currentAssistantId: Option<string>
    const sessionId: string

    constructor(sessionId: string)
      ensures this.sessionId == sessionId
      ensures messages == [] && !isProcessing && currentAssistantId.None?
    {
      this.sessionId := sessionId;
      messages := [];
      isProcessing := false;
      currentAssistantId := None;
    }

    /** `sendMessage`: the user's message, then an empty streaming
     *  assistant message that becomes current; the text goes out with the
     *  session id. The clock is read once per message, so the two
     *  timestamps are separate inputs. */
    method SendMessage(text: string, userId: string, assistantId: string, userAt: int, assistantAt: int)
      returns (sent: Outgoing)
      modifies this
      ensures messages == old(messages) + [
        ChatMessage(userId, User, text, userAt, [], [], [], false),
        ChatMessage(assistantId, Assistant, "", assistantAt, [], [], [], true)]
      ensures isProcessing && currentAssistantId == Some(assistantId)
      ensures sent == Outgoing(text, sessionId)
    {
      var userMsg := ChatMessage(userId, User, text, userAt, [], [], [], false);
      currentAssistantId := Some(assistantId);
      var assistantMsg := ChatMessage(assistantId, Assistant, "", assistantAt, [], [], [], true);
      messages := messages + [userMsg, assistantMsg];
      isProcessing := true;
      sent := Outgoing(text, sessionId);
    }

    /** `handleEvent`: the event is applied to every message with the
     *  current id; an ending event clears the current id and the
     *  in-progress flag. */
    method HandleEvent(e: StreamEvent)
      modifies this
      ensures messages == Handled(old(messages), old(currentAssistantId), e)
      ensures Stops(old(messages), old(currentAssistantId), e) ==> !isProcessing && currentAssistantId.None?
      ensures !Stops(old(messages), old(currentAssistantId), e) ==>
        isProcessing == old(isProcessing) && currentAssistantId == old(currentAssistantId)
    {
      var assistantId := currentAssistantId;
      if !Current(assistantId) {
        return;
      }
      var prev := messages;
      var next: seq<ChatMessage> := [];
      var i := 0;
      while i < |prev|
        invariant 0 <= i <= |prev| && |next| == i
        invariant forall j :: 0 <= j < i ==> next[j] == Handled(prev, assistantId, e)[j]
        invariant (Ends(e) && exists j :: 0 <= j < i && prev[j].id == assistantId.value) ==>
          !isProcessing && currentAssistantId.None?
        invariant !(Ends(e) && exists j :: 0 <= j < i && prev[j].id == assistantId.value) ==>
          isProcessing == old(isProcessing) && currentAssistantId == old(currentAssistantId)
      {
        var msg := prev[i];
        if msg.id != assistantId.value {
          next := next + [msg];
        } else {
          next := next + [Apply(msg, e)];
          if Ends(e) {
            isProcessing := false;
            currentAssistantId := None;
          }
        }
        i := i + 1;
      }
      messages := next;
    }

    /** `clearMessages` */
    method ClearMessages()
      modifies this
      ensures messages == [] && !isProcessing && currentAssistantId.None?
    {
      messages := [];
      isProcessing := false;
      currentAssistantId := None;
    }
  }

  /** After sending, the first event is recorded on the new assistant
   *  message and on no other. */
  lemma EventLandsOnNewMessage(prev: seq<ChatMessage>, user: ChatMessage, assistant: ChatMessage, e: StreamEvent)
    requires assistant.id != [] && user.id != assistant.id
    requires forall i :: 0 <= i < |prev| ==> prev[i].id != assistant.id
    ensures var r := Handled(prev + [user, assistant], Some(assistant.id), e);
      && r[..|prev| + 1] == prev + [user]
      && r[|prev| + 1] == Apply(assistant, e)
  {
    var all := prev + [user, assistant];
    var r := Handled(all, Some(assistant.id), e);
    assert r[..|prev| + 1] == prev + [user] by {
      forall i | 0 <= i < |prev| + 1 ensures r[i] == (prev + [user])[i] {
        assert all[i] == (prev + [user])[i];
      }
    }
  }
}
