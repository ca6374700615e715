/** The steps of an agent's reasoning trajectory and the results of tools. */
module AgentSteps {
  import opened Wrappers
  import opened AgentRoles

  /** A generated file. */
  datatype CodeArtifact = CodeArtifact(filename: string, language: string, content: string, version: int)

  /** An artifact with the default version 1. */
  function Artifact(filename: string, language: string, content: string): CodeArtifact {
    CodeArtifact(filename, language, content, 1)
  }

  datatype ToolResult =
    | Success(output: string, data: Option<string>)
    | Failure(error: string, retryable: bool)

  datatype AnswerMetadata = AnswerMetadata(
    totalSteps: int,
    toolsUsed: seq<string>,
    totalDurationMs: int,
    agentsInvolved: seq<AgentRole>)

  /** One step of a trajectory. The confidence of a Think is a real number
   *  that no decision depends on. */
  datatype AgentStep =
    | Think(thought: string, confidence: real)
    | Act(toolName: string, toolInput: map<string, string>, reasoning: string)
    | Observe(toolName: string, result: ToolResult, durationMs: int)
    | Answer(content: string, artifacts: seq<CodeArtifact>, metadata: Option<AnswerMetadata>)
    | Error(message: string, recoverable: bool, suggestedAction: Option<string>)
    | Delegate(targetAgent: AgentRole, context: DelegationContext)

  datatype DelegationContext = DelegationContext(
    reason: string,
    taskDescription: string,
    parentTrajectory: seq<AgentStep>,
    constraints: seq<string>)
}
