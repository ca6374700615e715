/** What an agent request returns and the events streamed while it runs. */
module AgentModels {
  import opened Wrappers
  import opened AgentRoles
  import opened AgentSteps

  datatype StepStatus = PENDING | RUNNING | COMPLETED | FAILED | SKIPPED

  datatype PlanStepResult = PlanStepResult(
    stepId: string,
    agent: AgentRole,
    description: string,
    status: StepStatus,
    output: Option<string>)

  datatype AgentResponse = AgentResponse(
    answer: string,
    artifacts: seq<CodeArtifact>,
    planSteps: seq<PlanStepResult>,
    metadata: Option<AnswerMetadata>)

  datatype StreamEvent =
    | Thinking(thought: string)
    | ToolCall(tool: string, input: string)
    | ToolResultEvent(tool: string, output: string, success: bool)
    | CodeGenerated(artifact: CodeArtifact)
    | PlanUpdate(stepId: string, status: StepStatus, description: string)
    | Delegation(from: string, to: string, reason: string)
    | Done(answer: string, metadata: Option<AnswerMetadata>)
    | ErrorEvent(message: string, recoverable: bool)
}
