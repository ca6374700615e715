/** The six agent roles of the multi-agent system. */
module AgentRoles {
  import Text

  datatype AgentRole = PLANNER | CODE_WRITER | REVIEWER | FIXER | TESTER | RESEARCHER

  const AllRoles: seq<AgentRole> := [PLANNER, CODE_WRITER, REVIEWER, FIXER, TESTER, RESEARCHER]

  /** The enum constant's name. */
  function RoleName(r: AgentRole): string {
    match r
    case PLANNER => "PLANNER"
    case CODE_WRITER => "CODE_WRITER"
    case REVIEWER => "REVIEWER"
    case FIXER => "FIXER"
    case TESTER => "TESTER"
    case RESEARCHER => "RESEARCHER"
  }

  /** `displayName` */
  function DisplayName(r: AgentRole): string {
    match r
    case PLANNER => "Planner"
    case CODE_WRITER => "Code Writer"
    case REVIEWER => "Reviewer"
    case FIXER => "Fixer"
    case TESTER => "Tester"
    case RESEARCHER => "Researcher"
  }

  /** `systemPromptKey`: the lower-cased constant name. */
  function SystemPromptKey(r: AgentRole): string {
    Text.Lower(RoleName(r))
  }

  /** The prompt keys, spelled out: the constant names in lower case. */
  lemma PromptKeys()
    ensures SystemPromptKey(PLANNER) == "planner" && SystemPromptKey(CODE_WRITER) == "code_writer"
    ensures SystemPromptKey(REVIEWER) == "reviewer" && SystemPromptKey(FIXER) == "fixer"
    ensures SystemPromptKey(TESTER) == "tester" && SystemPromptKey(RESEARCHER) == "researcher"
  {
  }

  /** No two roles share a display name or a prompt key. */
  lemma NamesDistinct(a: AgentRole, b: AgentRole)
    ensures DisplayName(a) == DisplayName(b) ==> a == b
    ensures SystemPromptKey(a) == SystemPromptKey(b) ==> a == b
  {
    PromptKeys();
  }
}
