# KAI core, modelled in Dafny

KAI is a Kotlin/Ktor server for a multi-agent coding assistant, with a React web client. This project models the deterministic logic between the language model and the tools:

- **Agents.** The ReAct agent loop runs with an iteration budget and a retry budget. The verification gate builds a verdict from compile, judge and test layers. The meta-controller has a live direct-chat `process` and the helpers of its step pipeline. The system prompt builder assembles the prompt. Agent tasks have an entity extractor.
- **Model clients.** The Anthropic and Ollama clients map replies to agent steps, turn fenced code blocks into named artifacts and map HTTP statuses to errors.
- **Tools.** A tool definition is rendered as a JSON schema. The Kotlin compiler tool has a bracket-counting syntax check. The file-system tool validates parameters and normalises paths.
- **Memory.** This covers the dual memory's score formula, trajectory summary, session store and failure absorption. It also covers the graph context's prompt text, the Neo4j relation sanitiser and the 100-episode in-memory layer.
- **Development pipeline.** The 14-status task state machine is a fixed table. The task store is modelled as in-memory tables: projects, epics, features, tasks, dependency edges, an append-only transition log and outputs. The project analyzer persists an analysis and resolves dependency titles. The orchestrator drives a task through the delivery chain. The execution plan is split into dependency waves.
- **Web client.** This covers the status columns and colours, the transition buttons of the task detail view, the chat hook's stream-event reducer and the session hook's list operations.

Each modelled source file is one module, named after its class or hook. Five more modules are shared helpers that model no single file: `Text`, `Margin`, `Fences` and `JsonValues` cover the standard-library string, line, fence and JSON-tree functions that several files use, and `Wrappers` holds `Option` and `Result`.

- **Pure code.** Code built from expressions becomes datatypes, functions and lemmas.
- **Loops.** Each loop becomes a method with invariants, proved against a specification function. Examples are `executionWaves`, `execute`, `verify`, `buildMemorySection`, the orchestrator's bulk passes and the chat reducer.
- **Stateful objects.** Objects that update their own state become classes whose fields the methods reassign: `Store`, `Memory`, `InMemoryMemoryLayer`, `ChatState` and `SessionStore`.
- **Exceptions.** A thrown exception becomes an error value, such as `Result`, `Option` or an outcome datatype, that carries the exception's kind and message.
- **Outside collaborators.** Everything outside the process is a parameter: model replies, tool results, the JSON parser, the embedding client, the vector and graph stores, the Git host, browser storage, fresh ids and the clock.
- **Numbers.** Doubles are written in exact terms. The memory score is counted in tenths. The verification score is a `real`.

## Model

| member | source | states |
|---|---|---|
| ExecutionPlan.DefaultStep | src/main/kotlin/com/kai/models/ExecutionPlan.kt:34-42 | a step built with the defaults has no dependencies, requires verification and has no constraints |
| ExecutionPlan.Ids | src/main/kotlin/com/kai/models/ExecutionPlan.kt:26 | the ids added to `completed` are exactly the ids of the wave's steps |
| ExecutionPlan.SplitFacts | src/main/kotlin/com/kai/models/ExecutionPlan.kt:17-27 | one pass splits the remaining steps into the ready ones (all dependencies done) and the rest, losing and duplicating none, each part in plan order |
| ExecutionPlan.SplitMembers | src/main/kotlin/com/kai/models/ExecutionPlan.kt:17-27 | a step is in the wave iff it remains and its dependencies are done; it stays behind iff they are not |
| ExecutionPlan.SplitMultiset | src/main/kotlin/com/kai/models/ExecutionPlan.kt:17-27 | wave plus what remains is, as a multiset, the steps before the pass |
| ExecutionPlan.ExecutionWaves | src/main/kotlin/com/kai/models/ExecutionPlan.kt:11-31 | the loop returns exactly the layering `WavesFrom(steps, {})`, an Err with the remaining ids when a pass finds no ready step |
| ExecutionPlan.EmptyPlanHasNoWaves | src/test/kotlin/com/kai/core/ExecutionPlanTest.kt:98-101 | an empty plan has no waves |
| ExecutionPlan.WavesNonempty | src/main/kotlin/com/kai/models/ExecutionPlan.kt:20-25 | no wave is empty |
| ExecutionPlan.WavesPartition | src/main/kotlin/com/kai/models/ExecutionPlan.kt:16-28 | the waves together hold every step of the plan exactly once |
| ExecutionPlan.WavesKeepOrder | src/main/kotlin/com/kai/models/ExecutionPlan.kt:17 | each wave lists its steps in plan order |
| ExecutionPlan.WavesRespectDependencies | src/main/kotlin/com/kai/models/ExecutionPlan.kt:17-26 | every dependency of a step in wave k is the id of a step in an earlier wave |
| ExecutionPlan.WavesAreEarliest | src/main/kotlin/com/kai/models/ExecutionPlan.kt:17-19 | a step in wave k > 0 could not have run in wave k-1: some dependency was not yet done |
| ExecutionPlan.UnknownDependencyFails | src/main/kotlin/com/kai/models/ExecutionPlan.kt:20-24 | a dependency on an id no step has makes the layering fail |
| ExecutionPlan.MutualDependencyFails | src/main/kotlin/com/kai/models/ExecutionPlan.kt:20-24 | two steps with unique ids that depend on each other make the layering fail |
| ExecutionPlan.CycleFails | src/main/kotlin/com/kai/models/ExecutionPlan.kt:20-24 | a dependency cycle of any length among steps with unique, not yet completed ids makes the layering fail |
| ExecutionPlan.LayeredPlanIsAcyclic | src/main/kotlin/com/kai/models/ExecutionPlan.kt:11-30 | a plan with unique ids that layers into waves contains no dependency cycle |
| ExecutionPlan.LastWave | src/main/kotlin/com/kai/models/ExecutionPlan.kt:16-28 | a pass in which every remaining step is ready is the last one |
| ExecutionPlan.ChainScenario | src/test/kotlin/com/kai/core/ExecutionPlanTest.kt:40-61 | s1 <- s2 <- {s3, s4} gives the waves [s1], [s2], [s3, s4] |
| ExecutionPlan.DiamondScenario | src/test/kotlin/com/kai/core/ExecutionPlanTest.kt:64-81 | the diamond s1 <- {s2, s3} <- s4 gives [s1], [s2, s3], [s4] |
| ExecutionPlan.CycleScenario | src/test/kotlin/com/kai/core/ExecutionPlanTest.kt:84-95 | two steps depending on each other fail |
| PipelineModels.StatusNameInjective | src/main/kotlin/com/kai/pipeline/Models.kt:8-12 | distinct statuses have distinct names |
| PipelineModels.ParseCategory | src/main/kotlin/com/kai/pipeline/ProjectAnalyzer.kt:145 | `TaskCategory.valueOf`: a parsed category has exactly the given name |
| PipelineModels.ParseCategoryOfName | src/main/kotlin/com/kai/pipeline/Models.kt:14-15 | every category parses back from its name |
| PipelineModels.ParsePriority | src/main/kotlin/com/kai/pipeline/ProjectAnalyzer.kt:146 | `TaskPriority.valueOf`: a parsed priority has exactly the given name |
| PipelineModels.ParsePriorityOfName | src/main/kotlin/com/kai/pipeline/Models.kt:17-18 | every priority parses back from its name |
| TaskStateMachine.AllowedTransitions | src/main/kotlin/com/kai/pipeline/TaskStateMachine.kt:56-58 | the allowed set holds exactly the table's successors, none for an unlisted status |
| TaskStateMachine.ValidateTransition | src/main/kotlin/com/kai/pipeline/TaskStateMachine.kt:42-54 | valid iff the table allows the move; a valid result has an empty message, a rejected one the non-empty message naming both statuses and the allowed ones |
| TaskStateMachine.DeployedIsTerminal | src/main/kotlin/com/kai/pipeline/TaskStateMachine.kt:26-40 | DEPLOYED has no entry: nothing is allowed or valid out of it |
| TaskStateMachine.SuccessorCounts | src/main/kotlin/com/kai/pipeline/TaskStateMachine.kt:26-40 | every status but DEPLOYED has a successor; only REVIEWING and TESTING have two, none has more |
| TaskStateMachine.NoSelfTransition | src/main/kotlin/com/kai/pipeline/TaskStateMachine.kt:26-40 | no status may move to itself |
| TaskStateMachine.HappyPathIsValid | src/main/kotlin/com/kai/pipeline/TaskStateMachine.kt:8-22 | CREATED to DEPLOYED through review and tests is a valid ten-step path |
| TaskStateMachine.TableHasCycles | src/main/kotlin/com/kai/pipeline/TaskStateMachine.kt:15-21 | review rework and failed tests both loop back: the table has cycles |
| TaskStateMachine.PathToDeployed | src/main/kotlin/com/kai/pipeline/TaskStateMachine.kt:26-40 | from every status a valid path leads to DEPLOYED |
| TaskStore.Store.constructor | src/main/kotlin/com/kai/pipeline/TaskStore.kt:18-25 | a fresh store has empty tables and is valid |
| TaskStore.Store.GetTask | src/main/kotlin/com/kai/pipeline/TaskStore.kt:145-149 | a task is found exactly when the id names a row, and carries that id |
| TaskStore.Store.GetProject | src/main/kotlin/com/kai/pipeline/TaskStore.kt:42-46 | a project is found exactly when the id names a row, and carries that id |
| TaskStore.Store.CreateProject | src/main/kotlin/com/kai/pipeline/TaskStore.kt:27-40 | the next id, status ACTIVE, appended; every other table unchanged; the store stays valid |
| TaskStore.Store.CreateEpic | src/main/kotlin/com/kai/pipeline/TaskStore.kt:56-66 | within the column limits, succeeds iff the project exists (the foreign key); on failure nothing changes |
| TaskStore.Store.CreateFeature | src/main/kotlin/com/kai/pipeline/TaskStore.kt:78-88 | within the column limits, succeeds iff the epic exists; on failure nothing changes |
| TaskStore.Store.CreateTask | src/main/kotlin/com/kai/pipeline/TaskStore.kt:106-143 | within the column limits, succeeds iff the feature exists and the listed dependencies are distinct existing tasks (or the new task itself); the new task is CREATED, one edge per dependency is added, and it reads back with its list; on failure tasks and edges are unchanged |
| TaskStore.InsertEdges | src/main/kotlin/com/kai/pipeline/TaskStore.kt:130-135 | the edge inserts succeed iff the primary and foreign keys accept every one; the edge table stays a set |
| TaskStore.DuplicateOrMissing | src/main/kotlin/com/kai/pipeline/PipelineTables.kt:50-54 | an edge insert is refused only because its target is not a task yet or it was listed before |
| TaskStore.Store.TransitionTask | src/main/kotlin/com/kai/pipeline/TaskStore.kt:193-222 | a missing task gives "Task <id> not found", a refused move the state machine's message, both changing nothing; an allowed move sets the status and appends exactly one log row from the old status to the new, which the task's history now ends with |
| TaskStore.Store.AddDependency | src/main/kotlin/com/kai/pipeline/TaskStore.kt:225-232 | succeeds iff both tasks exist and the edge is new; exactly that edge is added |
| TaskStore.Store.UpdateTask | src/main/kotlin/com/kai/pipeline/TaskStore.kt:235-246 | within the column limits, only the given fields among branch, PR URL and agent are overwritten, status never; a missing task fails and changes nothing |
| TaskStore.Store.SaveTaskOutput | src/main/kotlin/com/kai/pipeline/TaskStore.kt:258-270 | within the column limits, succeeds iff the task exists; the output gets the next id and is appended |
| TaskStore.Store.EpicsByProjectExact | src/main/kotlin/com/kai/pipeline/TaskStore.kt:68-74 | the result holds exactly the project's epics |
| TaskStore.Store.GetEpicsByProject | src/main/kotlin/com/kai/pipeline/TaskStore.kt:68-74 | `getEpicsByProject` returns the project's epics, each once, sorted by their order key |
| TaskStore.ByOrder | src/main/kotlin/com/kai/pipeline/TaskStore.kt:71 | the sort returns the same epics, as a multiset, in ascending order |
| TaskStore.InsertByOrder | src/main/kotlin/com/kai/pipeline/TaskStore.kt:71 | inserting one epic into a sorted list keeps it sorted and adds exactly that epic |
| TaskStore.ByOrderOfSorted | src/main/kotlin/com/kai/pipeline/TaskStore.kt:71 | epics already in ascending order come back in table order |
| TaskStore.Store.FeaturesByProjectExact | src/main/kotlin/com/kai/pipeline/TaskStore.kt:96-102 | the result holds exactly the features whose epic is the project's |
| TaskStore.Store.InProjectExact | src/main/kotlin/com/kai/pipeline/TaskStore.kt:153-156 | a task is selected exactly when its feature's epic belongs to the project |
| TaskStore.Store.TasksByProjectExact | src/main/kotlin/com/kai/pipeline/TaskStore.kt:151-166 | the result holds exactly the project's tasks passing the status filter, each read with its dependency list |
| TaskStore.Store.TasksByProjectRows | src/main/kotlin/com/kai/pipeline/TaskStore.kt:158-164 | every row is such a task, in creation (ascending id) order, and none is missing |
| TaskStore.Store.ReadyTasksExact | src/main/kotlin/com/kai/pipeline/TaskStore.kt:177-190 | ready tasks are exactly the project's PLANNED tasks whose found dependencies are all DEPLOYED |
| Orchestrator.ReadyRows | src/main/kotlin/com/kai/pipeline/PipelineOrchestrator.kt:67 | every task `getReadyTasks` returns is its row as read, PLANNED, and the ids ascend |
| TaskStore.Store.ReadyAmongRows | src/main/kotlin/com/kai/pipeline/TaskStore.kt:178-189 | the ready filter keeps rows of its input in their order |
| TaskStore.TargetsExact | src/main/kotlin/com/kai/pipeline/TaskStore.kt:308-320 | a task's dependency list holds exactly the targets of its edges |
| TaskStore.HistoryExact | src/main/kotlin/com/kai/pipeline/TaskStore.kt:248-254 | a task's history holds exactly the log rows naming it, in log order |
| TaskStore.Store.RecordTransition | src/main/kotlin/com/kai/pipeline/TaskStore.kt:204-218 | the write of an allowed move: only the task's status changes, one log row with the next id, the old and new status, the reason and the trigger is appended, and `getTaskHistory` of the task gains exactly that row |
| TaskStore.TransitionKeepsHistories | src/main/kotlin/com/kai/pipeline/TaskStore.kt:204-218 | an allowed move logged for its task keeps every task's history a table path from CREATED to its status |
| TaskStore.PathToIsValidPath | src/main/kotlin/com/kai/pipeline/TaskStore.kt:211-218 | a task's logged history is a valid path of the transition table ending in its current status |
| Orchestrator.SlugIsShaped | src/main/kotlin/com/kai/pipeline/PipelineOrchestrator.kt:114 | the branch slug is at most 40 characters of `[a-z0-9-]` with no two dashes in a row |
| Orchestrator.CollapseOfSlugChars | src/main/kotlin/com/kai/pipeline/PipelineOrchestrator.kt:114 | a lowercase alphanumeric title is left unchanged by the replacement |
| Orchestrator.SlugIdempotent | src/main/kotlin/com/kai/pipeline/PipelineOrchestrator.kt:114 | slugging a slug gives it back |
| Orchestrator.BranchName | src/main/kotlin/com/kai/pipeline/PipelineOrchestrator.kt:114 | every branch name starts with "feature/task-" |
| Orchestrator.ApprovalMeansNoKeyword | src/main/kotlin/com/kai/pipeline/PipelineOrchestrator.kt:176-178 | approved exactly when the lowercased review contains none of "major issue", "critical bug", "reject" |
| Orchestrator.ApprovalNeedsBothParts | src/main/kotlin/com/kai/pipeline/PipelineOrchestrator.kt:176-178 | appending review text can only withdraw an approval |
| Orchestrator.UpperCaseRejects | src/main/kotlin/com/kai/pipeline/PipelineOrchestrator.kt:176-178 | the check ignores case: "REJECTED" rejects |
| Orchestrator.ReviewPromptShowsCodePrefix | src/main/kotlin/com/kai/pipeline/PipelineOrchestrator.kt:165 | the review prompt ends with the longest prefix of the code within 2000 UTF-16 code units and is bounded in length |
| Orchestrator.ProcessChainIsValid | src/main/kotlin/com/kai/pipeline/PipelineOrchestrator.kt:113-205 | from READY or CHANGES_REQUESTED, the statuses `processTask` moves through form a valid table path ending DEPLOYED when approved and CHANGES_REQUESTED otherwise |
| Orchestrator.ProcessLogIsChain | src/main/kotlin/com/kai/pipeline/PipelineOrchestrator.kt:113-205 | the history rows `processTask` writes are numbered, chained and each allowed; a rejection's reason is the longest prefix of the review within 500 UTF-16 code units |
| Orchestrator.Advance | src/main/kotlin/com/kai/pipeline/PipelineOrchestrator.kt:144 | an allowed `transitionTask` changes only that task's status, appends one row, and reads the task back |
| Orchestrator.StartError | src/main/kotlin/com/kai/pipeline/PipelineOrchestrator.kt:107-113 | `processTask` fails at the start exactly when the task is missing or cannot move to IN_PROGRESS |
| Orchestrator.StartTask | src/main/kotlin/com/kai/pipeline/PipelineOrchestrator.kt:107-115 | on failure nothing changes; otherwise one row to IN_PROGRESS, and the branch name and CODE_WRITER are recorded |
| Orchestrator.GenerateCode | src/main/kotlin/com/kai/pipeline/PipelineOrchestrator.kt:123-141 | the branch call's failure is swallowed; the code is the controller's answer to the code prompt; the CODE_GENERATION output is appended |
| Orchestrator.OpenPr | src/main/kotlin/com/kai/pipeline/PipelineOrchestrator.kt:143-161 | the task moves to PR_OPENED; the PR URL is recorded only when the tool call succeeded; a failed call is swallowed |
| Orchestrator.Merge | src/main/kotlin/com/kai/pipeline/PipelineOrchestrator.kt:180-182 | REVIEWING to APPROVED to MERGED, two logged rows |
| Orchestrator.Ship | src/main/kotlin/com/kai/pipeline/PipelineOrchestrator.kt:182-186 | MERGED to TESTING to TEST_PASSED to DEPLOYED |
| Orchestrator.Deploy | src/main/kotlin/com/kai/pipeline/PipelineOrchestrator.kt:180-194 | the approve chain from REVIEWING ends DEPLOYED with exactly its five rows logged |
| Orchestrator.Conclude | src/main/kotlin/com/kai/pipeline/PipelineOrchestrator.kt:163-205 | the review is saved as a REVIEW output; the task ends DEPLOYED when approved, CHANGES_REQUESTED with the review's longest prefix within 500 UTF-16 code units otherwise |
| Orchestrator.Prepare | src/main/kotlin/com/kai/pipeline/PipelineOrchestrator.kt:117-164 | for a task IN_PROGRESS: code output saved, PR_OPENED then REVIEWING, with the PR URL on success |
| Orchestrator.Deliver | src/main/kotlin/com/kai/pipeline/PipelineOrchestrator.kt:117-205 | for a task IN_PROGRESS: every step after the start, ending in the review's outcome |
| Orchestrator.ProcessTask | src/main/kotlin/com/kai/pipeline/PipelineOrchestrator.kt:106-206 | a missing or unstartable task fails with nothing changed; otherwise four or five history rows, two outputs, and the task's final status, branch, agent and URL |
| Orchestrator.ProcessJoin | src/main/kotlin/com/kai/pipeline/PipelineOrchestrator.kt:106-206 | the start step followed by the delivery step gives the whole `processTask` effect |
| Orchestrator.BulkLog | src/main/kotlin/com/kai/pipeline/PipelineOrchestrator.kt:50-56 | one row per moved task, numbered in order |
| Orchestrator.BulkAdvance | src/main/kotlin/com/kai/pipeline/PipelineOrchestrator.kt:50-56 | each listed task moves to the new status in id order, one row each; the other tasks are unchanged and no move throws |
| Orchestrator.AdvanceRead | src/main/kotlin/com/kai/pipeline/PipelineOrchestrator.kt:79 | moving a task read from the store returns that task in its new status |
| Orchestrator.NotYetMoved | src/main/kotlin/com/kai/pipeline/PipelineOrchestrator.kt:77-84 | with ascending ids a task is not among those before it |
| Orchestrator.ProjectIds | src/main/kotlin/com/kai/pipeline/PipelineOrchestrator.kt:48 | the tasks read for a status are exactly the project's tasks in that status, in id order |
| Orchestrator.TransitionCreatedToPlanned | src/main/kotlin/com/kai/pipeline/PipelineOrchestrator.kt:47-57 | exactly the project's CREATED tasks become PLANNED; nothing else changes, and the swallowed exceptions cannot arise |
| Orchestrator.Finished | src/main/kotlin/com/kai/pipeline/PipelineOrchestrator.kt:113-205 | a processed task's row ends DEPLOYED exactly when its review approves and CHANGES_REQUESTED otherwise; only its status, branch, agent and PR URL differ from the row it started from |
| Orchestrator.RunTask | src/main/kotlin/com/kai/pipeline/PipelineOrchestrator.kt:87-93 | `processTask` on a READY task finishes that task's row and appends its history rows and its two outputs; no other task and no other table changes |
| Orchestrator.RunAt | src/main/kotlin/com/kai/pipeline/PipelineOrchestrator.kt:89 | the same, for a READY task as read from the store |
| Orchestrator.RunRow | src/main/kotlin/com/kai/pipeline/PipelineOrchestrator.kt:87-93 | running the next task of the batch leaves the rows as after one more task ran, and appends that task's history rows and outputs |
| Orchestrator.RunNext | src/main/kotlin/com/kai/pipeline/PipelineOrchestrator.kt:87-93 | running the next task of the batch leaves rows, history and outputs as after one more task ran |
| Orchestrator.ReplayAt | src/main/kotlin/com/kai/pipeline/PipelineOrchestrator.kt:87-93 | running tasks with ascending ids one after another finishes exactly their rows, each from its starting row, and leaves every other row as it was |
| Orchestrator.RanLogNumbered | src/main/kotlin/com/kai/pipeline/PipelineOrchestrator.kt:87-93 | a batch only appends to the history, and the appended rows continue its numbering without a gap |
| Orchestrator.RanLogTasks | src/main/kotlin/com/kai/pipeline/PipelineOrchestrator.kt:87-93 | every history row a batch appends names a task of the batch |
| Orchestrator.RanOutputsShape | src/main/kotlin/com/kai/pipeline/PipelineOrchestrator.kt:87-93 | a batch appends exactly two outputs per task, in batch order: the code, then the review, numbered on |
| Orchestrator.ProcessAll | src/main/kotlin/com/kai/pipeline/PipelineOrchestrator.kt:86-93 | each listed READY task's row is finished from its starting row, so it ends DEPLOYED exactly when its review approves; the history and outputs gain each task's rows in list order; every other task and table is untouched |
| Orchestrator.ReadyIds | src/main/kotlin/com/kai/pipeline/PipelineOrchestrator.kt:67 | ready tasks are exactly the project's PLANNED tasks whose found dependencies are all DEPLOYED, in id order |
| Orchestrator.PlanningKeepsDeployed | src/main/kotlin/com/kai/pipeline/PipelineOrchestrator.kt:65-67 | planning CREATED tasks changes no task's DEPLOYED standing, so it changes which dependencies count as met for no one |
| Orchestrator.PlanAndFindReady | src/main/kotlin/com/kai/pipeline/PipelineOrchestrator.kt:64-67 | after planning, the ready tasks are the project's tasks that were CREATED or PLANNED with all found dependencies DEPLOYED |
| Orchestrator.MoveReady | src/main/kotlin/com/kai/pipeline/PipelineOrchestrator.kt:75-84 | the ready PLANNED tasks move to READY in id order and are returned as read after the move; only their statuses change, with one history row each |
| Orchestrator.ReadyAndRun | src/main/kotlin/com/kai/pipeline/PipelineOrchestrator.kt:75-95 | the ready tasks move to READY and are returned as moved; each row then ends finished from its starting row, so DEPLOYED exactly when approved; the history gains the bulk move's rows and then each task's rows, and the outputs gain two per task |
| Orchestrator.ExecuteNextTasks | src/main/kotlin/com/kai/pipeline/PipelineOrchestrator.kt:63-96 | returns, in id order, exactly the project's CREATED or PLANNED tasks whose found dependencies are DEPLOYED, as moved to READY; each ends DEPLOYED exactly when its review approves; the other CREATED project tasks become PLANNED; the history is the planning rows, the bulk move's rows and each task's rows; the outputs gain two per task |
| Orchestrator.AnalyzeProject | src/main/kotlin/com/kai/pipeline/PipelineOrchestrator.kt:22-28 | a missing project fails with "Project <id> not found" and nothing changes; otherwise the analyzer's rows are stored, and a repeated edge fails with the edges before it kept, since no transaction spans the inserts |
| Orchestrator.PlanAndExecute | src/main/kotlin/com/kai/pipeline/PipelineOrchestrator.kt:39-43 | every returned task was READY when returned and ends DEPLOYED exactly when its review approves; the history extends the planning rows with the bulk move's rows and each task's rows; the outputs gain two per task; the dependency table is unchanged |
| Orchestrator.AnalyzeAndExecute | src/main/kotlin/com/kai/pipeline/PipelineOrchestrator.kt:34-44 | a missing project returns its error with nothing changed; a repeated edge returns its error with the new task rows as created, the edges before the repeat kept, and no history row or output added; otherwise the analysis rows are stored and the returned tasks, READY in id order, each end DEPLOYED exactly when their review approves, with their history rows and outputs appended |
| Orchestrator.GroupCountsExact | src/main/kotlin/com/kai/pipeline/PipelineOrchestrator.kt:217 | each status with tasks is a key whose count is its number of tasks; a status without tasks has no key |
| Orchestrator.GroupCountsKeys | src/main/kotlin/com/kai/pipeline/PipelineOrchestrator.kt:217 | every key names a status that has tasks |
| Orchestrator.CountsAddUp | src/main/kotlin/com/kai/pipeline/PipelineOrchestrator.kt:217-222 | the counts add up to the number of tasks |
| Orchestrator.GetProjectStatus | src/main/kotlin/com/kai/pipeline/PipelineOrchestrator.kt:209-228 | a missing project fails; otherwise the project's epics, features and tasks, with the total |
| Orchestrator.ReportCounts | src/main/kotlin/com/kai/pipeline/PipelineOrchestrator.kt:217-223 | the report's per-status counts are exact and add up to its total |
| ProjectAnalyzer.ParseAnalysisResponse | src/main/kotlin/com/kai/pipeline/ProjectAnalyzer.kt:88-119 | the decoded JSON part of the reply when it decodes, otherwise the one-epic, one-feature, one-task fallback |
| ProjectAnalyzer.Clamp | src/main/kotlin/com/kai/pipeline/ProjectAnalyzer.kt:154 | `coerceIn(1, 5)`: within 1..5, unchanged inside the range, the nearer bound outside it |
| ProjectAnalyzer.CategoryOf | src/main/kotlin/com/kai/pipeline/ProjectAnalyzer.kt:145 | the category with that name, BACKEND only when no category has it |
| ProjectAnalyzer.PriorityOf | src/main/kotlin/com/kai/pipeline/ProjectAnalyzer.kt:146 | the priority with that name, MEDIUM only when no priority has it |
| ProjectAnalyzer.RowsAt | src/main/kotlin/com/kai/pipeline/ProjectAnalyzer.kt:148-155 | task row k is the (k+1)-th new task, normalised and CREATED under its feature |
| ProjectAnalyzer.EpicRowsAt | src/main/kotlin/com/kai/pipeline/ProjectAnalyzer.kt:129-134 | epic row i is the (i+1)-th new epic and its order is its index in the analysis |
| ProjectAnalyzer.FeatureRowsAt | src/main/kotlin/com/kai/pipeline/ProjectAnalyzer.kt:137-142 | feature row i is the (i+1)-th new feature of its epic |
| ProjectAnalyzer.LastWith | src/main/kotlin/com/kai/pipeline/ProjectAnalyzer.kt:157 | the index of the last task with the title, or -1 when none has it |
| ProjectAnalyzer.TitleIdsLastWins | src/main/kotlin/com/kai/pipeline/ProjectAnalyzer.kt:157 | the title map sends a title to the last task stored with it, keeping an earlier id when none of the new tasks has it |
| ProjectAnalyzer.DeferredWithin | src/main/kotlin/com/kai/pipeline/ProjectAnalyzer.kt:158-160 | every deferred entry names one of the new tasks and has at least one title |
| ProjectAnalyzer.CreateRow | src/main/kotlin/com/kai/pipeline/ProjectAnalyzer.kt:145-155 | `createTask` with the normalised values cannot fail on a key, since the feature exists and no dependency is passed: one new row and nothing else |
| ProjectAnalyzer.PersistTask | src/main/kotlin/com/kai/pipeline/ProjectAnalyzer.kt:145-160 | one task row; its title maps to it; it is deferred exactly when it names dependencies |
| ProjectAnalyzer.PersistTasks | src/main/kotlin/com/kai/pipeline/ProjectAnalyzer.kt:144-161 | a feature's tasks become consecutive rows in order, with the map and the deferred list updated |
| ProjectAnalyzer.PersistFeature | src/main/kotlin/com/kai/pipeline/ProjectAnalyzer.kt:136-161 | one feature row, then its tasks |
| ProjectAnalyzer.PersistFeatures | src/main/kotlin/com/kai/pipeline/ProjectAnalyzer.kt:136-162 | an epic's features in order, each followed by its tasks |
| ProjectAnalyzer.PersistEpic | src/main/kotlin/com/kai/pipeline/ProjectAnalyzer.kt:128-163 | one epic row with its index as order, then its features and tasks |
| ProjectAnalyzer.PersistEpics | src/main/kotlin/com/kai/pipeline/ProjectAnalyzer.kt:128-163 | every epic, feature and task row of the breakdown, in creation order |
| ProjectAnalyzer.EdgesOfExact | src/main/kotlin/com/kai/pipeline/ProjectAnalyzer.kt:166-174 | an entry adds an edge exactly for each title that has a task; unknown titles are skipped |
| ProjectAnalyzer.ResolvedExact | src/main/kotlin/com/kai/pipeline/ProjectAnalyzer.kt:166-175 | an edge is added exactly when some deferred entry resolves to it |
| ProjectAnalyzer.ResolveEntry | src/main/kotlin/com/kai/pipeline/ProjectAnalyzer.kt:167-174 | one entry's edges are added in title order; the first repeated edge makes the insert throw, leaving the edges before it stored |
| ProjectAnalyzer.DuplicateSpreads | src/main/kotlin/com/kai/pipeline/ProjectAnalyzer.kt:166-175 | once an edge repeats, no longer list of edges is free of repeats |
| ProjectAnalyzer.ResolveDependencies | src/main/kotlin/com/kai/pipeline/ProjectAnalyzer.kt:165-175 | all entries' edges are added in order, unless one repeats: that is the error, and the edges before it stay stored |
| ProjectAnalyzer.StoppedWithin | src/main/kotlin/com/kai/pipeline/ProjectAnalyzer.kt:165-175 | inserts that stop at a repeated edge within one entry's edges also stop at that edge within the whole list, with everything before it stored |
| ProjectAnalyzer.PersistAnalysis | src/main/kotlin/com/kai/pipeline/ProjectAnalyzer.kt:122-176 | the breakdown's rows are stored; the dependencies resolve against the full title map, so a task may depend on a later one and a reused title means the later task; a repeated edge is the error, after the edges before it are stored |
| ProjectAnalyzer.Analyze | src/main/kotlin/com/kai/pipeline/ProjectAnalyzer.kt:22-43 | the decoded breakdown (or the fallback) is stored and returned; a repeated edge is the store's error, with the rows and the edges before it kept |
| VerificationGate.CompileIssuesCount | src/main/kotlin/com/kai/core/VerificationGate.kt:48-74 | the compile layer adds exactly one issue per Kotlin artifact the compiler fails |
| VerificationGate.CompileIssuesSound | src/main/kotlin/com/kai/core/VerificationGate.kt:55-64 | each compile issue is CRITICAL, carries the compiler's error and sits at the filename of a failing Kotlin artifact |
| VerificationGate.CompileIssuesComplete | src/main/kotlin/com/kai/core/VerificationGate.kt:49-64 | every failing Kotlin artifact is reported CRITICAL at its filename |
| VerificationGate.Contents | src/main/kotlin/com/kai/core/VerificationGate.kt:104-113 | a list reads only when every element is a primitive, element by element |
| VerificationGate.FilterTests | src/main/kotlin/com/kai/core/VerificationGate.kt:134-139 | the filter keeps only artifacts on the wanted side of the "Test" name test |
| VerificationGate.FilterTestsHead | src/main/kotlin/com/kai/core/VerificationGate.kt:134-146 | a filtered list is empty exactly when no artifact qualifies; its head is the first that does |
| VerificationGate.Verify | src/main/kotlin/com/kai/core/VerificationGate.kt:43-171 | `verify` computes the three-layer result |
| VerificationGate.PassedMeansNoCriticalAndScore | src/main/kotlin/com/kai/core/VerificationGate.kt:122-166 | on every path, passed iff no issue is CRITICAL and the score is at least 0.7 |
| VerificationGate.CompileFailureFails | src/main/kotlin/com/kai/core/VerificationGate.kt:48-166 | one failing Kotlin artifact fails the answer whatever the judge says |
| VerificationGate.UsableJudgeSkipsTests | src/main/kotlin/com/kai/core/VerificationGate.kt:117-127 | with a usable verdict: the judge's issues follow the compile issues as WARNINGs, score and suggestions are the judge's, and the test runner plays no part |
| VerificationGate.UnusableJudgeKeepsDefault | src/main/kotlin/com/kai/core/VerificationGate.kt:45-170 | without a usable verdict the score stays 0.7, there are no suggestions, and the issues are the compile then the test issues |
| VerificationGate.NonObjectReplyUnusable | src/main/kotlin/com/kai/core/VerificationGate.kt:98-99 | a reply that does not parse or is not an object gives no verdict |
| VerificationGate.ObjectReplyUsable | src/main/kotlin/com/kai/core/VerificationGate.kt:98-115 | an object with readable lists gives a verdict whose score is the "score" field as a number, else 0.7 |
| VerificationGate.TestLayerShape | src/main/kotlin/com/kai/core/VerificationGate.kt:133-161 | at most one CRITICAL issue, only with a runner and both a test and a source artifact, running the first source against the first test |
| ReActAgent.RetriesMessageShowsConfig | src/main/kotlin/com/kai/core/ReActAgent.kt:207 | the message as written starts "Max retries (AgentConfig(" instead of the budget; the corrected one starts "Max retries (3)" under the default configuration |
| ReActAgent.ExhaustedRetriesShowConfig | src/main/kotlin/com/kai/core/ReActAgent.kt:197-210 | the loop as written: an agent that only reports recoverable Errors, with a budget of 3 retries, fails with a message that starts "Max retries (AgentConfig(" |
| ReActAgent.ExhaustedRetriesIntended | src/main/kotlin/com/kai/core/ReActAgent.kt:197-210 | with the intended message the same run fails with "Max retries (3) exceeded: " followed by the last Error's text |
| ReActAgent.ObserveFor | src/main/kotlin/com/kai/core/ReActAgent.kt:113-145 | the Observe after an Act names its tool; an unknown tool is the retryable failure "Bilinmeyen tool: <name>" taking 0 ms; a throw or a timeout is a retryable failure |
| ReActAgent.Execute | src/main/kotlin/com/kai/core/ReActAgent.kt:47-220 | the loop computes the run the specification function describes |
| ReActAgent.CallsBounded | src/main/kotlin/com/kai/core/ReActAgent.kt:73-74 | the reasoning capability is called at most once per allowed pass; running out of budget means every pass was made |
| ReActAgent.CallsAtMostBudget | src/main/kotlin/com/kai/core/ReActAgent.kt:73-219 | a run makes at most maxIterations calls, and exactly that many when it ends with MaxIterationsExceeded |
| ReActAgent.TrajectoryLength | src/main/kotlin/com/kai/core/ReActAgent.kt:94-145 | the trajectory holds one step per call plus one Observe per Act |
| ReActAgent.EveryActObserved | src/main/kotlin/com/kai/core/ReActAgent.kt:108-157 | every Act is immediately followed by the Observe of its tool, run on the trajectory up to that Act |
| ReActAgent.RunKeepsObserved | src/main/kotlin/com/kai/core/ReActAgent.kt:108-157 | the loop keeps the act-observe pairing from any starting trajectory |
| ReActAgent.OutcomeMatchesLastStep | src/main/kotlin/com/kai/core/ReActAgent.kt:159-219 | an Answer is returned with metadata from the whole trajectory (steps, distinct tools, summed durations, this role); a Delegate is rethrown; a failure follows an Error; only the budget ends a run otherwise |
| ReActAgent.RetryAccounting | src/main/kotlin/com/kai/core/ReActAgent.kt:197-210 | the retry count is the number of recoverable Errors; a recoverable Error fails the run exactly when it spends the budget, with the retries message; an unrecoverable one fails with its own text |
| ReActAgent.PassAccounting | src/main/kotlin/com/kai/core/ReActAgent.kt:96-219 | one pass of the loop (`Iterate`) keeps the retry count equal to the recoverable Errors so far and below the budget while the run goes on; a pass that ends the run in failure ends on an Error that explains the message |
| ReActAgent.FailuresExplained | src/main/kotlin/com/kai/core/ReActAgent.kt:197-210 | from the start, every failure is explained by the last Error as above |
| ReActAgent.ThrowIsRecoverable | src/main/kotlin/com/kai/core/ReActAgent.kt:79-92 | while retries remain, a thrown reasoning call spends one retry or ends the run with the retries message |
| ReActAgent.ThinkingForever | src/main/kotlin/com/kai/core/ReActAgent.kt:96-219 | an agent that only thinks ends MaxIterationsExceeded after exactly the budgeted calls |
| ReActAgent.RecoverableErrorsForever | src/main/kotlin/com/kai/core/ReActAgent.kt:205-208 | an agent that only reports recoverable errors fails after exactly maxRetries calls |
| AgentTasks.NewTask | src/main/kotlin/com/kai/core/AgentTask.kt:6-11 | the constructor's defaults: no context, no constraints, no parent |
| AgentTasks.KeepEntities | src/main/kotlin/com/kai/core/AgentTask.kt:16-21 | keeps exactly the entity words of the list |
| AgentTasks.Entities | src/main/kotlin/com/kai/core/AgentTask.kt:12-23 | exactly the distinct non-empty entity words of the white-space split of the description |
| AgentTasks.EntitiesInFirstOccurrenceOrder | src/main/kotlin/com/kai/core/AgentTask.kt:22 | the entities keep the order of first occurrence |
| AgentTasks.DataClassNeverMatches | src/main/kotlin/com/kai/core/AgentTask.kt:15-28 | the term "data class" contains a space, so it never selects a word of the split |
| AgentTasks.FromDelegation | src/main/kotlin/com/kai/core/AgentTask.kt:33-39 | the delegated task is the delegation's description, with its reason as context, its constraints and no parent |
| Tools.Param | src/main/kotlin/com/kai/tools/Tool.kt:37-42 | a parameter declared with defaults is a required "string" |
| Tools.Properties | src/main/kotlin/com/kai/tools/Tool.kt:25-30 | the schema has a property exactly for each declared parameter name |
| Tools.PropertiesLastWins | src/main/kotlin/com/kai/tools/Tool.kt:25-30 | a repeated name keeps its last declaration |
| Tools.RequiredNames | src/main/kotlin/com/kai/tools/Tool.kt:31 | exactly the names of the required parameters |
| Tools.RequiredNamesInOrder | src/main/kotlin/com/kai/tools/Tool.kt:31 | required names come in declaration order |
| Tools.ToToolDefinition | src/main/kotlin/com/kai/tools/Tool.kt:19-34 | the tool's own name and description and an "object" schema over exactly its parameters, requiring exactly the required ones |
| KotlinCompilerTool.OnlyCodeRequired | src/main/kotlin/com/kai/tools/KotlinCompilerTool.kt:19-22 | only "code" is required |
| KotlinCompilerTool.Mismatches | src/main/kotlin/com/kai/tools/KotlinCompilerTool.kt:60-73 | no issue iff braces and parentheses each balance; the brace mismatch comes first |
| KotlinCompilerTool.SyntaxCheck | src/main/kotlin/com/kai/tools/KotlinCompilerTool.kt:59-80 | success naming the file iff both counts balance, else a retryable failure listing the mismatches one per line |
| KotlinCompilerTool.EmptyCodePasses | src/main/kotlin/com/kai/tools/KotlinCompilerTool.kt:59-80 | empty code passes the syntax check |
| KotlinCompilerTool.Execute | src/main/kotlin/com/kai/tools/KotlinCompilerTool.kt:24-56 | a missing "code" is a non-retryable failure; the file defaults to "Main.kt"; exit code 0 succeeds, any other is a retryable failure with the output; a compiler that cannot run falls back to the syntax check |
| FileSystemTool.ActionAndPathRequired | src/main/kotlin/com/kai/tools/FileSystemTool.kt:18-22 | "action" and "path" are required, "content" is not |
| FileSystemTool.ReplaceAbsent | src/main/kotlin/com/kai/tools/FileSystemTool.kt:88-89 | a pattern that does not occur leaves the path unchanged |
| FileSystemTool.Slashes | src/main/kotlin/com/kai/tools/FileSystemTool.kt:87 | every backslash becomes a slash and nothing else changes |
| FileSystemTool.DropLeadingSlash | src/main/kotlin/com/kai/tools/FileSystemTool.kt:90 | one leading slash is removed |
| FileSystemTool.RemoveKeepsChars | src/main/kotlin/com/kai/tools/FileSystemTool.kt:88-89 | removing a pattern adds no character |
| FileSystemTool.NormalizeHasNoBackslash | src/main/kotlin/com/kai/tools/FileSystemTool.kt:86-90 | after the slash replacement the "..\\" removal finds nothing; the normalised path has no backslash |
| FileSystemTool.RemovalCanCreateTraversal | src/main/kotlin/com/kai/tools/FileSystemTool.kt:88 | the single removal pass turns "....//" into "../", so normalising alone does not remove traversal; the sandbox containment check is what blocks it |
| FileSystemTool.Validate | src/main/kotlin/com/kai/tools/FileSystemTool.kt:24-76 | the input passes iff action and path are present, the normalised path stays in the sandbox, the action is one of the four in any case, and a write has content; every rejection is non-retryable |
| FileSystemTool.Execute | src/main/kotlin/com/kai/tools/FileSystemTool.kt:24-82 | missing action or path, an escaping path and an unknown action fail non-retryably with their messages; a throwing operation is a retryable I/O failure |
| FileSystemTool.RejectedBeforeAnyAction | src/main/kotlin/com/kai/tools/FileSystemTool.kt:24-34 | a rejected input fails the same whatever the file system would do |
| FileSystemTool.ActionCaseInsensitive | src/main/kotlin/com/kai/tools/FileSystemTool.kt:34 | action names are compared case-insensitively |
| MemoryLayer.FactLine | src/main/kotlin/com/kai/memory/MemoryLayer.kt:48 | a fact's prompt line is "subject --[relation]--> object", never shorter than the fixed decoration |
| MemoryLayer.FactLines | src/main/kotlin/com/kai/memory/MemoryLayer.kt:48 | one line per fact, in the order of the facts |
| MemoryLayer.ToPromptString | src/main/kotlin/com/kai/memory/MemoryLayer.kt:46-49 | the prompt text is empty exactly when the context has no facts |
| MemoryLayer.PromptStringAppend | src/main/kotlin/com/kai/memory/MemoryLayer.kt:46-49 | the lines follow the facts in order, newline-separated with no trailing newline: one more fact adds "\n" and its line |
| MemoryLayer.PromptStringIgnoresEntities | src/main/kotlin/com/kai/memory/MemoryLayer.kt:42-49 | the entities of a context play no part in its prompt text |
| DualMemory.ErrorCount | src/main/kotlin/com/kai/memory/DualMemory.kt:119 | the count of Error steps is at most the trajectory length, is zero exactly when no step is an Error, and equals the length exactly when every step is one |
| DualMemory.ErrorCountAppend | src/main/kotlin/com/kai/memory/DualMemory.kt:119 | the Error count of two trajectories joined is the sum of their counts |
| DualMemory.Score | src/main/kotlin/com/kai/memory/DualMemory.kt:112-126 | the episode score, in tenths, always lies in [0, 10] (0.0 to 1.0) |
| DualMemory.CalculateScore | src/main/kotlin/com/kai/memory/DualMemory.kt:112-126 | the step-by-step adjustment (base 0.5, +0.2 with artifacts, -0.1 per error, -0.1 beyond eight steps, clamped) equals the score formula and stays in [0, 1] |
| DualMemory.ScoreBaseline | src/main/kotlin/com/kai/memory/DualMemory.kt:113-116 | a clean run of at most eight steps scores 0.5 without artifacts and 0.7 with them |
| DualMemory.ScoreMonotone | src/main/kotlin/com/kai/memory/DualMemory.kt:116-123 | artifacts never lower the score; more errors or more steps never raise it; an extra error lowers it strictly while it is strictly between the bounds |
| DualMemory.Segment | src/main/kotlin/com/kai/memory/DualMemory.kt:96-107 | an Observe step is summarised as "Observe: tool -> " followed by "success" or "failure" according to its result |
| DualMemory.Segments | src/main/kotlin/com/kai/memory/DualMemory.kt:95-108 | one segment per trajectory step, in order (no step is dropped) |
| DualMemory.SummaryAppend | src/main/kotlin/com/kai/memory/DualMemory.kt:94-110 | the summary joins the segments with a space-padded vertical bar: a step added at the end adds that separator and its segment |
| DualMemory.Memory.constructor | src/main/kotlin/com/kai/memory/DualMemory.kt:17-23 | a new memory keeps its collaborators and has no session contexts |
| DualMemory.Memory.RecallSimilar | src/main/kotlin/com/kai/memory/DualMemory.kt:27-35 | the vector store's episodes for the query's embedding; none when the embedding or the query fails |
| DualMemory.Memory.StoreEpisode | src/main/kotlin/com/kai/memory/DualMemory.kt:37-58 | a row is sent exactly when the embedding succeeds, and it carries the description, the trajectory summary, the score and the answer's artifacts; an insert failure is absorbed |
| DualMemory.Memory.QueryGraph | src/main/kotlin/com/kai/memory/DualMemory.kt:62-69 | the graph store's context, or an empty context echoing the entities when the query fails |
| DualMemory.Memory.UpdateGraph | src/main/kotlin/com/kai/memory/DualMemory.kt:71-78 | the facts are handed to the graph store and a failure is absorbed: the merge went through exactly when the store accepted it |
| DualMemory.Memory.GetSessionContext | src/main/kotlin/com/kai/memory/DualMemory.kt:84-86 | the context last written for the session, or "" |
| DualMemory.Memory.UpdateSessionContext | src/main/kotlin/com/kai/memory/DualMemory.kt:88-90 | afterwards the session reads as written and every other session reads as before |
| Neo4jStore.SanitizeChar | src/main/kotlin/com/kai/memory/Neo4jStore.kt:74-75 | every character comes out in [A-Z0-9_], and a character already there is kept |
| Neo4jStore.SanitizeRelation | src/main/kotlin/com/kai/memory/Neo4jStore.kt:72-77 | the result is the first 50 characters (or all, when shorter), each upper-cased and replaced by "_" outside [A-Z0-9_] |
| Neo4jStore.SafeRelationUnchanged | src/main/kotlin/com/kai/memory/Neo4jStore.kt:72-77 | a relation of at most 50 safe characters comes back unchanged |
| Neo4jStore.SanitizeIdempotent | src/main/kotlin/com/kai/memory/Neo4jStore.kt:72-77 | sanitising twice is sanitising once |
| Neo4jStore.QueryRelated | src/main/kotlin/com/kai/memory/Neo4jStore.kt:25-49 | the context always carries the caller's entities; an empty list gives no facts without querying; otherwise the facts are the first at most 50 that the query matches, all of them when there are no more than 50 |
| InMemoryMemory.Related | src/main/kotlin/com/kai/Application.kt:300 | exactly the facts whose subject or object is among the entities |
| InMemoryMemory.RelatedConcat | src/main/kotlin/com/kai/Application.kt:300 | the fact filter keeps order and duplicates: the related facts of two lists one after the other are those of each in turn |
| InMemoryMemory.WindowSlides | src/main/kotlin/com/kai/Application.kt:309-318 | trimming to the last 100 after each append keeps the last 100 of the whole history |
| InMemoryMemory.InMemoryMemoryLayer.constructor | src/main/kotlin/com/kai/Application.kt:290-293 | the layer starts with no episodes, facts or sessions |
| InMemoryMemory.InMemoryMemoryLayer.RecallSimilar | src/main/kotlin/com/kai/Application.kt:295-297 | the query is ignored: the last `limit` episodes in stored order, all when fewer; a negative limit fails as `takeLast` does |
| InMemoryMemory.InMemoryMemoryLayer.QueryGraph | src/main/kotlin/com/kai/Application.kt:299-302 | the context echoes the entities and holds exactly the stored facts that mention one of them |
| InMemoryMemory.InMemoryMemoryLayer.StoreEpisode | src/main/kotlin/com/kai/Application.kt:304-319 | the episode (score 0.7, "N steps" summary) is appended and the buffer keeps the latest 100 episodes of the whole history; facts and sessions are untouched |
| InMemoryMemory.InMemoryMemoryLayer.UpdateGraph | src/main/kotlin/com/kai/Application.kt:321-323 | every new fact is appended, duplicates included; nothing else changes |
| InMemoryMemory.InMemoryMemoryLayer.GetSessionContext | src/main/kotlin/com/kai/Application.kt:325-327 | the context last written for the session, or "" |
| InMemoryMemory.InMemoryMemoryLayer.UpdateSessionContext | src/main/kotlin/com/kai/Application.kt:329-331 | the session reads as written, others as before, and the episodes and facts are untouched |
| AgentRoles.PromptKeys | src/main/kotlin/com/kai/core/AgentRole.kt:24-25 | each role's prompt key is its constant name in lower case |
| AgentRoles.NamesDistinct | src/main/kotlin/com/kai/core/AgentRole.kt:14-25 | no two roles share a display name (`DisplayName`) or a prompt key |
| SystemPromptBuilder.RolePrompt | src/main/kotlin/com/kai/core/SystemPromptBuilder.kt:52-110 | every role text opens with the header line "## Rol: <role> Agent" naming its role |
| SystemPromptBuilder.EpisodeLines | src/main/kotlin/com/kai/core/SystemPromptBuilder.kt:120-123 | two lines per recalled episode, in recall order: the score with the description's longest prefix within 100 UTF-16 code units, then the summary's within 150 |
| SystemPromptBuilder.MemoryParts | src/main/kotlin/com/kai/core/SystemPromptBuilder.kt:116-129 | the episodic header and lines appear exactly when there are episodes, the semantic header and graph text exactly when there are facts, in that order |
| SystemPromptBuilder.BuildMemorySection | src/main/kotlin/com/kai/core/SystemPromptBuilder.kt:112-132 | the part list filled episode by episode and joined by newlines is the memory section |
| SystemPromptBuilder.MemorySectionShape | src/main/kotlin/com/kai/core/SystemPromptBuilder.kt:112-132 | the memory section is empty exactly when nothing is recalled, and with facts it ends with the semantic header and the graph lines |
| SystemPromptBuilder.ConstraintSection | src/main/kotlin/com/kai/core/SystemPromptBuilder.kt:30-32 | the constraints block is empty exactly when there are no constraints, else its header and one "- c" line per constraint |
| SystemPromptBuilder.ContextSection | src/main/kotlin/com/kai/core/SystemPromptBuilder.kt:33-35 | the context block is empty exactly when the context is blank, else its header followed by the context |
| SystemPromptBuilder.RuleLines | src/main/kotlin/com/kai/core/SystemPromptBuilder.kt:43-48 | the six general-rule lines, in template order |
| SystemPromptBuilder.BuildPieces | src/main/kotlin/com/kai/core/SystemPromptBuilder.kt:28-49 | for every input, `build` is the role text, memory, constraints and context each as the margin cut leaves it, newline-separated, then a blank line and the general rules |
| SystemPromptBuilder.RulesAlwaysPresent | src/main/kotlin/com/kai/core/SystemPromptBuilder.kt:37-49 | every prompt ends with a blank line and the general rules, whatever the pieces hold |
| SystemPromptBuilder.FixedMarginFree | src/main/kotlin/com/kai/core/SystemPromptBuilder.kt:37-49 | a piece none of whose later lines starts with a bar passes through the margin cut unchanged |
| SystemPromptBuilder.BuildAsIntended | src/main/kotlin/com/kai/core/SystemPromptBuilder.kt:28-49 | when no later line of memory, constraints or context starts with a bar, `build` yields the intended prompt with those pieces verbatim |
| SystemPromptBuilder.IntendedSections | src/main/kotlin/com/kai/core/SystemPromptBuilder.kt:28-49 | the intended prompt holds the full constraints block when there are constraints and the full context block when the context is not blank, and ends with the rules |
| SystemPromptBuilder.BarInContextIsStripped | src/main/kotlin/com/kai/core/SystemPromptBuilder.kt:33-49 | a context "x" preceded by a vertical bar and the context "x" give the same prompt although the intended prompts differ |
| SystemPromptBuilder.ContextBarLost | src/main/kotlin/com/kai/core/SystemPromptBuilder.kt:34 | the context block of "x" preceded by a vertical bar and that of "x" have the same lines after the margin cut |
| Fences.WordRunIsMaximal | src/main/kotlin/com/kai/llm/AnthropicClient.kt:191 | the optional info word after a fence is the longest run of word characters there, as the greedy group takes it |
| Fences.WsRunIsMaximal | src/main/kotlin/com/kai/llm/AnthropicClient.kt:191 | the white-space run after the info word is maximal, as the greedy group takes it |
| Fences.LastNewlineIsLast | src/main/kotlin/com/kai/llm/AnthropicClient.kt:191 | the newline that ends the opening line is the last one inside the white-space run, so the body starts right after it |
| Fences.FindFenceIsFirst | src/main/kotlin/com/kai/llm/AnthropicClient.kt:191 | the lazy body ends at the first closing fence after it, and no fence lies in between |
| Fences.BlockAtShape | src/main/kotlin/com/kai/llm/AnthropicClient.kt:191 | a match at a position is an opening fence, an optional info word, white space ending in a newline, a body without a fence, and a closing fence |
| Fences.FirstBlockIsLeftmost | src/main/kotlin/com/kai/core/VerificationGate.kt:174-176 | the match found is the leftmost one; without a match no position in the text starts one |
| Fences.AllBlocks | src/main/kotlin/com/kai/llm/AnthropicClient.kt:192 | every match of `findAll` is a match at its start, and the matches do not overlap and come in text order |
| Fences.ExtractJsonFenced | src/main/kotlin/com/kai/core/VerificationGate.kt:176 | with a JSON fence the result is the fence's body trimmed, no longer than the text and with no white space at either end |
| Fences.ExtractJsonBraces | src/main/kotlin/com/kai/core/VerificationGate.kt:178-182 | without a fence, when a '{' comes before the last '}', the span from the first '{' to the last '}' |
| Fences.ExtractJsonUnchanged | src/main/kotlin/com/kai/core/VerificationGate.kt:183 | without a fence or a braced span the text comes back unchanged |
| Fences.ExtractJsonOfFence | src/main/kotlin/com/kai/core/VerificationGate.kt:173-184 | wrapping a JSON text in a json fence and extracting gives it back without its trailing white space |
| Fences.ExtractJsonOfObject | src/main/kotlin/com/kai/core/VerificationGate.kt:178-182 | a text without backticks that already runs from '{' to '}' is taken whole |
| Margin.Lines | src/main/kotlin/com/kai/core/SystemPromptBuilder.kt:49 | `lines()` gives at least one line |
| Margin.LinesJoin | src/main/kotlin/com/kai/core/SystemPromptBuilder.kt:49 | joining the lines with a line break gives the text back |
| Margin.LinesSingle | src/main/kotlin/com/kai/core/SystemPromptBuilder.kt:49 | a text without a line break is one line |
| Margin.LinesConcat | src/main/kotlin/com/kai/core/SystemPromptBuilder.kt:49 | a line break splits the lines in two: the lines of a text, a break and another text are the lines of each |
| Margin.LinesChars | src/main/kotlin/com/kai/core/SystemPromptBuilder.kt:49 | no line holds a character the text does not |
| Margin.CutAfterMargin | src/main/kotlin/com/kai/core/SystemPromptBuilder.kt:49 | `trimMargin()` removes a line's leading white space and the bar after it, whatever follows |
| Margin.CutNoBar | src/main/kotlin/com/kai/core/SystemPromptBuilder.kt:49 | a line without a bar is kept as it is |
| Margin.TrimMarginBarless | src/main/kotlin/com/kai/core/SystemPromptBuilder.kt:49 | `trimMargin()` leaves a text unchanged when it has no bar and its first and last lines are not blank |
| SystemPromptBuilder.TrimmedTemplate | src/main/kotlin/com/kai/core/SystemPromptBuilder.kt:37-49 | `trimMargin()` on the template drops the blank first and last lines and cuts every interpolated line: the result is the pieces' lines after the cut |
| SystemPromptBuilder.TrimmedPieces | src/main/kotlin/com/kai/core/SystemPromptBuilder.kt:37-49 | the trimmed template is the four pieces after the cut, each on its own lines, then a blank line and the cut rules |
| Fences.NoBacktickNoBlock | src/main/kotlin/com/kai/core/VerificationGate.kt:174-175 | a text without a backtick matches neither fence pattern |
| LlmReplies.FileName | src/main/kotlin/com/kai/llm/AnthropicClient.kt:195 | an artifact's file name starts with "generated_" and ends with "." and its extension |
| LlmReplies.FileNamesDiffer | src/main/kotlin/com/kai/llm/AnthropicClient.kt:192-195 | artifacts with different numbers never share a file name, whatever their extensions |
| LlmReplies.Language | src/main/kotlin/com/kai/llm/AnthropicClient.kt:193 | a block's language is its info word, or "kotlin" when the word is missing, and never empty |
| LlmReplies.CodeArtifacts | src/main/kotlin/com/kai/llm/AnthropicClient.kt:190-200 | one artifact per code-block match, in order, numbered from 1, named after its language's extension, holding the trimmed body, version 1 |
| LlmReplies.ArtifactNamesDistinct | src/main/kotlin/com/kai/llm/AnthropicClient.kt:190-200 | no two artifacts of one reply share a file name |
| LlmReplies.ArtifactsComeFromFences | src/main/kotlin/com/kai/llm/AnthropicClient.kt:190-200 | each artifact's content is the trimmed body of a real block of the reply |
| LlmReplies.NoBacktickNoArtifacts | src/main/kotlin/com/kai/llm/AnthropicClient.kt:190-200 | a reply without a backtick yields no artifacts |
| JsonValues.Content | src/main/kotlin/com/kai/llm/AnthropicClient.kt:144 | a JSON element has a text content exactly when it is a primitive |
| JsonValues.ContentEntries | src/main/kotlin/com/kai/llm/AnthropicClient.kt:143-145 | the tool input keeps exactly the keys of the JSON object, each with its value's text, and throws when a value is not a primitive |
| JsonValues.FirstWith | src/main/kotlin/com/kai/llm/AnthropicClient.kt:128-130 | the first block whose key holds the value, where every block before it could be inspected and did not match; none exactly when no block matches and none throws |
| AnthropicClient.RequestMessages | src/main/kotlin/com/kai/llm/AnthropicClient.kt:37-47 | the converted trajectory messages, or one user message that starts the task when there are none |
| Text.Length16 | src/main/kotlin/com/kai/llm/AnthropicClient.kt:162 | a string's `length` counts UTF-16 code units: at least one and at most two per character |
| Text.Length16Bmp | src/main/kotlin/com/kai/llm/AnthropicClient.kt:162 | on text wholly inside the Basic Multilingual Plane, `length` is the character count |
| Text.Length16Astral | src/main/kotlin/com/kai/llm/OllamaClient.kt:189 | a string wholly outside the Basic Multilingual Plane has a `length` of twice its character count |
| Text.Take16 | src/main/kotlin/com/kai/llm/AnthropicClient.kt:81 | `take(n)` keeps a prefix of at most n UTF-16 code units and at most n characters, which stops only where the next character would overrun n |
| Text.Take16Bmp | src/main/kotlin/com/kai/llm/AnthropicClient.kt:81 | on text wholly inside the Basic Multilingual Plane, `take(n)` is the first n characters, or all of them |
| OllamaClient.AstralTextIsAnswer | src/main/kotlin/com/kai/llm/OllamaClient.kt:187-193 | content of more than 50 characters outside the Basic Multilingual Plane is an Answer, because its `length` exceeds 100 |
| AnthropicClient.StatusError | src/main/kotlin/com/kai/llm/AnthropicClient.kt:78-85 | a failed status gives an Error that holds the body's longest prefix within 200 UTF-16 code units, is recoverable exactly for 429..599, and carries advice exactly for 429 |
| AnthropicClient.LanguageExtension | src/main/kotlin/com/kai/llm/AnthropicClient.kt:202-210 | the extension is one of the fixed ones, and "txt" exactly for a language outside the listed names, ignoring case |
| AnthropicClient.ExtensionIgnoresCase | src/main/kotlin/com/kai/llm/AnthropicClient.kt:202 | languages equal up to case get the same extension |
| AnthropicClient.FirstText | src/main/kotlin/com/kai/llm/AnthropicClient.kt:137-139 | the text of the first "text" block, "" without one, and a failure when a block before it cannot be inspected |
| AnthropicClient.ToolUse | src/main/kotlin/com/kai/llm/AnthropicClient.kt:126-151 | an Act for the first tool_use block, named "unknown" when nameless, its input's texts as arguments and the first text as reasoning; without such a block the recoverable Error "Tool use beklendi ama bulunamadi" |
| AnthropicClient.EndTurn | src/main/kotlin/com/kai/llm/AnthropicClient.kt:153-173 | the first text is an Answer with exactly its artifacts when it holds code or is longer than 100 UTF-16 code units, otherwise a Think with confidence 0.5 |
| AnthropicClient.OtherStop | src/main/kotlin/com/kai/llm/AnthropicClient.kt:175-178 | any other stop reason is a Think with the default confidence holding the first block's text, or the whole body when there is none |
| AnthropicClient.ParseResponse | src/main/kotlin/com/kai/llm/AnthropicClient.kt:117-187 | always Think, Act, Answer or Error; every Error is recoverable without advice; an unparsable body gives "Yanit parse hatasi: " and the message; an Answer carries exactly its text's artifacts |
| AnthropicClient.MissingContent | src/main/kotlin/com/kai/llm/AnthropicClient.kt:121-123 | a reply object without "content" is the recoverable Error "Bos yanit" |
| AnthropicClient.ShortTextIsThink | src/main/kotlin/com/kai/llm/AnthropicClient.kt:153-172 | an end-of-turn reply whose first block is a short text without code is a Think with confidence 0.5 holding that text |
| AnthropicClient.ToolUseIsAct | src/main/kotlin/com/kai/llm/AnthropicClient.kt:126-147 | a tool-use reply with a text and a tool_use block is an Act for that tool, with its string arguments and the text as reasoning |
| AnthropicClient.Reason | src/main/kotlin/com/kai/llm/AnthropicClient.kt:76-88 | only a failed status outside 429..599 gives an Error the agent may not retry, and only 429 carries advice |
| AnthropicClient.Chat | src/main/kotlin/com/kai/llm/AnthropicClient.kt:110-113 | the text of the first content block, "" without content, block or text, and a failure for a reply or first block that is not an object |
| OllamaClient.RequestMessages | src/main/kotlin/com/kai/llm/OllamaClient.kt:38-55 | the system prompt first, then the converted trajectory, or a starter user message when the trajectory gives none |
| OllamaClient.LanguageExtension | src/main/kotlin/com/kai/llm/OllamaClient.kt:238-245 | the extension is one of the fixed ones |
| OllamaClient.ExtensionsAgree | src/main/kotlin/com/kai/llm/OllamaClient.kt:238-245 | the two clients name files alike, except that Groovy and Gradle code is ".txt" here and ".gradle.kts" in the Anthropic client |
| OllamaClient.InlineToolCall | src/main/kotlin/com/kai/llm/OllamaClient.kt:204-223 | content that, trimmed, is a braced JSON object with a non-null primitive name and an object of primitive arguments is an Act for that name whose arguments have the same keys, each holding its value's `content` text; anything else is no call |
| OllamaClient.NativeToolCall | src/main/kotlin/com/kai/llm/OllamaClient.kt:163-179 | no call without tool_calls; a native call is an Act whose reasoning is the content, or a note naming the tool when the content is empty |
| OllamaClient.TextStep | src/main/kotlin/com/kai/llm/OllamaClient.kt:187-193 | without a tool call the content is an Answer with its artifacts when it holds code or is longer than 100 UTF-16 code units, else a Think with confidence 0.5 |
| OllamaClient.Classify | src/main/kotlin/com/kai/llm/OllamaClient.kt:154-193 | the body of the try block: a parser failure is its exception; a step it returns is Think, Act, Answer or Error, an Error is recoverable without advice, an Act gives a reason, and an Answer carries exactly its text's artifacts and holds code or is longer than 100 UTF-16 code units |
| OllamaClient.ParseResponse | src/main/kotlin/com/kai/llm/OllamaClient.kt:153-198 | always Think, Act, Answer or Error; every Error is recoverable without advice; an unparsable body gives "Ollama yanit parse hatasi: " and the message; every Act gives a reason; an Answer carries exactly its text's artifacts |
| OllamaClient.MissingMessage | src/main/kotlin/com/kai/llm/OllamaClient.kt:156-157 | a reply object without "message" is the recoverable Error "Bos Ollama yaniti" |
| OllamaClient.InlineCallIsAct | src/main/kotlin/com/kai/llm/OllamaClient.kt:181-185 | a message without tool calls whose content is an inline call yields exactly that call |
| OllamaClient.Reason | src/main/kotlin/com/kai/llm/OllamaClient.kt:93-117 | only a failed connection gives an Error that may not be retried, and only a failed status gives advice and names the status |
| OllamaClient.Chat | src/main/kotlin/com/kai/llm/OllamaClient.kt:120-150 | the reply message's content, or "" whenever the connection, the parse or the shape fails; the status is not looked at |
| MetaController.Process | src/main/kotlin/com/kai/core/MetaController.kt:36-66 | one chat call with the fixed system prompt; the answer is the reply, the failure note with the exception's message, or the greeting for an empty reply, never empty; the listener sees a thinking note then Done with that answer; the response has no artifacts or plan steps and reports one step |
| MetaController.ProcessReportsNoPlan | src/main/kotlin/com/kai/core/MetaController.kt:61-66 | whatever the chat call does, the live response reports no plan step and no artifact, so never the one step and two artifacts MetaControllerTest expects of the pipeline it replaced |
| MetaController.StepTask | src/main/kotlin/com/kai/core/MetaController.kt:157-163 | a step's task carries the step's description and constraints, no parent, and an empty context when the step depends on nothing |
| MetaController.ExecuteStep | src/main/kotlin/com/kai/core/MetaController.kt:147-176 | a missing agent raises "... icin ajan bulunamadi" before any event; otherwise a RUNNING update, then the agent's outcome, and a delegation request is run once by the target, or raises "Delegation target bulunamadi: ..." when the target is missing |
| MetaController.StepAnswerOrigin | src/main/kotlin/com/kai/core/MetaController.kt:165-175 | a step's answer comes from its own agent or from the agent it delegated to, and a delegation is followed for one hop only |
| MetaController.Fallback | src/main/kotlin/com/kai/core/MetaController.kt:221-231 | the fallback plan step is "step_1" for the code writer, holding the whole request, with no dependencies, verification on and the constraint "Kotlin" |
| MetaController.PlanTask | src/main/kotlin/com/kai/core/MetaController.kt:209-232 | the decoded plan of the reply's extracted JSON, or the single fallback step when decoding fails |
| MetaController.FallbackOneWave | src/main/kotlin/com/kai/core/MetaController.kt:221-231 | the fallback plan always runs, in a single wave |
| MetaController.FixTask | src/main/kotlin/com/kai/core/MetaController.kt:244-256 | the fixer's task is the fix description under the step's constraints, with no context and no parent |
| MetaController.HandleVerificationFailure | src/main/kotlin/com/kai/core/MetaController.kt:236-264 | the fixer's answer when there is a fixer and it answers; the original answer when there is none or it throws |
| MetaController.Present | src/main/kotlin/com/kai/core/MetaController.kt:273-274 | exactly the listed dependencies that have a result, in listed order |
| MetaController.Entry | src/main/kotlin/com/kai/core/MetaController.kt:275-276 | a dependency's entry opens with "[id sonucu]: " (then the answer's longest prefix within 1000 UTF-16 code units) |
| MetaController.BuildStepContext | src/main/kotlin/com/kai/core/MetaController.kt:267-279 | the context is empty when no listed dependency has a result |
| MetaController.ContextSnoc | src/main/kotlin/com/kai/core/MetaController.kt:267-279 | one more listed dependency appends its entry after a blank line when it has a result (without the blank line when it is the first) and changes nothing otherwise |
| MetaController.SingleDependencyContext | src/main/kotlin/com/kai/core/MetaController.kt:273-278 | the context of a single dependency with a result is its entry |
| MetaController.AllArtifacts | src/main/kotlin/com/kai/core/MetaController.kt:287 | the artifacts are exactly those of the results |
| MetaController.AllTools | src/main/kotlin/com/kai/core/MetaController.kt:296-297 | exactly the tools some result reports |
| MetaController.AllAgents | src/main/kotlin/com/kai/core/MetaController.kt:300-301 | exactly the agents some result reports |
| MetaController.TotalDurationAppend | src/main/kotlin/com/kai/core/MetaController.kt:292-294 | the total duration of two batches of results is the sum of their totals |
| MetaController.AllArtifactsAppend | src/main/kotlin/com/kai/core/MetaController.kt:287 | the artifacts of two batches are those of the first followed by those of the second |
| MetaController.MergedTools | src/main/kotlin/com/kai/core/MetaController.kt:296-298 | each reported tool exactly once |
| MetaController.MergedAgents | src/main/kotlin/com/kai/core/MetaController.kt:300-302 | each reported agent exactly once |
| MetaController.SynthesizeResults | src/main/kotlin/com/kai/core/MetaController.kt:282-315 | the last stored answer (or "Islem tamamlandi." without one), all artifacts, the step reports and their number, the summed duration, and each tool and agent once |
| MetaController.CodeWordsPlain | src/main/kotlin/com/kai/core/MetaController.kt:322-326 | every code word is non-empty and made of backticks and lower-case-range characters |
| MetaController.CodeWordNeverSimple | src/main/kotlin/com/kai/core/MetaController.kt:318-328 | a message in which one of the code words occurs verbatim, in its listed lower-case spelling, is never simple |
| MetaController.FenceNeverSimple | src/main/kotlin/com/kai/core/MetaController.kt:322 | a message holding a code fence is never simple |
| MetaController.BlankIsSimple | src/main/kotlin/com/kai/core/MetaController.kt:319-327 | a blank message is simple |
| PipelineTypes.SameStatusesAsServer | frontend/src/types/pipeline.ts:3-6 | the client's status union lists exactly the server's fourteen statuses, by the same names and in the same order |
| PipelineTypes.ColumnIndex | frontend/src/types/pipeline.ts:91-98 | every status is shown by one of the six board columns |
| PipelineTypes.ColumnsPartition | frontend/src/types/pipeline.ts:91-98 | a status is shown in its own column and in no other, so the columns partition the statuses |
| PipelineTypes.ColumnsShowStatuses | frontend/src/types/pipeline.ts:91-98 | every name a column shows is a status name |
| PipelineTypes.EveryStatusHasColor | frontend/src/types/pipeline.ts:101-116 | every status has a colour, and only statuses do |
| TaskDetail.NextStatuses | frontend/src/components/pipeline/TaskDetail.tsx:31 | the table's targets for a listed status, and none for a status without an entry |
| TaskDetail.StatusColor | frontend/src/components/pipeline/TaskDetail.tsx:30 | the status's colour, or grey for an unknown status |
| TaskDetail.MatchesServerTable | frontend/src/components/pipeline/TaskDetail.tsx:12-26 | for every status the dialog offers exactly the server's successors, in the server's order |
| TaskDetail.TransitionButtons | frontend/src/components/pipeline/TaskDetail.tsx:124-139 | one button per offered status, in listed order, each asking to move this task there |
| TaskDetail.ButtonsAreAccepted | frontend/src/components/pipeline/TaskDetail.tsx:124-139 | every button asks for a move the server accepts, and every move the server accepts has a button |
| TaskDetail.DeployedHasNoButtons | frontend/src/components/pipeline/TaskDetail.tsx:31-124 | a deployed task shows no transition buttons |
| TaskDetail.TwoButtonsOnlyWhenBranching | frontend/src/components/pipeline/TaskDetail.tsx:18-22 | a task has two buttons exactly when it is under review or in testing, and never more than two |
| ChatHook.FindStep | frontend/src/hooks/useChat.ts:68 | the index of the first plan step with the id, or -1 when none has it |
| ChatHook.UpsertKeepsIdsUnique | frontend/src/hooks/useChat.ts:67-79 | a plan update keeps step ids unique, holds the new step, keeps every step with another id and grows the list only for a new id |
| ChatHook.Apply | frontend/src/hooks/useChat.ts:53-97 | the assistant message after one event: the event is recorded, a file is added, a plan step is updated, done sets the answer and ends streaming, an error fills an empty text and ends streaming only when it cannot be recovered from |
| ChatHook.ApplyKeepsIdsUnique | frontend/src/hooks/useChat.ts:67-79 | handling an event keeps the message's plan step ids unique |
| ChatHook.ReplayRecordsEvents | frontend/src/hooks/useChat.ts:54 | whatever the events, each is recorded in order on the message, which keeps its id and unique step ids |
| ChatHook.Handled | frontend/src/hooks/useChat.ts:47-52 | without a current assistant message nothing changes; otherwise only the messages with the current id change |
| ChatHook.EventLandsOnNewMessage | frontend/src/hooks/useChat.ts:37-52 | after sending, an event changes the new assistant message and leaves every earlier message and the user's message alone |
| ChatHook.ChatState.constructor | frontend/src/hooks/useChat.ts:4-7 | the hook starts with no messages, not processing and no current assistant message |
| ChatHook.ChatState.SendMessage | frontend/src/hooks/useChat.ts:9-44 | the user's message and an empty streaming assistant message, each stamped with its own clock reading, are appended, the latter becomes current, processing starts, and the text goes out with the session id |
| ChatHook.ChatState.HandleEvent | frontend/src/hooks/useChat.ts:46-100 | the message list becomes the handled list; an ending event on a listed current message clears the current id and stops processing; otherwise both stay as they were |
| ChatHook.ChatState.ClearMessages | frontend/src/hooks/useChat.ts:102-106 | no messages, not processing, no current assistant message |
| SessionHook.Load | frontend/src/hooks/useSession.ts:6-12 | the stored list; none when nothing or "" is stored or the text does not parse |
| SessionHook.Retitled | frontend/src/hooks/useSession.ts:43 | the sessions with the id get the title and the time; the others stay as they are, in place |
| SessionHook.Without | frontend/src/hooks/useSession.ts:52 | exactly the sessions with another id, never more than before |
| SessionHook.WithoutConcat | frontend/src/hooks/useSession.ts:52 | the delete filter keeps order and duplicates: deleting from two lists one after the other is deleting from each |
| SessionHook.WithoutHead | frontend/src/hooks/useSession.ts:52-55 | the session made active after deleting the active one is the first session, in list order, with another id |
| SessionHook.WithoutAbsent | frontend/src/hooks/useSession.ts:52 | deleting an id no session has changes nothing |
| SessionHook.CreateThenDelete | frontend/src/hooks/useSession.ts:29-61 | deleting a session just created with a fresh id gives back the list as it was |
| SessionHook.DeleteKeepsActiveListed | frontend/src/hooks/useSession.ts:49-61 | when the active session is listed, after a delete it is still listed unless the list is empty |
| SessionHook.SessionStore.constructor | frontend/src/hooks/useSession.ts:18-27 | the stored sessions with the first active; without any, a fresh session, stamped by two clock readings, is active and saved, but the list starts empty so storage and list differ |
| SessionHook.SessionStore.CreateSession | frontend/src/hooks/useSession.ts:29-39 | a new "New Chat" session, stamped by two clock readings, goes in front, is saved and becomes active, and its id is returned |
| SessionHook.SessionStore.UpdateSessionTitle | frontend/src/hooks/useSession.ts:41-47 | the list becomes the retitled list, is saved, and the active session is unchanged |
| SessionHook.SessionStore.DeleteSession | frontend/src/hooks/useSession.ts:49-61 | the sessions with the id go and the list is saved; when the active one went and some remain the first remaining becomes active, else the active id is unchanged |
| SessionHook.RetitleIdempotent | frontend/src/hooks/useSession.ts:43 | renaming twice to the same title at the same time is renaming once |

## Left out

- Database, HTTP, kotlinc and file I/O are left out. Exposed transactions, Ktor requests, request bodies, the tools JSON of a request and the file actions of the file-system tool are outside the model; their outcomes are parameters.
- Coroutines, parallel waves, tool timeouts and `measureTimeMillis` are left out. Tool outcomes, including a timeout or an exception, are given per call, and durations are given values.
- Logging is left out, because it has no effect on any result.
- Floating point is left out. The memory score is in tenths and `coerceIn` is an integer clamp. The verification score and the judge's score are `real`, and the formatting of a score in the prompt is a parameter.
- Embeddings, the vector store, the graph store's Cypher queries and the embedding client are left out. They form a `Backend` parameter of the dual memory and a query parameter of the Neo4j store.
- JSON parsing and serialisation are left out. Parsed JSON is an abstract value tree produced by a parser parameter, and kotlinx exception texts are not modelled.
- The prompt texts for planning, analysis, code writing, review and the fix task are left out. They are plain strings handed to a parameter, so they are modelled only where a contract depends on them.
- `trajectoryToMessages` is left out beyond its empty-trajectory case. The message lists of non-empty trajectories are a parameter of both clients.
- Unicode case mapping and whitespace are left out. Lowercasing, uppercasing, `trim`, `isBlank` and `isUpperCase` are ASCII-only. So AgentTasks.Entities does not treat a word that starts with a non-ASCII capital, such as "Ürün" or "Çalışan", as an entity, although the source's `first().isUpperCase()` does. White space is the regular-expression class `\s`: space, tab, line feed, vertical tab, form feed and carriage return. Kotlin's `isWhitespace`, which `trim` and `isBlank` use, also accepts U+001C to U+001F and the Unicode space separators; text holding those characters is trimmed less in the model than in the source.
- TaskStore: `listProjects` (src/main/kotlin/com/kai/pipeline/TaskStore.kt:48-52), `getFeaturesByEpic` (90-94), `getTasksByStatus` (168-175) and `getTaskOutputs` (272-278) are left out. They are plain reads that the pipeline core does not use.
- TaskStore.Store: timestamps are left out. Creation order is the id order of the in-memory tables, and `createdAt` ordering is modelled as that order.
- MetaController: the commented-out wave, verify and repair pipeline is left out because it is not live code. Only the helpers it would call are modelled, together with the live `process`.
- AgentRoles: the `@Serializable` encoding of the role enum is left out, like all JSON serialisation. The display names and prompt keys are modelled.
- The web client's rendering components, React batching, StrictMode double effects and WebSocket management are left out. Only the state updaters and the lookups that decide what is rendered are modelled.
- SessionHook.Load: stored JSON that parses to something other than a session array is not modelled. The parser parameter either yields sessions or fails.
- ReActAgent.Execute: the `onStep` stream events sent for every Think, Act, Observe, Answer, Delegate and Error (src/main/kotlin/com/kai/core/ReActAgent.kt:99-199) are left out. They go to a caller's callback and do not change the run.
- ReActAgent.Execute: the `memory.storeEpisode` call after an Answer (src/main/kotlin/com/kai/core/ReActAgent.kt:176) is left out. Its failure is caught and only logged, so the answer returned is the same whether the store succeeds or fails.
- Orchestrator.ProcessTask: the `onEvent` pipeline updates (src/main/kotlin/com/kai/pipeline/PipelineOrchestrator.kt:117-121 and 188-202) are left out, and so are the ones that RunTask, ProcessAll, ExecuteNextTasks and AnalyzeAndExecute pass on. They report progress to a caller's callback and change no table.
- SystemPromptBuilder.BuildPieces: `Margin.Lines` breaks lines only at a line feed. Kotlin's `lines()`, which `trimMargin()` uses, also breaks at a carriage return, alone or followed by a line feed, and rejoins with line feeds. So `Build`, BuildPieces and the lemmas about them describe the prompt only when the memory, constraint and context texts hold no carriage return.
- DualMemory.Memory.StoreEpisode: the insert's own failure is absorbed, so the method returns the row it sent whether or not the insert succeeded.
- TaskStore.Store.CreateProject: the column limits of PipelineTables.kt (name 255, repo_url 512) are not modelled. An over-long value makes the source's insert throw; here the project is always stored.
- TaskStore.Store.CreateEpic: the 500-character limit of the title column is not modelled. An over-long title makes the source's insert throw; here the epic is stored whenever the project exists.
- TaskStore.Store.CreateFeature: the 500-character limit of the title column is not modelled. An over-long title makes the source's insert throw; here the feature is stored whenever the epic exists.
- TaskStore.Store.CreateTask: the column limits (title 500; category, priority and status 50; assigned_agent 100) are not modelled. An over-long title throws in the source, not here. The enum names fit their columns, so only the title matters.
- TaskStore.Store.UpdateTask: the column limits (branch_name 255, pr_url 512, assigned_agent 100) are not modelled. An over-long value makes the source's update throw; here it is stored.
- TaskStore.Store.SaveTaskOutput: the column limits (output_type 50, agent 100) are not modelled. An over-long value makes the source's insert throw; here the output is stored.
- TaskStore.Store.TransitionTask: the 100-character limit of the triggered_by column is not modelled. Every trigger the pipeline passes is a short constant.
- TaskStore.Store.Valid: id gaps are not modelled. Each table's ids are its row positions plus one, while in the source a failed insert can still use up a sequence value, so a later row's id may skip one.
- ProjectAnalyzer.CreateRow: an analysis title longer than 500 characters makes the source's `createTask` throw and stops the analysis with the earlier rows kept. Here the row is always created.
- ProjectAnalyzer.Analyze: a title over a column limit in the decoded breakdown is not a failure here (see ProjectAnalyzer.CreateRow). Only a repeated edge fails.
- Orchestrator.AnalyzeProject: as for ProjectAnalyzer.Analyze, over-long titles do not fail here.
- Orchestrator.AnalyzeAndExecute: as for ProjectAnalyzer.Analyze, over-long titles do not fail here.
- Text.Take16: where unit n of `take(n)` is the first half of a surrogate pair, the source keeps that lone half. A string of Unicode scalar values cannot hold it, so the prefix here stops one unit short. This applies to AnthropicClient.StatusError, SystemPromptBuilder.EpisodeLines, DualMemory.Segment, MetaController.Entry, Orchestrator.ReviewPromptShowsCodePrefix, Orchestrator.ProcessLogIsChain and Orchestrator.Conclude.
- AnthropicClient.StatusError: the body's prefix omits a lone half surrogate that the source's `take(200)` can keep (see Text.Take16).
- SystemPromptBuilder.EpisodeLines: the prefixes omit a lone half surrogate that the source's `take` can keep (see Text.Take16).
- Orchestrator.ReviewPromptShowsCodePrefix: the code prefix omits a lone half surrogate that the source's `take(2000)` can keep (see Text.Take16).
- Orchestrator.ProcessLogIsChain: the rejection reason omits a lone half surrogate that the source's `take(500)` can keep (see Text.Take16).
- Orchestrator.Conclude: the rejection reason omits a lone half surrogate that the source's `take(500)` can keep (see Text.Take16).

## Findings

| source | as written | input that shows it | evidently intended | confidence | as-written member | corrected member |
|---|---|---|---|---|---|---|
| src/main/kotlin/com/kai/core/SystemPromptBuilder.kt:33-49 | `trimMargin()` runs on the template after the constraints, context and memory have been interpolated. Any interpolated line that starts with a bar after white space loses its margin. | additionalContext "&#124;x" gives the same prompt as "x" | the pieces appear verbatim, with only the template's own lines trimmed | not executed | SystemPromptBuilder.BarInContextIsStripped | SystemPromptBuilder.BuildAsIntended |
| src/main/kotlin/com/kai/core/ReActAgent.kt:207 | `"$config.maxRetries"` interpolates the whole `AgentConfig` followed by the literal ".maxRetries" | a third recoverable Error under the default config: the message starts "Max retries (AgentConfig(" | "Max retries (3) exceeded: ..." | not executed | ReActAgent.ExhaustedRetriesShowConfig | ReActAgent.ExhaustedRetriesIntended |

## Notes

- The live `process` (src/main/kotlin/com/kai/core/MetaController.kt:43-66) is a direct chat. It returns no plan steps, no artifacts and a single step. MetaControllerTest (src/test/kotlin/com/kai/core/MetaControllerTest.kt:97, 149, 185) still expects the commented-out wave pipeline. The model follows the code; MetaController.ProcessReportsNoPlan states what the live code reports.
- An unknown tool costs one iteration like any other pass, as src/main/kotlin/com/kai/core/ReActAgent.kt:74 and 113-123 do. The transition table has two cycles, CHANGES_REQUESTED back to IN_PROGRESS and BUG_CREATED back to CREATED (TaskStateMachine.TableHasCycles), so task histories are not bounded by the table.
- The first visit of the session hook writes a new session to storage while the list starts empty (frontend/src/hooks/useSession.ts:18-27). Storage and list differ until the next change, as SessionHook.SessionStore.constructor states.
- The file-system tool removes "../" in one pass, which can create a new "../". For example, "....//" becomes "../" (FileSystemTool.RemovalCanCreateTraversal). What keeps a path inside the sandbox is the canonical-path containment check, and that check is a parameter here.
