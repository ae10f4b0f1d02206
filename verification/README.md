# Verified model of the orchestration core

This project models the part of the coding agent that decides what happens when: the task graph and
its scheduler, the code-review-fix protocol, validated tool plans, sharding, the extraction and repair
of JSON in agent answers, and reversible edits. Agents, tools and the file system are oracles that
may answer anything; everything below holds whatever they answer.

| file | what it models |
|---|---|
| `GraphSpec.dfy`, `KahnSpec.dfy`, `Ids.dfy` | dependency graphs as values: cycles, topological orders, the lexicographically least one, and runs of the in-degree algorithm |
| `TaskGraph.dfy` | the task graph class: nodes, mirrored edges, cycle detection, cached sort, failure propagation, snapshots |
| `LoopController.dfy` | iteration budgets, counters and records |
| `Reviewer.dfy` | normalisation of a review, and the verification gate |
| `ToolPlan.dfy` | validation and execution of tool plans with fallback chains |
| `Protocol.dfy`, `Executor.dfy` | the protocol as a language of events, and the methods that produce it |
| `DriveLoop.dfy` | the task loops of `execute` and `continue_execution` over a task graph |
| `ShardSpec.dfy`, `LargeProject.dfy` | greedy packing and its optimality; the depth-first sort and the shards |
| `JsonScan.dfy`, `JsonExtract.dfy`, `JsonEscape.dfy`, `JsonMeaning.dfy`, `JsonRepair.dfy` | printed JSON (RFC 8259, sections 4, 5 and 7), the scanners that must find it, the control-character repair and the data it preserves, and exactly when the whole repair preserves it |
| `Hunks.dfy`, `FileGuard.dfy`, `DiffEngine.dfy`, `ChangeApply.dfy` | line hunks, the guarded file map, diffs and their undoing, the application of an approved change list |
| `RateLimit.dfy` | the guard's operation rate limit, with the clock as an input |
| `SnapshotSpec.dfy`, `Rollback.dfy` | what a snapshot is worth later; checkpoints, restoration, numbering and pruning |
| `Options.dfy` | the option type |

Where a property one would expect is false of the code, the code is kept and the exact condition is
proved; the rows below that describe such findings say "Finding".

## Model

| member | source | states |
|---|---|---|
| TaskGraphs.TaskNode.TransitionTo | src/orchestration/task_graph.py:56-73 | a status changes exactly along the transition table; any other request raises and changes nothing |
| TaskGraphs.TransitionTable | src/orchestration/task_graph.py:56-64 | the nine transitions in full; terminal are exactly the statuses that none of them leaves |
| TaskGraphs.TaskGraph.AddTask | src/orchestration/task_graph.py:185-226 | raises exactly on a known id; otherwise the graph gains one pending task, the dependents lists again mirror the dependency lists entry by entry, and the cache is dropped |
| TaskGraphs.TaskGraph.Search | src/orchestration/task_graph.py:273-288 | the three-colour search terminates, answers true only on a cycle, and otherwise leaves the reached tasks finished in an order that respects all edges |
| TaskGraphs.TaskGraph.DetectCycle | src/orchestration/task_graph.py:263-294 | true if and only if the dependency relation between tasks of the graph has a cycle, self-loops included |
| TaskGraphs.Release | src/orchestration/task_graph.py:378-383 | each listed dependent loses its multiplicity from its in-degree, and exactly those that reach zero are queued, once |
| TaskGraphs.TaskGraph.Drain | src/orchestration/task_graph.py:360-391 | on an acyclic graph the loop terminates; it places every task, in the least topological order, unless some dependency is repeated late |
| TaskGraphs.TaskGraph.TopologicalSort | src/orchestration/task_graph.py:343-393 | fresh or cached: raises the cycle error exactly on cyclic graphs, the second error exactly on a late repeat, and otherwise returns the lexicographically least topological permutation |
| Ids.LtExact | src/orchestration/task_graph.py:372-372 | the order of identifiers is by code points: a proper prefix first, otherwise the smaller character at the first difference |
| TaskGraphs.SortedNeighbours | src/orchestration/task_graph.py:366-393 | wherever a returned order has no dependency between two neighbours, they stand in code-point order |
| KahnSpec.ZeroIffUnlocked | src/orchestration/task_graph.py:362-383 | a counter that falls by one per dependents entry is zero exactly when all that was owed has been paid, with repeats counted as the code counts them |
| KahnSpec.CompleteRun | src/orchestration/task_graph.py:366-393 | a run of the in-degree loop that places every task is a greedy topological order without a late repeat |
| KahnSpec.StuckRun | src/orchestration/task_graph.py:385-391 | a run on an acyclic graph that ends early shows a late repeat: the second raise is unreachable for duplicate-free lists |
| GraphSpec.GreedyIsLeast | src/orchestration/task_graph.py:372-374 | always taking the smallest available id gives the lexicographically least of all topological orders |
| GraphSpec.TopologicalAcyclic | src/orchestration/task_graph.py:357-358 | a graph with a topological order has no cycle |
| TaskGraphs.SearchComplete | src/orchestration/task_graph.py:289-294 | when everything is black the finishing order, reversed, is topological |
| TaskGraphs.InsertionOrderIrrelevant | src/orchestration/task_graph.py:343-393 | for duplicate-free lists two graphs with the same dependencies sort to the same outcome, in whatever order tasks were added |
| TaskGraphs.LateRepeatRaises | src/orchestration/task_graph.py:361-364 | Finding: a dependency listed twice sorts when it was added before its dependent and raises "cycle detected" on an acyclic graph when it was added after it |
| TaskGraphs.TaskGraph.BlockDependents | src/orchestration/task_graph.py:419-431 | the recursion terminates on any graph, blocks only pending tasks reached over pending ones, and has visited every dependent of what it blocked |
| TaskGraphs.TaskGraph.PropagateFailure | src/orchestration/task_graph.py:406-436 | blocks exactly the tasks that were pending and reachable from the failed one over pending ones, lists each once, changes nothing else |
| TaskGraphs.PendingClosure | src/orchestration/task_graph.py:419-431 | a set closed under pending steps holds everything pending-reachable |
| TaskGraphs.TaskGraph.Reset | src/orchestration/task_graph.py:460-468 | all statuses pending again, graph and cached order untouched |
| TaskGraphs.TaskGraph.ToDict | src/orchestration/task_graph.py:470-478 | the snapshot shows the graph, the lists, the statuses and the cached order |
| TaskGraphs.TaskGraph.FromDict | src/orchestration/task_graph.py:480-490 | a fresh graph showing exactly the snapshot; from a snapshot of a valid graph it is valid, so its cached order still is what a fresh sort returns |
| LoopControllers.LoopController.BeginIteration | src/orchestration/loop_controller.py:172-232 | pauses exactly when the budget is used up; otherwise issues the next number and bumps exactly the counter of the agent |
| LoopControllers.LoopController.EndIteration | src/orchestration/loop_controller.py:234-252 | rewrites one record; the token total stays the sum over the records plus what repeated ends replaced |
| LoopControllers.LoopController.ResetForNewTask | src/orchestration/loop_controller.py:286-301 | counters restart at the current end of the records, which survive |
| LoopControllers.LoopController.ExtendIterations | src/orchestration/loop_controller.py:308-317 | keeps the budget for non-negative extensions, and says exactly when a negative one breaks it |
| LoopControllers.LoopController.GetStatistics | src/orchestration/loop_controller.py:414-439 | successes and calls per agent are those of all records ever issued, but the reported total is that of the current numbering; the two differ by exactly the records from before the last reset |
| LoopControllers.RecordsUpdate | src/orchestration/loop_controller.py:250-252 | ending a record moves no count and replaces its tokens in the sum |
| Reviewers.ParseResponse | src/agents/reviewer.py:261-323 | the normalised review in closed form: kept issues, completion exactly when nothing blocks and it was approved or claimed complete, approval withdrawn when something blocks |
| Reviewers.SeveritySpelled | src/agents/reviewer.py:289-304 | severe are the strings that spell "critical" or "major", minor those that spell "minor" or "suggestion", letter by letter in either case |
| Reviewers.KeepSpelled | src/agents/reviewer.py:281-295 | an issue is kept with its severity and path; it blocks as it says, and if it does not say, by its spelled severity |
| Reviewers.VerdictSpelled | src/agents/reviewer.py:262-266 | only the spellings of "approve" and "reject" are these verdicts; every other string asks for changes |
| Reviewers.CompletesSpelled | src/agents/reviewer.py:272-312 | on the strings of the response: complete exactly if approved or claimed complete and no issue that names no path or a reviewed one spells a severe severity or is marked blocking; one that does undoes an approval |
| Reviewers.StatedRisk | src/agents/reviewer.py:400-408 | a stated risk is clamped and rounded, and passes the gate exactly below 0.65005 |
| Reviewers.MinorCountExact | src/agents/reviewer.py:390-390 | every minor issue counts once in the derived risk |
| Reviewers.RiskOfOneEach | src/agents/reviewer.py:389-397 | one severe issue, one minor issue and an unmet criterion come to 0.67 |
| Reviewers.NormalisedIsSafe | src/agents/reviewer.py:298-312 | a review that lets a task finish keeps no critical, major or blocking issue, and an approval always lets it finish |
| Reviewers.GateWithoutStatedRisk | src/orchestration/executor.py:550-567 | without a stated risk the gate comes down to: all criteria met and at least one given, a minor issue unless there are none, at most six of them |
| Reviewers.RiskThreshold | src/agents/reviewer.py:378-410 | the derived risk stays under the gate's bound for at most six minor issues |
| Reviewers.FallbackPassesGate | src/orchestration/executor.py:2182-2194 | Finding: the stand-in for an unparsable review passes the gate for every task with an acceptance criterion |
| Reviewers.KeptExactly | src/agents/reviewer.py:274-296 | an issue is kept if and only if it comes from a raw one that names no unsafe path and none outside the reviewed changes |
| Reviewers.CompletesExactly | src/agents/reviewer.py:271-312 | Finding: a severe or blocking issue stops completion only if it survives; the task is complete if and only if it was approved or claimed complete and every raw issue that would stop it is dropped as unsafe or foreign |
| Reviewers.GateOnRaw | src/orchestration/executor.py:550-567 | for a completing review the gate in terms of the raw review: criteria, kept minor issues, stated or derived risk, and no part for the verdict |
| Reviewers.RejectionApplied | src/orchestration/executor.py:1724-1728 | Finding: for every rejection, it is let through to application if and only if it claims completion, every raw issue that would stop it is dropped, and the gate's conditions on criteria, kept issues and risk hold |
| Reviewers.RejectedYetComplete | src/orchestration/executor.py:1724-1728 | a rejection that meets that condition |
| Reviewers.ForeignIssueDropped | src/agents/reviewer.py:279-280 | an approval whose only issue, a critical one, is dropped as foreign: it stands and passes the gate |
| ToolPlans.ExecuteStep | src/orchestration/executor.py:799-844 | runs a non-empty prefix of the fallback chain up to the first success, at most four deep, one if fallbacks are off; counts the fallbacks as the code does |
| ToolPlans.ExecutePlan | src/orchestration/executor.py:846-877 | an invalid plan runs nothing; a valid one runs step prefixes in order until a step fails; succeeds exactly when no step fails |
| ToolPlans.PlanValid | src/orchestration/executor.py:663-815 | which plans validate: no more steps, and no step more fallbacks, than the configured number taken between one and six; every tool of the profile and known or named as a server's; every reason given, and anchored where evidence is asked for |
| ToolPlans.PlanRunDetermined | src/orchestration/executor.py:865-877 | the tools' results determine what is executed and whether the plan succeeds |
| ToolPlans.PlanRunStaysPlanned | src/orchestration/executor.py:745-797 | after validation every executed tool is in the profile, and the executed list is a subsequence of the flattened plan, at most four per step |
| ToolPlans.ValidChain | src/orchestration/executor.py:776-792 | a step without errors has only allowed tools in its chain, all of which the flattening lists |
| Protocols.AppliedOnce | src/orchestration/executor.py:1724-1768 | in a disciplined run changes are applied at most once, last, exactly as just produced and reviewed, under a completing review that passed the gate and keeps no severe or blocking issue |
| Protocols.AppliedUnopposed | src/orchestration/executor.py:1720-1760 | said on the reviewer's answer: an applied list was approved or claimed complete, met no severe or blocking issue that names one of its changes, and has every criterion met |
| Protocols.ReviewedComplete | src/orchestration/executor.py:1690-1722 | a readable review lets the task finish exactly if it approves or claims completion and no issue that names a change objects |
| Protocols.ReviewedList | src/orchestration/executor.py:1663-1880 | said on the answers: what is reviewed is the coder's list, its canned changes after a malformed answer, the fixer's list, or after a malformed answer of the fixer the list reviewed before |
| Protocols.HopelessFails | src/orchestration/executor.py:1663-1668 | an error that is not malformed, and any error of the coder for a task without canned changes, is the last thing that happens: the task fails and nothing is applied |
| Protocols.DoneWithoutChanges | src/orchestration/executor.py:1676-1695 | a task done without an application had a last coder answer without changes and tool calls, or malformed with an empty canned list, after tool calls only |
| Protocols.RunDetermined | src/orchestration/executor.py:1643-1881 | the protocol leaves the agents' answers no second reading: two runs of the same answers never diverge |
| Protocols.EndsOneWay | src/orchestration/executor.py:1643-1881 | a run that has started has only one possible outcome |
| Protocols.MalformedReview | src/orchestration/executor.py:2126-2134 | Finding: a review whose answer cannot be parsed is the last one; the list it was given is applied unreviewed if and only if the task states an acceptance criterion, else nothing is and the task fails |
| Executors.Executor.Call | src/orchestration/loop_controller.py:172-252 | one call within the budget, the loop paused beyond it; its record tells the agent, the tokens and whether the answer was an error |
| Executors.Executor.ExecuteCoder | src/orchestration/executor.py:1883-2003 | the tool plan comes first and a failing one ends it without a call; then coder calls, while they only call tools and the budget lasts |
| Executors.Executor.ExecuteReviewer | src/orchestration/executor.py:2087-2136 | one call within the budget, whose answer, normalised or replaced, becomes the review of exactly the submitted list |
| Executors.Executor.ExecuteFixer | src/orchestration/executor.py:2138-2180 | one call within the budget; a malformed answer hands the old list on |
| Executors.Executor.NextChanges | src/orchestration/executor.py:1787-1872 | after a request for changes: at most one strategy shift on stagnation, else the fixer while its budget lasts, else giving up |
| Executors.Executor.ShiftStrategy | src/orchestration/executor.py:1800-1845 | the one strategy shift: another coder run, whose changes are taken only if they are new |
| Executors.Executor.Finish | src/orchestration/executor.py:1724-1780 | a completing review ends the run: through the gate to the application of exactly the reviewed list, or to failure |
| Executors.Executor.ReviewRound | src/orchestration/executor.py:1693-1872 | one round ends the task in a settled way or produces the next list, by a fix or the one strategy shift |
| Executors.Executor.ReviewAndFix | src/orchestration/executor.py:1693-1881 | the loop terminates within the budget and is only left through its returns: the interruption tail is unreachable |
| Executors.Executor.ExecuteTask | src/orchestration/executor.py:1643-1881 | for arbitrary answers the run is disciplined, stays within the iteration and fixer budgets, shifts strategy at most once, and its outcome, the node's status, the loop's state and the last event belong together |
| Executors.Executor.ExecutePlanning | src/orchestration/executor.py:1491-1641 | ends within the planning budget; the planner is asked again only while it calls new tools, its last answer decides, and every tool plan handed on is valid |
| Executors.DisableInvalid | src/orchestration/executor.py:1621-1638 | exactly the tool plans that do not validate are dropped, nothing else changes |
| Executors.FallbackTask | src/orchestration/executor.py:485-500 | the fallback plan is one task without dependencies and tool plan, whose criteria let even a malformed review of it pass the gate |
| DriveLoops.FailureBlocksAll | src/orchestration/executor.py:1095-1098 | between two tasks every transitive in-graph dependent of a failed task is blocked |
| DriveLoops.TerminalForever | src/orchestration/task_graph.py:56-64 | along any run of the loops terminal statuses never change |
| DriveLoops.PendingIsEnabled | src/orchestration/executor.py:1076-1086 | in execution order a pending task comes up only when all its in-graph dependencies have completed |
| DriveLoops.StepToFailed | src/orchestration/executor.py:1095-1098 | failing an enabled task and blocking what is pending-reachable from it keeps all edges consistent |
| DriveLoops.Session.Turn | src/orchestration/executor.py:1085-1101 | one turn keeps the graph consistent and advances it; it raises exactly on a task that is not pending |
| DriveLoops.Session.Execute | src/orchestration/executor.py:1075-1131 | every moment of the run is consistent, every step starts only enabled tasks and comes from a run of its own subtask; it raises only at a blocked task or an unsortable graph, on an unsortable one always and with nothing moved; the loop ends completed on success, failed on a failure or an exception, paused on a pause. Finding: a reported success means that every task completed if and only if no external abort came before the last task |
| DriveLoops.Session.Continue | src/orchestration/executor.py:1276-1321 | the granted iterations are added to the budget; success means all tasks completed, under any abort; from the abort on no task is run, and only an abort leaves tasks open, with the loop aborted; an unsortable graph raises with nothing moved, a sortable one only because a pause had left a task running. Finding: a session that `execute` has paused at a task within reach raises at once, with nothing moved; with a task left running the session never succeeds, and without an abort it is never finished |
| DriveLoops.WorkedVerdict | src/orchestration/executor.py:1103-1107 | a clean verdict after a cut at task k means that all completed exactly if the cut comes after the last task |
| DriveLoops.Session.Settle | src/orchestration/executor.py:1305-1316 | the closing verdict asks for every task and leaves the loop alone while some are open |
| DriveLoops.FromSubtasks | src/orchestration/task_graph.py:492-497 | raises exactly on a repeated id; otherwise one pending task per subtask, with exactly the dependencies it lists, filed with its subtask |
| DriveLoops.PlanRespected | src/orchestration/executor.py:1075-1101 | in every good trace over the graph of a plan a subtask starts only after every subtask it lists has completed, and is blocked whenever one of them has failed or is blocked |
| DriveLoops.OutcomeRan | src/orchestration/executor.py:1085-1101 | whatever was pending and has completed or failed had a protocol run of its own subtask that ended so |
| DriveLoops.Run | src/orchestration/executor.py:1048-1131 | from the start of the loop to the verdict: the plan is that of the planner's last answer, the session runs that very plan and respects what its subtasks list, every completed or failed subtask had a run of its own that ended so, and the loop ends as reported; success means valid tool plans only and, exactly without an early abort, that all subtasks completed |
| ShardSpec.GreedyOptimal | src/orchestration/large_project.py:264-305 | no contiguous split into groups that pass the same admission test uses fewer groups than a greedy one, for non-negative estimates |
| ShardSpec.FewestExactly | src/orchestration/large_project.py:264-305 | a lower bound on the estimates guarantees that greedy needs the fewest groups, for all limits and tasks, if and only if it is not negative |
| ShardSpec.NegativeEstimateLoses | src/orchestration/large_project.py:264-305 | Finding: for every negative estimate there are limits and tasks, none estimated lower, for which greedy uses three groups where two would do |
| ShardSpec.GreedyUnique | src/orchestration/large_project.py:264-305 | there is only one greedy split |
| ShardSpec.WithinLimits | src/orchestration/large_project.py:272-278 | a group of more than one task keeps all three limits |
| LargeProjects.Visit | src/orchestration/large_project.py:323-333 | the depth-first visit terminates, in whatever order a dependency set is walked, and without cycles lists a task after its dependencies |
| LargeProjects.TopologicalSort | src/orchestration/large_project.py:313-338 | always a permutation of the distinct tasks; it respects all in-list dependencies if and only if they are acyclic |
| LargeProjects.Pack | src/orchestration/large_project.py:259-305 | the packing loop cuts the sorted tasks greedily and records ids, files and tokens of every group |
| LargeProjects.CreateShards | src/orchestration/large_project.py:225-311 | sorting, packing and numbering together |
| LargeProjects.TaskMapExact | src/orchestration/large_project.py:313-321 | every id of the list is a key and stands for the last task that has it |
| LargeProjects.NoTaskLost | src/orchestration/large_project.py:225-311 | the id of every task in the list is in some shard |
| LargeProjects.ShardContents | src/orchestration/large_project.py:259-305 | the tokens of a shard are the estimates of all files its tasks list, and its files are exactly those |
| LargeProjects.EstimateOne | src/orchestration/large_project.py:264-266 | a file counts with its estimate, or with 500 tokens if it has none |
| LargeProjects.EstimateAdds | src/orchestration/large_project.py:264-266 | estimates of files add up |
| LargeProjects.GroupsInShards | src/orchestration/large_project.py:259-305 | the groups can be read off the shards, and their task ids, one shard after the other, are exactly the sorted tasks |
| LargeProjects.ShardLimits | src/orchestration/large_project.py:272-278 | a shard breaks a limit only if it holds a single task; none is empty |
| LargeProjects.FewestShards | src/orchestration/large_project.py:259-305 | with non-negative estimates there are no more shards than groups in any admissible split |
| LargeProjects.ShardsDetermined | src/orchestration/large_project.py:259-311 | the sorted order determines the shards |
| LargeProjects.DependencyShardedFirst | src/orchestration/large_project.py:313-338 | without cycles a dependency sits in an earlier shard, or earlier in the same one |
| JsonScan.PrintNeutral | src/agents/json_utils.py:67-90 | scanning a printed value, with any string contents, comes back to the depth it started from and never goes below it |
| JsonScan.FindFirst | src/agents/json_utils.py:58-92 | finds the balanced text at the first opening bracket, or nothing if that is never balanced |
| JsonScan.FoundUnique | src/agents/json_utils.py:58-144 | there is at most one such text |
| JsonExtract.FindFirstValue | src/agents/json_utils.py:95-107 | the earlier of the two candidates; the positions it compares are those where the scans found them |
| JsonExtract.ExtractionInvertsPrinting | src/agents/json_utils.py:58-144 | for every object or array, any prefix without brackets and any suffix, exactly the printed value is found |
| JsonExtract.ExtractionExact | src/agents/json_utils.py:95-107 | Finding: for any prefix and suffix, the printed value is what is found if and only if the prefix has no bracket of the value's own kind and the scan from its first bracket of the other kind never comes back to depth zero |
| JsonExtract.ValueDropsOut | src/agents/json_utils.py:67-90 | when that scan enters the value outside strings, the value drops out: only what follows it decides |
| JsonExtract.FoundBehindOpenBracket | src/agents/json_utils.py:95-107 | behind a bracket of the other kind left open, the value is found if and only if what follows it does not close that bracket |
| JsonExtract.BracketedProseHidesValue | src/agents/json_utils.py:95-107 | Finding: a bracketed footnote before an object is returned in its place |
| JsonExtract.ExtractPayload | src/agents/json_utils.py:11-25 | the stripped fenced body if there is one, else the first value, else the text |
| JsonExtract.SpacesInNumbers | src/agents/json_utils.py:13-21 | the characters that stripping removes and the repair skips, in full |
| JsonExtract.UnfencedPayload | src/agents/json_utils.py:24-25 | an unfenced value in bracket-free prose comes back whole |
| JsonExtract.FencedPayload | src/agents/json_utils.py:15-22 | Finding: a fenced value comes back whole if and only if its print contains no fence of its own; otherwise it is cut |
| JsonEscape.EscapeControlChars | src/agents/json_utils.py:155-197 | the loop computes the specified text: control characters that stand exposed inside a string are spelled out, all else is copied |
| JsonEscape.EscapedScan | src/agents/json_utils.py:155-197 | the scanner's state after the text is unchanged, and no raw control character is left inside a string except directly behind a backslash |
| JsonEscape.EscapeIdentity | src/agents/json_utils.py:155-197 | a text is left alone if and only if it is clean |
| JsonEscape.EscapedBelowSpace | src/agents/json_utils.py:161-187 | what is left below U+0020 stands outside strings or directly behind a backslash, and a text without such characters is not changed |
| JsonEscape.EscapeIdempotent | src/agents/json_utils.py:155-197 | a second pass changes nothing |
| JsonEscape.EscapePrinted | src/agents/json_utils.py:155-197 | repairing a printed value prints that value with its control characters spelled out |
| JsonEscape.SpellOk | src/agents/json_utils.py:155-197 | the repaired value is printable JSON again |
| JsonMeaning.SpellKeepsMeaning | src/agents/json_utils.py:177-187 | a string means the same code units afterwards, by section 7 of RFC 8259, hexadecimal escapes included |
| JsonMeaning.SpelledUnits | src/agents/json_utils.py:161-165 | the raw control characters left are exactly those directly behind a backslash |
| JsonMeaning.RepairKeepsData | src/agents/json_utils.py:155-197 | the escaping step of the repair: its print stands for the same data |
| JsonRepair.RepairJson | src/agents/json_utils.py:147-152 | the three steps of the repair, in order, compute the specified text |
| JsonRepair.RepairedText | src/agents/json_utils.py:147-150 | the first two steps turn the print of any JSON value, raw control characters and trailing commas allowed, into the print of its mended form: no comma behind a last element, and every string as the two steps make it |
| JsonRepair.MendKeepsMeaning | src/agents/json_utils.py:149-150 | Finding: a string says the same afterwards if and only if it has no typographic quote and no comma that only spaces separate from a closing bracket |
| JsonRepair.ApostrophesStraightened | src/agents/json_utils.py:149-149 | in a string without typographic double quotes and such commas the typographic apostrophes become plain ones and nothing else changes |
| JsonRepair.DoubleQuotesStraightened | src/agents/json_utils.py:149-149 | typographic double quotes become plain ones |
| JsonRepair.MendedShape | src/agents/json_utils.py:149-150 | the mended value has no trailing comma, and is well-formed if and only if no string had a typographic double quote |
| JsonRepair.RepairExact | src/agents/json_utils.py:147-152 | Finding: the whole repair of a value without typographic double quotes prints a strict, well-formed value, which stands for the same data if and only if all strings, keys included, are harmless in that sense |
| JsonRepair.CommaInStringLost | src/agents/json_utils.py:150-150 | Finding: a bracketed text in a string loses its comma |
| Hunks.JoinSplit | src/core/diff_engine.py:424-432 | splitting into lines loses nothing |
| Hunks.SplitGivesLines | src/core/diff_engine.py:424-424 | a line holds no break before its end, and every line but the last ends in one |
| Hunks.LinesUnique | src/core/diff_engine.py:424-424 | the split is the only list of such lines that joins to the text |
| Hunks.BreaksInNumbers | src/core/diff_engine.py:424-424 | the ten characters that break lines |
| Hunks.AssignClamps | src/core/diff_engine.py:430-431 | out of range the assignment appends, and a backward range is an insertion |
| Hunks.AssignIsReplace | src/core/diff_engine.py:426-432 | assigning ordered, disjoint, in-range hunks from the last to the first replaces all ranges at their original places |
| Hunks.ApplyHunks | src/core/diff_engine.py:414-432 | the method computes the specified text, shortcut included |
| Hunks.PatchedExact | src/core/diff_engine.py:419-421 | Finding: the result is the simultaneous replacement if and only if it is not a single hunk at line 0 that ends before the last line |
| Hunks.CreatedHunksApply | src/core/diff_engine.py:230-278 | applying the created hunks gives the new text, for all pairs of texts, with and without the shortcut |
| Hunks.InsertionAtTopReplacesFile | src/core/diff_engine.py:419-421 | Finding: an insertion before the first line replaces the whole file |
| DiffEngines.DiffEngine.CreateDiff | src/core/diff_engine.py:165-202 | the diff leads to the new content, is restorable and current, and adds exactly when the file is missing |
| DiffEngines.DiffEngine.CreateDeletionDiff | src/core/diff_engine.py:204-228 | succeeds exactly on a readable file; the diff removes it and is restorable |
| DiffEngines.DiffEngine.ValidateDiff | src/core/diff_engine.py:280-344 | both directions: limits, unchanged content by hash, existence |
| DiffEngines.LimitsExact | src/core/diff_engine.py:305-325 | the limits in numbers: 50 hunks, 500 lines per side of a hunk, 1000 changed lines |
| DiffEngines.LinesBalance | src/core/diff_engine.py:79-99 | added minus removed lines are new minus old lines |
| DiffEngines.EditLimits | src/core/diff_engine.py:165-202 | an edit of a file passes exactly if old and new text have at most 500 lines |
| DiffEngines.DiffEngine.Apply | src/core/diff_engine.py:434-530 | the whole new state in every case, when it succeeds, and that a restorable diff leaves unchanged what undoing the stack leads to |
| DiffEngines.UndoRestores | src/core/diff_engine.py:562-593 | Finding: undoing a diff right after applying it restores the files if and only if an added file was absent, or a changed one was there and backed up or empty |
| DiffEngines.RunUndone | src/core/diff_engine.py:595-608 | any sequence of applied diffs, each restorable where it happened, is undone completely |
| DiffEngines.DiffEngine.RollbackLast | src/core/diff_engine.py:562-593 | pops one entry and undoes it, or reports exactly why not |
| DiffEngines.DiffEngine.RollbackAll | src/core/diff_engine.py:595-608 | with nothing refused it restores what the whole stack leads back to and counts every diff |
| DiffEngines.DiffEngine.ApplyMultiple | src/core/diff_engine.py:532-560 | a failed result leaves the stack, and with no undoing refused the files, as before the call. Finding: when validation raises, the earlier diffs stay applied; with nothing refused that happens if and only if some diff does not pass in the state the ones before it led to, and all before it were applied |
| DiffEngines.RaisingBatch | src/core/diff_engine.py:456-461 | a batch that loses atomicity this way |
| DiffEngines.EditThenRollback | src/core/diff_engine.py:165-228 | any sequence of edits, each against the state it meets, and then rollback of all: the files are what they were if no undoing was refused |
| ChangeApplication.ApplyOne | src/orchestration/executor.py:2246-2282 | a change is applied exactly if its diff exists and passes, with nothing refused; otherwise nothing moves |
| ChangeApplication.ChangeRestorable | src/orchestration/executor.py:2257-2274 | Finding: an applied change can be undone unless it creates, by hunks, a file that is already there |
| ChangeApplication.ApplyChanges | src/orchestration/executor.py:2217-2287 | exactly a prefix of the list is applied and stays applied: none over the surface limits, all on success; with nothing refused the first change not applied is one that could not be |
| ChangeApplication.ApplicableExact | src/orchestration/executor.py:2246-2282 | when a change can be applied: deletion of a file that is there, readable hunks within the limits to a file that is there or to be created, new content within the limits |
| ChangeApplication.AppliedContent | src/orchestration/executor.py:2246-2282 | after the applied changes every path has the content that the changes to it give it, one after the other, whatever the others do |
| ChangeApplication.LastContentWins | src/orchestration/executor.py:2276-2280 | a path whose last change sets new content ends with exactly that |
| ChangeApplication.ChangeLines | src/orchestration/executor.py:350-366 | the line estimate in every case: stated counts, per hunk the longer side, or the lines of the new content |
| ChangeApplication.SurfaceLines | src/orchestration/executor.py:2234-2235 | the estimates of a list add up |
| ChangeApplication.ApplyThenRollback | src/orchestration/executor.py:2217-2287 | rollback of all then restores the files, whether or not the list went through, if nothing was created over |
| RateLimits.SpanBound | src/core/file_guard.py:153-169 | any half-open span of at most n minutes holds at most n + 1 times the limit of the admitted operations |
| RateLimits.RateLimiter.Check | src/core/file_guard.py:153-169 | the counter is that of the current window, and the history records exactly the admitted operations |
| RateLimits.RateLimiter.AdmittedInSpan | src/core/file_guard.py:153-169 | the bound on the admitted operations, for the whole life of a limiter under a non-decreasing clock |
| RateLimits.TwiceTheLimitInASecond | src/core/file_guard.py:157-167 | Finding: the bound is reached, twice the limit of operations admitted within one second |
| Rollbacks.RollbackManager.SnapshotFile | src/orchestration/rollback.py:241-279 | exact for a missing file, and for any other if and only if no operation was refused |
| Rollbacks.RollbackManager.CreateCheckpoint | src/orchestration/rollback.py:177-239 | the id from the list length, exact snapshots when nothing was refused and no backup name repeats, memory and disk updated and pruned together, no file touched; and every checkpoint that can be found still holds what was taken |
| Rollbacks.RollbackManager.RollbackTo | src/orchestration/rollback.py:345-381 | looks in memory, then on disk; gives back what the checkpoint took of the files of its creation; the list is cut right behind its first entry and exactly the checkpoints named in the rest are gone from both, the archive kept; a failed restoration leaves every path old or restored |
| Rollbacks.DroppedForGood | src/orchestration/rollback.py:371-379 | returning to a checkpoint listed behind the one returned to reports that it is not found, also in a new process over the same directory |
| Rollbacks.CheckpointWorkReturn | src/orchestration/rollback.py:177-381 | a checkpoint, then any edits, backups, further checkpoints and returns to them, perhaps a new process over the same directory, then the return: with nothing refused and no backup name used twice every snapshotted path has its content or absence back, and the whole map exactly if no other path has changed |
| SnapshotSpec.SnapStays | src/orchestration/rollback.py:265-272 | whatever the guard does later, a snapshot holds what was taken, as long as its backup name is not used again |
| SnapshotSpec.RestoreGivesBack | src/orchestration/rollback.py:383-402 | exact snapshots give every path its content or absence back, and the whole map if and only if nothing else changed |
| SnapshotSpec.WholeMapBack | src/orchestration/rollback.py:345-402 | with intact snapshots the whole map is back if and only if no file's snapshot was refused and no path outside the snapshots has changed |
| SnapshotSpec.BackIfUnrefused | src/orchestration/rollback.py:274-279 | Finding: a file that was there is given back if and only if no operation of its snapshot was refused; otherwise the rollback deletes it |
| Rollbacks.NumberedDistinct | src/orchestration/rollback.py:205-231 | in the list numbered by position, which creation keeps below the limit and rollback always, no id repeats |
| Rollbacks.NextIdExact | src/orchestration/rollback.py:205-205 | the next id is new if and only if nothing has been pruned yet, or more than is left |
| Rollbacks.CheckpointsVanish | src/orchestration/rollback.py:205-309 | Finding: the n-th checkpoint of a run can be found after its creation if and only if n is at most twice the limit; every later one is deleted by its own creation |

## Left out

- LoopControllers.LoopController.BeginIteration: does not raise on a run timeout, because timeouts are outside the model; Executors.Executor.Call inherits this.
- LoopControllers.LoopController.EndIteration: does not keep the retry counters per agent and the duration of a record, because nothing modelled here reads them.
- Executors.Executor.Call: does not raise on a run timeout, see above.
- ChangeApplication.ApplyChanges: its result reaches the protocol as an oracle.
- Agents, tools, LLM and MCP clients, subprocesses, prompts, telemetry, learning, sessions and the user interface: agents and tools are oracles indexed by the number of agent calls made before.
- Timeouts and asynchronous aborts inside a task: an external abort is modelled only between two tasks of a drive loop; timeouts are not.
- Similarity of fingerprints: an arbitrary answer to "no progress" and "same changes" at every point.
- The tests on error texts, on the path of an issue and on the reason of a tool step: parameters or flags of an answer.
- The canned coder answer for simple tasks: a field of the subtask, not its text.
- Aliasing of iteration records: records are values named by their position; retry counters, durations and the state-change callback are not modelled.
- `get_ready_tasks`, the wording of cycle messages and progress percentages: read-only reports over modelled state.
- Snapshots of a task graph whose keys differ from the ids of their nodes: `to_dict` never writes them.
- ToolPlans.ExecutePlan: does not restrict the tools a coder calls freely after its plan, because the code does not either.
- `execute_additional_task` and `preview_plan`: they reuse the modelled methods in another order.
- Recursion limits of the Python interpreter in the depth-first searches.
- `max_shards`, `min_shards`: never enforced by the code; project analysis, shard summaries and statistics are left out.
- Path resolution, patterns, size limits and file limits of the guard, disk encoding and hashing: any guard operation may be refused for any reason; a refused write is taken to leave the file as it was; the hash is an arbitrary function.
- JsonRepair.RepairExact: asks for values without typographic double quotes in strings; with one, the mended value is not well-formed, but that no other value prints the same text is not said. `json.loads` itself is not modelled.
- RateLimits.RateLimiter.Check: does not model `reset_state`, after which a fresh window starts at once.
- Rollbacks.RollbackManager.RollbackTo: writing and reading a checkpoint file is taken to succeed and to give the checkpoint back; backups live in a name space of their own.
- Negative checkpoint limits: the code then fails on an empty list.
- Context truncation, file locks, semantic search and memory scoring.
