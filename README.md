# AgentPlanner core in Dafny

AgentPlanner turns a feature request into a plan: a feature, milestones with
tasks, and a list of artifact paths. The plan passes a schema check. It then
goes through a bounded review/refine loop, and the approved plan is
written out as a file and directory scaffold, or only previewed. This
project models that core and proves its properties:

- `validation.dfy` (module `Validation`): the depth-first schema validator
  over JSON-like values (`json.dfy`). It returns `Ok` with the typed plan
  (`plans.dfy`) or `Err` with the first violation, located by its path.
- `reviewer.dfy` (module `Reviewer`): the reviewer as a pure function
  `Review` from a plan to a verdict. `ReviewPlan` and its helper methods
  are the loops of `review_plan` and its helpers, each proved equal to that function.
- `refiner.dfy` (module `Refiner`): the two regular expressions as
  leftmost-match string functions, and the three fix passes as
  specification functions. `PlanDraft` is the deep copy whose methods run
  the passes in place. `RefinePlan` copies, runs the three passes and
  returns the copy.
- `cli.dfy` (module `Cli`): the `while True` review/refine loop of `main`
  and the execute/preview dispatch.
- `scaffold.dfy` (module `Scaffold`): the scaffold executor over a
  `FileSystem` class holding a set of file paths and a set of
  directory paths. It covers existence checks, `mkdir(parents=True)`,
  `write_text`, `unlink` and `rmdir`. An injected fault raises at a chosen
  artifact index. Rollback sorts the recorded directories in place with an
  insertion sort on an array.
- `strings.dfy`, `wrappers.dfy`: lower-casing, substring and suffix
  tests, and `Option`.

The loop's properties are proved once over arbitrary review and refine
steps (`Cli.LoopWith`, `Cli.IterateWith`). They are then read off for
the planner's own steps (`Cli.LoopFrom`, `Cli.Iterate`).

Where the documented behaviour and the code disagree, the model follows
the code:

- A plan with an empty artifact list does not stay rejected with "Artifacts
  list is empty". The review then always suggests tests and documentation.
  Those suggestions add `tests/test_basic.py` and `README.md` on the first
  refinement, so that issue is gone after one round (`Refiner.EmptyArtifactsRepaired`).
- The documented guarantee that execute mode is all-or-nothing for newly
  created paths does not hold for the code as written. See "## Findings".
  `Cli.RunPlanner` and `Scaffold.GenerateScaffold` run the executor as
  written. The corrected executor is `Scaffold.ExecuteScaffoldAtomic`, used
  by `Scaffold.GenerateScaffoldAtomic`.

## Model

| member | source | states |
|---|---|---|
| Validation.FirstMissing | src/agentplanner/validation.py:27-29 | finds the first required key, in list order, that the dict lacks; all keys before it are present, and it finds none exactly when every key is present |
| Validation.ValidateTopLevel | src/agentplanner/validation.py:22-29 | succeeds exactly when the value is a dict holding all of feature, milestones, artifacts, status; a non-dict is "must be a dict"; otherwise the error names the first absent key in that order |
| Validation.ExtraKeyIgnored | src/agentplanner/validation.py:22-29 | adding a key outside the required ones never changes whether the plan validates |
| Validation.FirstBadField | src/agentplanner/validation.py:91-95 | finds the first task field, in check order, that is absent or of the wrong type; none exactly when all are fine |
| Validation.ValidateTask | src/agentplanner/validation.py:79-100 | succeeds exactly for a well-formed task and returns its step (a bool read as 1 or 0), description, output and priority, decoded from the raw fields; a non-dict is reported at the task's prefix; otherwise the first field that is missing (reported as missing) or mistyped (reported at `.field`), in the order step, description, output, priority; the priority value is checked only after all four pass |
| Validation.ValidateTaskList | src/agentplanner/validation.py:75-76 | succeeds exactly when every task from the index on is well-formed, and then decodes each raw task into the typed task at the same position; an error is the error of the first failing task at `tasks[k]` |
| Validation.ValidateTasks | src/agentplanner/validation.py:67-76 | `tasks` must be a list, then non-empty, then each task valid; on success the typed tasks decode the raw ones one for one; every error lies under `<prefix>.tasks`, and for a non-empty list it is the first failing task's own error |
| Validation.ValidateMilestone | src/agentplanner/validation.py:44-64 | succeeds exactly for a well-formed milestone; the errors come in the order not-a-dict, id missing, id not an int, title missing, title not a str, tasks missing, then the error of the tasks check itself; all under `milestones[i]`; on success the typed milestone carries the id, the title and each decoded task |
| Validation.ValidateMilestoneList | src/agentplanner/validation.py:40-41 | succeeds exactly when every milestone from the index on is well-formed, and then decodes each one at the same position; otherwise the first failing milestone decides the error |
| Validation.ValidateMilestones | src/agentplanner/validation.py:32-41 | `milestones` must be a list, then non-empty; otherwise an error lies under `milestones[k]` for the first milestone `k` that is not well-formed, and it is that milestone's own error; on success each typed milestone decodes the raw one at its position |
| Validation.FirstNonString | src/agentplanner/validation.py:111-113 | finds the first element that is not a string; none exactly when all are strings |
| Validation.ValidateArtifacts | src/agentplanner/validation.py:103-113 | `artifacts` must be a list, then non-empty, then all strings; the first non-string is reported as `artifacts[k]`; on success the strings, in order |
| Validation.ValidatePlan | src/agentplanner/validation.py:7-19 | succeeds exactly for a well-formed plan (the declarative schema); a top-level failure is reported first, then a milestones failure, then an artifacts failure, each with the error of that stage's own check; on success the typed plan keeps feature and status, decodes each milestone, task by task, at its position, and lists the artifact strings in order |
| Reviewer.ArtifactIssues | src/agentplanner/reviewer.py:40-48 | an empty artifact list gives exactly the one issue "Artifacts list is empty", a non-empty one none |
| Reviewer.IsVague | src/agentplanner/reviewer.py:84-89 | the early-return loop answers whether some vague word occurs anywhere in the text as a substring |
| Reviewer.CheckOutputsInArtifacts | src/agentplanner/reviewer.py:51-63 | the nested loops produce the coverage issues in milestone and task order |
| Reviewer.CheckVagueContent | src/agentplanner/reviewer.py:66-81 | the nested loops produce each milestone's title issue, then its tasks' description issues, milestone by milestone |
| Reviewer.ReviewPlan | src/agentplanner/reviewer.py:6-37 | the review is the artifact issues, then the coverage issues, then the vagueness issues, with the suggestions; approved exactly when there is no issue |
| Reviewer.ApprovedIff | src/agentplanner/reviewer.py:29-31 | a plan is approved exactly when it has artifacts, every named task output is an artifact and no title or description is vague; the suggestions play no part |
| Reviewer.CoverageEmpty | src/agentplanner/reviewer.py:54-61 | there is no coverage issue exactly when no task has a non-empty output missing from the artifacts |
| Reviewer.CoverageIssueIff | src/agentplanner/reviewer.py:54-61 | `Task output '<o>' not in artifacts list` is issued exactly when `o` is non-empty, not an artifact, and some task has output `o`; every coverage issue has that form |
| Reviewer.MissingOutputIssueInjective | src/agentplanner/reviewer.py:61 | different outputs give different coverage issue texts |
| Reviewer.VagueIssuesEmpty | src/agentplanner/reviewer.py:66-89 | there is no vagueness issue exactly when no lower-cased title or description contains a vague word |
| Reviewer.VagueIssueMember | src/agentplanner/reviewer.py:71-79 | the vagueness issues are exactly a title issue per vague title and a description issue per vague description, each quoting the original-case text |
| Reviewer.SuggestionRules | src/agentplanner/reviewer.py:92-111 | the tests suggestion appears exactly when no artifact contains "test" case-insensitively, the documentation one exactly when no artifact ends with ".md", the split one exactly when there is one milestone; nothing else is suggested |
| Reviewer.SuggestionsOrdered | src/agentplanner/reviewer.py:92-111 | the suggestions come in rule order (tests, documentation, split), so none repeats |
| Refiner.NextQuote | src/agentplanner/refiner.py:37 | the run `[^']+` extends to the first single quote after its start, or to the end of the text |
| Refiner.MatchAt | src/agentplanner/refiner.py:37 | a match of `pre([^']+)post` at a position is a non-empty quote-free group with `pre` right before it and `post` right after it |
| Refiner.SearchFrom | src/agentplanner/refiner.py:37 | `re.search` from a position on finds nothing exactly when the pattern matches at no later position; a group it finds is non-empty and quote-free |
| Refiner.SearchFromLeftmost | src/agentplanner/refiner.py:37 | the group `re.search` returns is the match at some position, and the pattern matches at no earlier position |
| Refiner.Search | src/agentplanner/refiner.py:37 | `re.search` over the whole text finds nothing exactly when the pattern matches nowhere; a group it finds is non-empty and quote-free |
| Refiner.SearchFound | src/agentplanner/refiner.py:37 | a group `re.search` returns stands between the pattern's prefix and suffix in the text |
| Refiner.ExtractMissing | src/agentplanner/refiner.py:37-39 | `match.group(1)` of `output '([^']+)' not in artifacts`: none exactly when the pattern matches nowhere; otherwise a non-empty quote-free name that the issue contains between `output '` and `' not in artifacts` |
| Refiner.ExtractVague | src/agentplanner/refiner.py:53-55 | `match.group(1)` of `Task '([^']+)' has vague description`: none exactly when the pattern matches nowhere; otherwise a non-empty quote-free text that the issue contains between `Task '` and `' has vague description` |
| Refiner.SearchFramed | src/agentplanner/refiner.py:37 | in a text whose only quotes frame a middle part, the pattern's group is that part exactly when the text before it ends with the pattern's prefix, the part is non-empty and the text after it starts with the pattern's suffix |
| Refiner.MissingRoundTrip | src/agentplanner/refiner.py:37-39 | the coverage pattern applied to the reviewer's coverage issue for a non-empty quote-free output gives back that output |
| Refiner.VagueRoundTrip | src/agentplanner/refiner.py:53-55 | the vagueness pattern applied to the reviewer's description issue for a non-empty quote-free description gives back that description |
| Refiner.OtherIssuesDoNotMatch | src/agentplanner/refiner.py:35-55 | for a quote-free output, title and description, neither pattern matches an issue of another kind; in particular a vague title issue and the empty-artifacts issue match neither |
| Refiner.ReviewIssueExtractions | src/agentplanner/refiner.py:35-55 | from the plan's own review of a quote-free plan, the coverage pattern extracts only outputs that are missing and named by a task, and the vagueness pattern only vague descriptions of tasks |
| Refiner.PlanDraft.constructor | src/agentplanner/refiner.py:18 | the copy starts equal to the plan |
| Refiner.PlanDraft.FixMissingArtifacts | src/agentplanner/refiner.py:30-44 | the loop with its membership set appends each extracted name not yet present; nothing but the artifacts changes |
| Refiner.PlanDraft.FixVagueDescriptions | src/agentplanner/refiner.py:47-62 | the quoted descriptions are collected, then every task whose description is one of them gets the clarification suffix; nothing but the milestones changes |
| Refiner.PlanDraft.ApplySuggestions | src/agentplanner/refiner.py:65-91 | each suggestion in turn adds the test file (and with it the tests directory) and the README as the rules say; nothing but the artifacts changes |
| Refiner.RefinePlan | src/agentplanner/refiner.py:7-27 | runs the three passes in order on a fresh copy and returns it; the input plan is a value and is left as it was |
| Refiner.AppendNewProps | src/agentplanner/refiner.py:35-42 | the old list stays a prefix, exactly the names not yet present are added, without duplicates, in first-mention order |
| Refiner.AddMissingProps | src/agentplanner/refiner.py:30-44 | the old artifacts stay a prefix; the result holds exactly the old artifacts and every extracted name; no duplicate is introduced; additions follow issue order |
| Refiner.SuggestionStepProps | src/agentplanner/refiner.py:70-89 | for one suggestion: the old list is a prefix; the test file is present exactly when it was or "test" occurs; `tests/` exactly when it was, or the test file was absent and "test" occurs; the README exactly when it was or "readme"/"documentation" occurs; no duplicate is introduced |
| Refiner.AddSuggestedProps | src/agentplanner/refiner.py:65-91 | the same over all suggestions: only the three fixed paths are ever added, each exactly when some suggestion asks for it, the tests directory only along with a newly added test file |
| Refiner.RefineArtifacts | src/agentplanner/refiner.py:21-25 | the refined artifacts keep the old ones as a prefix, introduce no duplicate and contain every name extracted from a coverage issue |
| Refiner.RefineArtifactsIdempotent | src/agentplanner/refiner.py:30-91 | refining the refined plan again with the same verdict adds no artifact |
| Refiner.RefineRewritesOnlyQuoted | src/agentplanner/refiner.py:47-62 | a description equal to an extracted vague text gets " (clarified during refinement)" appended; every other description, and every title, id, step, output, priority, the feature and the status, is unchanged |
| Refiner.ClarifiedStaysVague | src/agentplanner/refiner.py:62 | a clarified description keeps the original as a prefix and so is still vague |
| Refiner.RefineKeepsVagueness | src/agentplanner/refiner.py:7-27 | no refinement makes a vague title or description stop being vague, so a plan that is not vague-free stays so |
| Refiner.RefineCoversNamed | src/agentplanner/refiner.py:30-44 | when the verdict names every uncovered output, the refined plan covers every output |
| Refiner.RefineRepairsCoverage | src/agentplanner/refiner.py:7-27 | refining a plan whose task outputs are quote-free with its own review leaves no coverage issue; titles and descriptions may hold quotes |
| Refiner.RefineClarifiesQuoted | src/agentplanner/refiner.py:47-62 | when the verdict quotes exactly the vague descriptions, exactly those get the suffix |
| Refiner.RefineClarifiesVague | src/agentplanner/refiner.py:47-62 | refining a quote-free plan with its own review clarifies exactly its vague descriptions |
| Refiner.SuggestionsAreActedOn | src/agentplanner/refiner.py:71-89 | the reviewer's tests suggestion triggers the test-file rule and its documentation suggestion triggers the README rule |
| Refiner.EmptyArtifactsRepaired | src/agentplanner/refiner.py:65-91 | a plan with no artifacts has the test file and the README after one refinement with its own review |
| Cli.LoopWithIterate | src/agentplanner/cli.py:50-64 | entered at attempt `k` with the `k`-th refinement, the loop ends at or after `k` and by the limit; it passes only unapproved plans; it approves the plan it stops at, or rejects at the limit with that plan's issues |
| Cli.LoopWithSpec | src/agentplanner/cli.py:47-64 | for any review and refine steps: at most two refinements; approval returns the first approved plan of the sequence; rejection happens exactly when all three plans are unapproved, and then reports the last review's issues |
| Cli.IterateWithKeeps | src/agentplanner/cli.py:63 | a property every refinement keeps holds for every plan of the sequence |
| Cli.ReviewRefineLoop | src/agentplanner/cli.py:47-64 | the `while True` loop computes the loop outcome; `review_plan` runs exactly one more time than `refine_plan`, at most three times |
| Cli.LoopOutcomeSpec | src/agentplanner/cli.py:47-64 | the planner's loop approves the first approved plan among the plan and its two refinements, and rejects exactly when none of the three is approved, with the third review's issues |
| Cli.IterateStaysVague | src/agentplanner/cli.py:63 | no refinement sequence makes a plan that has a vague title or description vague-free |
| Cli.VaguePlanRejected | src/agentplanner/cli.py:47-64 | a plan with a vague milestone title or task description is reviewed three times, refined twice and rejected |
| Cli.RunPlanner | src/agentplanner/cli.py:72-75 | a rejected plan never reaches the scaffold and the file system is untouched; an approved plan is scaffolded, with the file system untouched in preview mode and executed exactly when `--execute` was given, by `_execute_scaffold` as written (`Scaffold.ExecuteSpec`) |
| Scaffold.PartsSegment | src/agentplanner/scaffold.py:57 | `Path(x).parts` of a text without `/` is `[x]`, or nothing when `x` is empty or `.` |
| Scaffold.PartsJoin | src/agentplanner/scaffold.py:57 | the parts of `a/b` are the parts of `a` followed by the parts of `b`; with `Scaffold.PartsSegment` this fixes the parts of every text |
| Scaffold.PartsTrailingSlash | src/agentplanner/scaffold.py:57 | a trailing `/` does not change the parts |
| Scaffold.FileSystem.Exists | src/agentplanner/scaffold.py:59 | `exists()` holds for the working directory, a file or a directory |
| Scaffold.FileSystem.MakeDirs | src/agentplanner/scaffold.py:63 | `mkdir(parents=True, exist_ok=True)` raises exactly when a prefix of the path is a file; otherwise it adds every prefix as a directory |
| Scaffold.FileSystem.WriteText | src/agentplanner/scaffold.py:82 | `write_text` succeeds exactly when the parent is a directory and the path is not one, and then adds the file |
| Scaffold.FileSystem.Unlink | src/agentplanner/scaffold.py:101 | `unlink` succeeds exactly when the path is a file |
| Scaffold.FileSystem.Rmdir | src/agentplanner/scaffold.py:110 | `rmdir` succeeds exactly when the path is an empty directory, and then removes it |
| Scaffold.MakeDirsKeepsTree | src/agentplanner/scaffold.py:63 | creating the parents keeps the file system a well-formed tree |
| Scaffold.CreateDirectory | src/agentplanner/scaffold.py:55-65 | an existing path is skipped and not recorded; otherwise the directory and its parents are made and the directory is recorded, or `mkdir` raises and nothing changes |
| Scaffold.CreateFile | src/agentplanner/scaffold.py:68-84 | an existing path is skipped; otherwise the parents are made, then the file is written and recorded; either step can raise |
| Scaffold.DirectoryStepFacts | src/agentplanner/scaffold.py:55-65 | a directory step keeps the tree well-formed, removes nothing, and brings into existence exactly the parents it makes; the recorded path is one of them; without a raise the path exists afterwards |
| Scaffold.FileStepFacts | src/agentplanner/scaffold.py:68-84 | the same for a file step |
| Scaffold.WalkStays | src/agentplanner/scaffold.py:39-52 | after the first raise no later artifact is processed |
| Scaffold.WalkKeepsInv | src/agentplanner/scaffold.py:39-47 | along the loop the tree stays well-formed, nothing is removed, the recorded paths are distinct, and every recorded path is new |
| Scaffold.WalkCreatesAll | src/agentplanner/scaffold.py:40-47 | when nothing raised, every artifact seen so far exists |
| Scaffold.WalkFault | src/agentplanner/scaffold.py:39-52 | an exception is at an artifact already reached; an injected fault at index `k` makes the loop raise at or before `k` |
| Scaffold.SortDeepestFirst | src/agentplanner/scaffold.py:107 | the in-place sort of the array leaves the stable deepest-first order of its contents |
| Scaffold.DeepestFirstProps | src/agentplanner/scaffold.py:106-107 | the sort is a permutation, orders by non-increasing segment count, and keeps creation order among equally deep paths |
| Scaffold.Rollback | src/agentplanner/scaffold.py:87-113 | an empty record does nothing; otherwise the recorded files are unlinked, then the recorded directories are removed deepest first; each failure is reported and the loop goes on |
| Scaffold.UnlinkAllOnly | src/agentplanner/scaffold.py:98-104 | unlinking touches no directory and no file outside the list, and reports only listed paths |
| Scaffold.RmdirAllOnly | src/agentplanner/scaffold.py:108-113 | removing directories touches no file and no directory outside the list, and reports only listed paths |
| Scaffold.RollbackOnlyRecorded | src/agentplanner/scaffold.py:87-113 | rollback deletes only recorded paths and reports only recorded paths; pre-existing and unrecorded paths stay |
| Scaffold.RmdirAllTries | src/agentplanner/scaffold.py:108-113 | the `rmdir` loop goes on past a failure: each listed directory is still there afterwards exactly when its removal is reported |
| Scaffold.RollbackTriesAll | src/agentplanner/scaffold.py:87-113 | rollback of distinct recorded paths unlinks every recorded file, removes every recorded directory unless its failure is reported, and reports only recorded directories |
| Scaffold.RmdirAllRemoves | src/agentplanner/scaffold.py:106-113 | new directories removed deepest first over a well-formed tree are each empty when their turn comes, so all are removed |
| Scaffold.CreateArtifacts | src/agentplanner/scaffold.py:37-47 | the creation loop shared by both executors computes `Scaffold.Walk` over the whole manifest: the record, the paths made and the index that raised |
| Scaffold.ExecuteScaffold | src/agentplanner/scaffold.py:34-52 | the loop as written: artifacts in manifest order, a trailing `/` for a directory, only the returned paths recorded, and on the first raise the recorded paths rolled back and the exception passed on (the `RolledBack` result) |
| Scaffold.ExecuteKeepsExisting | src/agentplanner/scaffold.py:34-52 | execution never removes a path that existed before, and rollback only removes what the loop created; a failed deletion is of a new path; after a raise a recorded path is still there exactly when its deletion is reported as failed |
| Scaffold.ExecuteCompletes | src/agentplanner/scaffold.py:34-52 | without a raise every artifact exists, nothing that existed is gone, and the recorded paths are distinct and new; a raise is at an artifact of the list, at or before an injected fault |
| Scaffold.StepRecordsArtifact | src/agentplanner/scaffold.py:40-47 | one artifact's step returns that artifact's own path, and returns one exactly when the path was absent and nothing raised |
| Scaffold.WalkStepRecord | src/agentplanner/scaffold.py:40-47 | one iteration appends the artifact's path to `created_paths` exactly when the artifact was reached without a raise and did not exist yet, and appends nothing otherwise |
| Scaffold.WalkCreatedPrefix | src/agentplanner/scaffold.py:37-47 | `created_paths` only grows: what was recorded earlier stays at its front |
| Scaffold.WalkRecordsInOrder | src/agentplanner/scaffold.py:37-47 | every entry of `created_paths` is the path of an artifact already reached, and the artifacts' indices strictly increase along the record |
| Scaffold.ExecuteRecordsInOrder | src/agentplanner/scaffold.py:34-52 | a completed run returns the paths of artifacts of the manifest, for strictly increasing manifest indices |
| Scaffold.ImplicitParentLeftBehind | src/agentplanner/scaffold.py:55-113 | on an empty tree, with manifest `a/b`, `a/b/c`, the code as written rolls back to a tree that still holds directory `a`; the corrected executor restores the empty tree |
| Scaffold.ExecuteScaffoldAtomic | src/agentplanner/scaffold.py:34-52 | the corrected loop: every directory that `mkdir(parents=True)` creates is also recorded for rollback |
| Scaffold.AtomicRestores | src/agentplanner/scaffold.py:34-52 | with the corrected record, a raise leaves exactly the original well-formed tree and no rollback failure |
| Scaffold.GenerateScaffold | src/agentplanner/scaffold.py:6-31 | returns the plan's artifacts in both modes; preview mode leaves the file system unchanged; execute mode runs `_execute_scaffold` as written |
| Scaffold.GenerateScaffoldAtomic | src/agentplanner/scaffold.py:6-31 | the same with the corrected executor in execute mode |

## Left out

- Console I/O is not modelled: `print`, `argparse`, `input()` and the `json.dumps` display in `main`. The dry-run preview is modelled as a call that changes nothing.
- `src/agentplanner/planner.py` is not part of this model. It stands in for an LLM call. `Cli.RunPlanner` takes the typed plan as a parameter, so the step from the planner's raw output to that plan is not part of it.
- Error texts are modelled as the `Validation.Violation` datatype. It holds the location of the violation and its kind, but not the exact message wording.
- Python's `isinstance(True, int)` is modelled: a bool passes the `id` and `step` checks and reads as 1 or 0. JSON floats are not modelled.
- The reviewer and refiner run on the typed plan. The `.get` defaults for missing keys (`[]`, `""`) therefore never apply. `_plan_to_files` cannot return `[]` for a plan without `artifacts`.
- `str.lower` is modelled only for the ASCII letters A to Z.
- Only the two patterns `output '([^']+)' not in artifacts` and `Task '([^']+)' has vague description` are modelled. Each is a leftmost-match function, not a general regular-expression engine.
- Refiner.OtherIssuesDoNotMatch: holds only when the output, title and description are free of single quotes. For the vague title `x' Task 'y' has vague description stuff`, the title issue `Milestone 'x' Task 'y' has vague description stuff' has vague title` contains a full match of the vagueness pattern, and `re.search` extracts `y` from it.
- Refiner.MissingRoundTrip: holds only for outputs without a single quote. Refiner.VagueRoundTrip: holds only for descriptions without a single quote. The extraction functions themselves accept any text.
- The file system is abstract: a set of file paths and a set of directory paths, relative to the working directory.
  - A path is the list of its `/`-separated segments, with empty and `.` segments dropped.
  - Absolute paths, `..`, symbolic links, permissions and file content are not modelled, including the placeholder text `# TODO: Implement <name>`.
- Failures come from two places. One is the natural case of a file standing where a directory is needed. The other is a fault injected at a chosen artifact index, which raises before that artifact's step does anything.
  - `unlink` fails only on a path that is not a file, and `rmdir` only on a path that is not an empty directory.
- Exceptions are modelled as results. The exception that `_execute_scaffold` re-raises is the `RolledBack` result, which carries the failing index and the deletions that failed.
- Cli.ReviewRefineLoop: the number of `review_plan` calls is returned as a ghost out-parameter. The number of `refine_plan` calls is the outcome's `refinements`.
- Scaffold.ExecuteCompletes: states that every recorded path is new and distinct. That the record lists artifact paths in manifest order is `Scaffold.ExecuteRecordsInOrder`. Which artifacts are recorded is stated one iteration at a time (`Scaffold.WalkStepRecord`): one that already existed when the loop reached it is not recorded, even when the same run made it earlier as an implicit parent.

## Findings

| source | as written | input that shows it | evidently intended | confidence | as-written member | corrected member |
|---|---|---|---|---|---|---|
| src/agentplanner/scaffold.py:63-77 | `mkdir(parents=True)` creates missing parent directories, in `_create_directory` (line 63) and in `_create_file` (line 77). Only the artifact path itself is recorded for rollback, so implicit parents survive a rollback. | Empty tree, manifest `["a/b", "a/b/c"]`. `a/b` is written, and line 77 makes its parent `a` first. `a/b/c` then raises at line 77, because `a/b` is a file. Rollback deletes `a/b` but leaves directory `a`. | Execute mode is all-or-nothing for newly created paths: after a raise, the tree is as it was. | not executed | Scaffold.ImplicitParentLeftBehind | Scaffold.AtomicRestores |
