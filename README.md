# Daved-AI code-generation pipeline, modelled in Dafny

This project models the core of Daved-AI's code-generation pipeline:

- A user's prompt becomes a project with planned steps.
- A background run generates each step in order by asking a language model for a JSON document of files.
- Those files are folded into the CodeFile table and into a per-project staging directory.
- The project ends completed or failed, and a completed project is packaged into a ZIP archive that the user can download.

Around that core sit two small utilities, a feature-flag table with a memo cache and the `time_ago` template filter.

The model is written in Python's terms:

- The database tables are maps and sequences held by a `Store` object.
- The staging directory is a map from project id to a tree, and a tree maps relative paths to contents.
- The archive directory maps archive names to archives, each an entry set with a modification time.
- The model itself and `json.loads`/`json.dumps` are parameters. They are oracles: the model answers `(instruction, attempt) -> reply`, and `parse` returns an optional JSON value.
- Everything `generate_step` and the run commit is recorded in a ghost event log: status changes and model calls, in order.

Modules, one per file:

| file | module | what it holds |
|---|---|---|
| wrappers.dfy | Wrappers | `Option` |
| text.dfy | Text | Python string methods used by the code (`strip` with Python's whitespace set, `startswith`, `find`/`rfind`, ASCII `lower`, `str(int)`) |
| json.dfy | Json | a small JSON value, Python truthiness, `dict.get`, `(v or "")` |
| models.dfy | Models | Project, ProjectStep, CodeFile and FeatureFlag records, their status enums, and the `Store` class |
| normalizer.dfy | Normalizer | `_strip_code_fences`, `_sanitize_json_string`, `_try_quick_json_ok` |
| context_filter.dfy | ContextFilter | `_filter_relevant_context` |
| accumulator.dfy | Accumulator | the file-accumulation loop of `generate_step` as a fold over entries |
| step_executor.dfy | StepExecutor | `generate_step`: its functions, then its methods on the `Store` |
| zip_service.dfy | ZipService | `create_project_zip`, `recreate_project_from_db` |
| reconstruction.dfy | Reconstruction | the staging tree a run builds against the tree `recreate_project_from_db` rebuilds |
| project_setup.dfy | ProjectSetup | `_normalize_deliverables` and project/step creation in `generate_code` |
| step_ordering.dfy | StepOrdering | the step query's order |
| generation_run.dfy | GenerationRun | `background_generation` |
| downloads.dfy | Downloads | archive discovery in `generate_status`, and `download_project` |
| feature_flags.dfy | FeatureFlags | `is_feature_enabled` with its memo, `set_feature_flag` |
| time_ago.dfy | TimeAgo | `time_ago_filter` |

Imperative code is modelled by methods that are proved against functions:

- `generate_step` and its retry and accumulation loops.
- The run's loop.
- Staging reconstruction and the archive walk.
- The flag table.

Each method's `ensures` ties the new state to a function of the old state, and the lemmas state what those functions promise.

Three behaviours of the code the model keeps as written:

- Merges always append (`old + "\n" + code`, app/services/codegen_service.py:262), although the prompt at app/services/codegen_service.py:161-162 asks the model for full-file replacements holding the entire updated file.
- Packaging twice in the same second writes one archive name twice: the name carries a timestamp in whole seconds (app/services/zip_service.py:28).
- The run's own fallback instruction uses the title and deliverables unstripped (app/codegen/routes.py:124-130), where `generate_step`'s fallback strips them.

## Model

| member | source | states |
|---|---|---|
| Normalizer.StripCodeFences | app/services/codegen_service.py:13-15 | an empty reply is returned unchanged |
| Normalizer.StripCodeFencesTrimmed | app/services/codegen_service.py:13-25 | the result neither starts nor ends with whitespace |
| Normalizer.FencedPayloadRoundTrip | app/services/codegen_service.py:13-25 | a payload starting with `{` and not ending in a backtick or whitespace, wrapped as "```json\n" + p + "\n```", strips back to exactly p |
| Normalizer.BarePayloadUnchanged | app/services/codegen_service.py:13-25 | an unfenced payload starting with `{` is left as it is |
| Normalizer.Closer | app/services/codegen_service.py:36 | the lazy match ends at the first `"` not preceded by a backslash, and there is none before it |
| Normalizer.SplitCovers | app/services/codegen_service.py:36 | the plain stretches and quoted spans that `re.sub` visits cover the text exactly, in order |
| Normalizer.SplitWellFormed | app/services/codegen_service.py:36 | every quoted span starts and ends with an unescaped `"` and holds no other closing quote; a plain stretch is one non-quote character or an unmatched tail |
| Normalizer.SanitizeWithoutQuotes | app/services/codegen_service.py:27-36 | a string without `"` only loses its NUL characters |
| Normalizer.SanitizeRemovesNul | app/services/codegen_service.py:30 | no NUL survives sanitising |
| Normalizer.SpanHasNoRawControl | app/services/codegen_service.py:34 | a repaired span holds no raw newline, carriage return or tab |
| Normalizer.BackslashToken | app/services/codegen_service.py:33 | for typical model content (no quote, only newline/CR/tab as control characters, every backslash stray), each backslash is doubled |
| Normalizer.RawNewlineIsInvalid | app/services/codegen_service.py:34 | a raw newline inside a string literal makes a strict JSON decoder fail, which is what the repair is for |
| Normalizer.RepairedSpanDecodes | app/services/codegen_service.py:31-35 | for typical model content (no quote, only newline/CR/tab as control characters, stray backslashes), the repaired span decodes back to exactly that content, newlines kept |
| Normalizer.QuickJsonOk | app/services/codegen_service.py:301-313 | true exactly when the normalised reply parses to an object whose `files` is truthy: a non-empty list, or any truthy non-list |
| ContextFilter.Basename | app/services/codegen_service.py:95 | the basename is the suffix of the path after its last `/` and holds no `/` |
| ContextFilter.Dirname | app/services/codegen_service.py:95 | the dirname is a prefix of the path, and empty for a path without `/` |
| ContextFilter.NoDirectoryAlwaysMentioned | app/services/codegen_service.py:95 | a path without a directory is chosen for every step text, because its empty dirname occurs in every string |
| ContextFilter.ChosenIff | app/services/codegen_service.py:94-96 | a path is chosen exactly when its ASCII-lower-cased basename or dirname occurs in the ASCII-lower-cased step text |
| ContextFilter.LastN | app/services/codegen_service.py:100 | `[-n:]`: the last n entries, or all of them when n is 0 or at least the length |
| ContextFilter.FallbackToLatest | app/services/codegen_service.py:99-100 | when nothing is mentioned, the last `max_files` entries are used |
| ContextFilter.SplitLines | app/services/codegen_service.py:106 | `splitlines`: no line holds a line boundary, and the result is empty only for empty text |
| ContextFilter.Reduce | app/services/codegen_service.py:107-110 | a file within the line limit is included verbatim |
| ContextFilter.ReduceZeroKeepsAll | app/services/codegen_service.py:107-110 | with a limit of 0 a non-empty file is kept whole after the marker, since `lines[-0:]` is every line |
| ContextFilter.ReduceKeepsMaxLines | app/services/codegen_service.py:107-110 | a longer file becomes its first `max//2` lines, the marker and its last lines, `max` lines in all |
| ContextFilter.ContextPresentIffFiles | app/services/codegen_service.py:86-100 | the result is None exactly for an empty map; otherwise at least one file is shown |
| ContextFilter.FilterRelevantContext | app/services/codegen_service.py:86-113 | the loops compute the specified context |
| ContextFilter.CollectMentioned | app/services/codegen_service.py:94-96 | the selection loop keeps exactly the mentioned paths, in order |
| ContextFilter.ReduceAll | app/services/codegen_service.py:103-111 | the truncation loop builds one section per selected file |
| Accumulator.FolderOf | app/services/codegen_service.py:241 | a non-empty folder neither starts nor ends with `/` or `\`, having been stripped of both after whitespace |
| Accumulator.FindRecord | app/services/codegen_service.py:254-258 | `.first()` of the (project, folder, file) query: the earliest matching record, or none at all |
| Accumulator.ApplyAllSucceedsIff | app/services/codegen_service.py:240-289 | the loop ends without an error exactly when every entry is an object with a readable folder and file, and every entry that names a file has string (or falsy) code |
| Accumulator.NewFilesAppend | app/services/codegen_service.py:240-278 | N entries naming N distinct keys new to the project add exactly N records after the untouched existing ones, in entry order, each holding its code verbatim; nothing fails |
| Accumulator.ExistingKeyMerges | app/services/codegen_service.py:260-267 | an existing key's record becomes old + "\n" + code under the current step; no record is added and no other record changes; the staging file gets the merged text |
| Accumulator.StagingMatchesRecord | app/services/codegen_service.py:260-278 | after a file is applied, the staging file holds exactly the record's new content |
| Accumulator.FindFirstIs | app/services/codegen_service.py:254-258 | the query finds the first matching record |
| Accumulator.TwoStepsConcatenate | app/services/codegen_service.py:260-278 | two steps writing the same key leave one record with step1 + "\n" + step2, owned by the second step |
| Accumulator.OtherProjectsUntouched | app/services/codegen_service.py:240-278 | accumulation only appends records of this project and step, and only changes records of this project |
| Accumulator.AccumulationKeepsKeysUnique | app/services/codegen_service.py:254-278 | if (folder, file) keys are unique within the project before, they still are after |
| StepExecutor.RetryFrom | app/services/codegen_service.py:171-183 | at most 3 calls; the calls stop at the first viable reply; if none is viable the third reply is used |
| StepExecutor.RetryUnique | app/services/codegen_service.py:178-183 | the processed reply and the number of calls are determined by which replies are viable |
| StepExecutor.RetryLoop | app/services/codegen_service.py:177-183 | the loop computes the retry result and logs one model call per attempt |
| StepExecutor.StepTextNotBlank | app/services/codegen_service.py:132-141 | the instruction sent to the model is never blank |
| StepExecutor.ViableReplyIsParsed | app/services/codegen_service.py:301-311 | a reply the quick check accepts parses as an object with a non-empty file list |
| StepExecutor.EmptyOutputIffBlank | app/services/codegen_service.py:185-186 | "empty output" is reported exactly when the final reply is blank |
| StepExecutor.RawFallback | app/services/codegen_service.py:196-222 | a reply that does not parse and has no `{ … }` slice is kept raw, and the step completes |
| StepExecutor.SaveRawWrites | app/services/codegen_service.py:204-222 | the raw fallback writes the stripped reply to `step_{n}_raw.txt` at the staging root and records it with folder ""; nothing else changes |
| StepExecutor.FileList | app/services/codegen_service.py:228-231 | `files` coerced to a list: empty exactly when falsy, a truthy non-list wrapped |
| StepExecutor.NamedFileCheckSound | app/services/codegen_service.py:233 | the check passes only when some entry names a file, and fails only when none does |
| StepExecutor.StepCompletedIff | app/services/codegen_service.py:185-291 | a step ends completed exactly when the reply is not blank and either it neither parses nor has a `{ … }` slice (raw fallback), or it parses as an object whose file list names a file and has no entry that raises |
| StepExecutor.DocCompletedIff | app/services/codegen_service.py:224-291 | a parsed document completes the step exactly when it is an object whose file list names a file and has no entry that raises |
| StepExecutor.AccumulationErrorIsBadEntry | app/services/codegen_service.py:240-289 | accumulation fails only on an entry that raises |
| StepExecutor.EarlyFailureChangesNothing | app/services/codegen_service.py:185-234 | every failure before the file loop (empty output, invalid slice, not an object, no named file, or the name check raising on an entry) leaves the table and the staging trees unchanged |
| StepExecutor.ApplyAllStops | app/services/codegen_service.py:240-289 | once an entry raises, later entries are not applied; earlier changes stay |
| StepExecutor.ApplyEntryTo | app/services/codegen_service.py:240-278 | one loop pass on the store does what the pure fold does |
| StepExecutor.ApplyFileTo | app/services/codegen_service.py:248-278 | applying a named file on the store does what the pure fold does |
| StepExecutor.AccumulateFiles | app/services/codegen_service.py:240-278 | the file loop on the store does what the pure fold does |
| StepExecutor.GenerateStep | app/services/codegen_service.py:115-297 | when `_make_model()` raises, or the step is missing, nothing changes and the call fails; otherwise the step goes in-progress, the model is called per the retry rule, the reply is processed, the step ends completed or failed, and the log shows exactly that |
| StepExecutor.RunStep | app/services/codegen_service.py:171-297 | the calls, the processing and the final status of a step already in progress |
| StepExecutor.Finish | app/services/codegen_service.py:185-297 | processing the final reply and setting the final status |
| StepExecutor.Process | app/services/codegen_service.py:185-285 | processing the final reply on the store |
| StepExecutor.ProcessParsedIn | app/services/codegen_service.py:192-234 | processing by the outcome of the two-stage parse |
| StepExecutor.ProcessDocIn | app/services/codegen_service.py:224-285 | processing a parsed document |
| ZipService.ArchivePrefixMatch | app/codegen/routes.py:234-237 | an archive name of project q starts with the prefix `project_{p}_` exactly when p == q |
| ZipService.LastRecord | app/services/zip_service.py:64-77 | the last record of the project written to a path, and no later one |
| ZipService.RestageAt | app/services/zip_service.py:64-77 | after rebuilding, a path holds the content of the last record written there (None as ""); other files are kept |
| ZipService.RestageOwnRecords | app/services/zip_service.py:64 | records of other projects play no part |
| ZipService.RecreateProjectFromDb | app/services/zip_service.py:53-82 | success exactly for an existing project; then the staging directory is the rebuilt tree; a missing project creates nothing |
| ZipService.CollectEntries | app/services/zip_service.py:32-37 | the archive holds exactly the staged files under their relative paths |
| ZipService.CreateProjectZip | app/services/zip_service.py:12-50 | a missing project or a missing staging directory fails with no archive written; otherwise `project_{id}_{stamp}.zip` holds the staging tree, replacing an archive of that name |
| ProjectSetup.NormalizeDeliverables | app/codegen/routes.py:23-31 | None for a missing or null value, JSON text for a list or a dict, the string itself for a string, `True`/`False` for a boolean and the decimal text for an integer |
| ProjectSetup.StepFromPlan | app/codegen/routes.py:80-90 | defaults: number 1, title "Untitled Step", details ""; every created step is pending |
| ProjectSetup.AddStepsRows | app/codegen/routes.py:78-94 | one new row per planned step at fresh consecutive ids, each built from its planned step; existing rows unchanged |
| ProjectSetup.GenerateCode | app/codegen/routes.py:41-94 | a blank prompt or one judged not code-related is rejected with nothing created; otherwise the in-progress project and its steps are created |
| ProjectSetup.CreateSteps | app/codegen/routes.py:78-94 | the step-creation loop adds exactly the planned rows |
| Reconstruction.JoinPathInjective | app/services/codegen_service.py:248-250 | with file names free of `/`, distinct (folder, file) pairs are written to distinct paths |
| Reconstruction.UniqueKeysGiveUniquePaths | app/services/codegen_service.py:248-258 | records with unique (folder, file) keys and file names free of `/` are at distinct paths |
| Reconstruction.RestageUpdate | app/services/zip_service.py:64-77 | rewriting the last record written to a path, keeping its project and path, changes the rebuilt tree at that path only |
| Reconstruction.RestageIdempotent | app/services/zip_service.py:53-77 | rebuilding over a tree that is already the table's rebuild gives that tree back |
| Reconstruction.UniqueIsLast | app/services/zip_service.py:64-77 | when the project's records have distinct paths, each is the last record written to its path |
| Reconstruction.ApplyAllPlaces | app/services/codegen_service.py:240-278 | the accumulation loop never moves a record to another index, project or path |
| Reconstruction.ApplyFileRebuilds | app/services/codegen_service.py:248-278 | a file step that does not raise keeps the staging tree equal to the table's rebuild, when the project's paths stay distinct |
| Reconstruction.ApplyAllRebuilds | app/services/codegen_service.py:240-278 | a file list with no raising entry keeps the staging tree equal to the table's rebuild, when the project's paths stay distinct |
| Reconstruction.DocKeepsRebuildable | app/services/codegen_service.py:224-289 | a parsed document that does not fail on a raising entry keeps the staging tree equal to the table's rebuild, when the project's paths stay distinct |
| Reconstruction.StepKeepsRebuildable | app/services/codegen_service.py:185-289 | after a step that does not fail on a raising entry, with the project's paths distinct, the staging tree equals the table's rebuild, and `recreate_project_from_db` reproduces it exactly |
| Reconstruction.CollidingPathsDiverge | app/services/codegen_service.py:248-266 | the keys ("", "a/b.py") and ("a", "b.py") share a path: writing X, Y, then Z under the first key stages "X\nZ", while the rebuild gives "Y" |
| StepOrdering.HasLast | app/codegen/routes.py:106 | every non-empty set of steps has a last one in the query order |
| StepOrdering.Ordered | app/codegen/routes.py:106 | each id once, and nothing else, in query order |
| StepOrdering.StepOrder | app/codegen/routes.py:106 | the run visits each step of the project exactly once, and no other step, by non-decreasing step number |
| GenerationRun.InstructionUsedAsIs | app/codegen/routes.py:123-139 | the run's instruction is never blank, and `generate_step` uses it unchanged |
| GenerationRun.FallbackIff | app/codegen/routes.py:124-130 | with blank details, "Implement step #n" is sent exactly when there is no title and no deliverables |
| GenerationRun.VisitEffect | app/codegen/routes.py:111-145 | one visit settles the visited step unless it vanished or its model could not be built (then the row is unchanged), leaves other rows alone, and raises the flag exactly when the step vanished, had no model, or failed |
| GenerationRun.AnyFailedIff | app/codegen/routes.py:109-145 | `any_failed` ends true exactly when some visit failed |
| GenerationRun.VisitedStepsSettled | app/codegen/routes.py:111-145 | after the loop every listed step that did not vanish and got a model is completed or failed; every other row (a step without a model stays e.g. pending) is untouched |
| GenerationRun.FailedStatusIff | app/codegen/routes.py:111-145 | after the loop, a step that did not vanish and got a model has status failed exactly when its own visit failed; one without a model keeps its row |
| GenerationRun.ProjectFailedIff | app/codegen/routes.py:109-175 | the project ends failed exactly when one of its steps vanished, could not get a model, or ended failed |
| GenerationRun.NoStepsCompletes | app/codegen/routes.py:106-175 | a project with no steps ends completed |
| GenerationRun.BackgroundGeneration | app/codegen/routes.py:97-191 | a missing project changes nothing; otherwise the steps are run in order, the project ends failed exactly when one of its steps vanished, could not get a model, or ended failed, and a completed project is packaged |
| GenerationRun.RunSteps | app/codegen/routes.py:111-170 | the loop on the store computes the specified run |
| GenerationRun.VisitStep | app/codegen/routes.py:114-145 | one iteration on the store computes one visit |
| Downloads.MatchingArchives | app/codegen/routes.py:234-237 | the archive names that carry the project's prefix |
| Downloads.PackagingIsPerProject | app/codegen/routes.py:234-237 | packaging q makes an archive available for q, and changes availability for no other project |
| Downloads.LatestArchive | app/codegen/routes.py:268-269 | the chosen archive is the project's, with the greatest modification time |
| Downloads.DownloadProject | app/codegen/routes.py:249-281 | 404 for a missing project, 403 for another user's; the newest archive if there is one, otherwise the project rebuilt from the table and packaged; the staging directory is removed afterwards |
| FeatureFlags.Upsert | app/utils/feature_flags.py:15-24 | an absent name gets a new flag with the given value and description; an existing flag gets the value, and the description only when it is truthy; other flags are unchanged |
| FeatureFlags.SetThenRead | app/utils/feature_flags.py:13-29 | reading a flag after setting it gives the value set |
| FeatureFlags.SetLeavesOthers | app/utils/feature_flags.py:19-24 | setting one flag changes no other name's answer |
| FeatureFlags.FlagTable.IsFeatureEnabled | app/utils/feature_flags.py:7-11 | the answer, cached or not, is the flag's value or false when it is missing, and is cached afterwards |
| FeatureFlags.FlagTable.SetFeatureFlag | app/utils/feature_flags.py:13-29 | the upsert, the memo entry for that name dropped and the others kept, the cache still coherent, and the stored flag returned with the value set |
| FeatureFlags.SetThenIsEnabled | app/utils/feature_flags.py:7-28 | after setting a flag, the next `is_feature_enabled` returns the value set |
| TimeAgo.Elapsed | app/__init__.py:52-53 | `timedelta` normalisation: seconds in [0, 86400), and days and seconds together count the whole seconds elapsed, rounded down |
| TimeAgo.PastBuckets | app/__init__.py:55-65 | for a past moment, s whole seconds ago: years = s / (365 days) past 365 days, months = s / (30 days) past 30 days, days, hours past 3600 s, minutes past 60 s, "just now" up to 60 s |
| TimeAgo.HoursRange | app/__init__.py:61-62 | the hours phrase names 1 to 23 hours |
| TimeAgo.ExactlyAnHour | app/__init__.py:61-64 | exactly 3600 s ago reads "60 minutes ago" |
| TimeAgo.OneSecondAhead | app/__init__.py:53-62 | a moment one second in the future reads "23 hours ago", since only `days` carries the sign |

## Left out

- The model API calls (`_make_model`, `_call_gemini_json`, `_extract_text_from_gemini`), `check_code_intent` and `improve_prompt` are foreign calls. They are oracle parameters. A failed `_call_gemini_json` is a reply of "". Whether `_make_model()` raises is the flag `modelMade` of `StepExecutor.GenerateStep` and, for the run, the set `unmade` of step ids; such a step fails without being read, so it keeps its status. The swallowed safety check has no effect.
- `json.loads` and `json.dumps` are parameters. `\u` escapes are outside the decoder model used by `RepairedSpanDecodes`.
- The `sleep(1.2 * i)` back-off has no observable effect and is not modelled.
- Threads are not modelled: the background run is a sequential method on one project. Another request deleting a step mid-run is modelled by the `vanished` parameter.
- The exception handler of the run's loop (app/codegen/routes.py:158-170) is unreachable in the model, because `generate_step` turns every exception into a result. Only I/O or database errors could reach that handler.
- The run re-reads the project (app/codegen/routes.py:173). Nothing in the model deletes projects, so the re-read always finds it.
- I/O failures are not modelled. This covers: `create_project_zip`'s and `recreate_project_from_db`'s catch-all handlers, the 404/500 answers of `download_project` that only I/O errors produce, a partially written archive, a missing or unset ZIP_DIR, and the failure of `send_from_directory`.
- The dead per-file loop (app/codegen/routes.py:148-154) computes a path and discards it.
- The debug prints are not modelled. So are the `updated_at`/`created_at` timestamps, the JSON response bodies of `generate_code` and `generate_status`, and the session autoflush and commit mechanics. Every change is treated as committed at once.
- `_filter_relevant_context` is modelled on its own; no code in the core calls it.
- Non-string `prompt`, plan fields and CodeFile names are not modelled. Rows hold strings, as the ORM's column types do.
- Rows with equal `step_number` are ordered by id. The database leaves that order unspecified.
- `str(value)` for a JSON number is modelled for integers only; floats are out of scope.
- FeatureFlags.FlagTable.IsFeatureEnabled: the memo's 60-second expiry is not modelled. The cache is proved coherent with the table, so an expiry cannot change an answer. The admin screen's flag toggle writes the table without clearing the memo. That toggle lies outside the core and is not modelled.
- File and folder names are opaque relative paths. The model assumes no leading separator, no empty, `.` or `..` segment, and no file where a directory is needed. It therefore does not capture three things. An absolute name escapes the staging directory, since `os.path.join` drops what comes before it. `./x` and `x`, or `a//b` and `a/b`, are one file on disk but two keys here. A file `src` followed by `src/x.py` makes `os.makedirs` raise and fails the step, where the model completes it.
- Accumulator.StagingMatchesRecord: paths are opaque strings, as above.
- ZipService.CollectEntries: paths are opaque strings, as above.
- ZipService.RestageAt: paths are opaque strings, as above.
- ZipService.CreateProjectZip: paths are opaque strings, as above.
- ContextFilter.ChosenIff: lower-casing is ASCII-only. Python's `str.lower` also lower-cases non-ASCII letters (`É` to `é`, and so on), so a path or step text with non-ASCII capitals can be chosen by the code and not by the model.
- `time_ago_filter` reads the clock; `now` is a parameter. Times are integers in microseconds.

## Findings

| source | as written | input that shows it | evidently intended | confidence | as-written member | corrected member |
|---|---|---|---|---|---|---|
| app/services/codegen_service.py:248-266 | a merge finds the record by (project, folder, file) and writes the merged text to folder/file, while `recreate_project_from_db` (app/services/zip_service.py:66-77) writes every record to folder/file in table order; two distinct keys joining to the same path make the staging file and the rebuild differ | in one project, entries ("", "a/b.py", X), ("a", "b.py", Y), then ("", "a/b.py", Z): the staging file ends as "X\nZ", the rebuild as "Y" | the rebuilt project holds the same files as the staging directory | not executed; high that the divergence exists, medium that it matters in practice | Reconstruction.CollidingPathsDiverge | Reconstruction.StepKeepsRebuildable |

The corrected half is the agreement itself. It is proved under the hypothesis that the project's records are at distinct paths. The accumulation keeps (folder, file) keys unique (Accumulator.AccumulationKeepsKeysUnique), and with file names free of `/` unique keys give distinct paths (Reconstruction.UniqueKeysGiveUniquePaths).
