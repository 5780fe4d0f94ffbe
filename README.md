# Spec-workflow scripts and backend cache, modelled in Dafny

This project models the parts of the agent-os workflow scripts that decide
things, and the in-memory cache of the backend:

- **The state detector** (`scripts/detect-state.js`, and its variant in
  `scripts/sync-to-notion.js`). Four presence flags decide which agent runs
  next and the project status: `raw-idea.md`, `planning/requirements.md`,
  the feature's spec file and `tasks.md`. When all four exist, the Markdown checklist of
  `tasks.md` is parsed into task records. The Notion variant applies its own
  outcome rule and maps each task to a Notion page.
- **The tracker sync** (`scripts/sync-to-tracker.js`), which has:
  - its own `tasks.md` dialect, with integer or dotted IDs, an order counter
    and the "Task Group N:" prefix stripped;
  - the `test-plan.md` parser and its test types;
  - the title and description taken from the feature's spec file and `raw-idea.md`;
  - the feature phase;
  - the external IDs and payloads;
  - the synced/failed counters;
  - the argument handling of `main`.
- **`CacheService`** (`backend/app/core/cache.py`) on its in-memory path: a
  dictionary updated in place by `set`, `delete`, `clear` and `set_many`, and
  read by `get`, `exists` and `get_many`. The choice between Redis and memory
  is made once, at construction.

How the model is written:

- **Inputs.** File presence is a boolean input and file contents are strings
  already read. The cache's environment and connection test are constructor
  arguments.
- **Regular expressions.** The character classes are written out:
  - `\s` is the 25-character set that `String.prototype.trim` strips;
  - `.` excludes the four line terminators, so a CRLF line, whose last
    character is `\r`, never ends a `(.+)$` group;
  - `\d` is ASCII.

  The patterns themselves are handled in three ways:
  - **Task and test lines.** Each pattern is stated twice: once as a
    declarative predicate over the characters of a line, and once as a
    greedy match function. The two are proved equal in both directions,
    and every way the pattern can match is shown to give the same groups.
  - **Headings.** The predicates for the heading patterns (`Task Group \d+:`,
    `^#+\s*`, `^###\s+`, `^##\s+`) are greedy by construction: each run is
    read to its end, and the next character is checked. No second,
    declarative form is proved equal to them.
  - **`extractSpecMetadata`.** The title and overview patterns range over the
    whole text, not a single line.
    - The leftmost match, the extent of the greedy `\s+` run and the lazy
      group's end are each stated by the contract of a search function.
    - There is no separate declarative form of these patterns.
- **Loops.** The scripts' parsing loops are Dafny methods with loop
  invariants. Each is proved equal to a fold over the classified lines. The
  lemmas about the fold give the properties by which the scripts are read:
  - one record per matching line, in order;
  - the group is the most recent heading;
  - tracker orders run 1..n;
  - every test line yields a test.
- **The cache** is a class whose `map` field the methods reassign. A
  reference definition states what `get` sees after any run of set, delete
  and clear operations, and a lemma proves the dictionary agrees with it.

Modules follow the sources:

| file | module | models |
|---|---|---|
| `wrappers.dfy` | `Wrappers` | `Option` |
| `text.dfy` | `Text` | `\s`, `trim`, `split`/`join`, `path.basename`, ASCII case folding |
| `workflow.dfy` | `Workflow` | presence flags, agents, statuses, workflow order |
| `checklist.dfy` | `Checklist` | task-line patterns and group headings |
| `task_list.dfy` | `TaskList` | the line fold shared by the parsers, with its group tracking |
| `tasks_file.dfy` | `TasksFile` | `parseTasks` of the detector and the Notion sync |
| `detect_state.dfy` | `DetectState` | `detectState` of the detector |
| `notion_sync.dfy` | `NotionSync` | `detectState` and the page properties of the Notion sync |
| `tracker_list.dfy`, `tracker_tasks.dfy` | `TrackerList`, `TrackerTasks` | `parseTasks` of the tracker sync |
| `test_plan.dfy` | `TestPlan` | test records of the tracker sync and their test types |
| `test_lines.dfy`, `tracker_tests.dfy` | `TestLines`, `TrackerTests` | `parseTests` of the tracker sync |
| `spec_metadata.dfy` | `SpecMetadata` | `extractSpecMetadata` |
| `tracker_sync.dfy` | `TrackerSync` | phase, external IDs, payloads, counters, `main` |
| `cache.dfy` | `Cache` | `CacheService` in memory |

Where the code and its description differ, the model follows the code:

- **Empty headings.** `currentGroup || 'Ungrouped'` treats an empty heading
  text (a bare `###`) like no heading at all, so such tasks are filed under
  "Ungrouped". By the same rule, `currentSection || 'General'` files them
  under "General".
- **`--type=` values.** `typeArg.split('=')[1]` is the text between the
  first `=` and the next one, not everything after the first `=`.
- **The Notion sync's agent.** It reports `implementer` only when all four
  files exist, not whenever `tasks.md` exists. It reports `implementer` even
  when every task is done.
- **Upper-case `X` in `test-plan.md`.** The test-line pattern carries the
  `i` flag, so an upper-case `X` checkbox matches. Such a test is
  nevertheless `pending`, since only a lowercase `x` counts as passed.

## Model

| member | source | states |
|---|---|---|
| Workflow.FirstMissing | scripts/detect-state.js:55-71 | the index of the first missing artifact in the order raw idea, requirements, spec, tasks; every earlier one exists; 4 exactly when all four exist |
| DetectState.Detect | scripts/detect-state.js:38-91 | the report keeps the spec path, names the spec by the path's base name, and carries a next task exactly in the implementer outcome |
| DetectState.FirstMissingDecides | scripts/detect-state.js:55-70 | when a file is missing, the producer of the first missing one runs next; the status is Not Started only without a raw idea, otherwise Planning; no next task |
| DetectState.LaterFilesIgnored | scripts/detect-state.js:55-70 | two folders that agree on every flag up to and including the first missing one get the same report, whatever the later flags and `tasks.md` say |
| DetectState.CompleteWhenAllDone | scripts/detect-state.js:72-81 | `complete` exactly when all four files exist and every parsed task is completed (vacuously for none); then status Done and "All tasks completed!" |
| DetectState.NextTaskIsFirstIncomplete | scripts/detect-state.js:82-87 | the implementer runs only with all four files; status In Progress; the next task is the first incomplete task in document order, and the summary names its ID and description |
| TaskList.OrElse | scripts/detect-state.js:29 | `text \|\| fallback`, as used for `'Ungrouped'` here and for `'General'` at scripts/sync-to-tracker.js:187: the fallback exactly when there is no text, or the text is empty (or is the fallback itself); otherwise the text |
| TaskList.TaskLineIndicesSound | scripts/detect-state.js:10-32 | the task-line index list is strictly increasing and holds exactly the lines that carry a task |
| TaskList.ParseByLine | scripts/detect-state.js:10-32 | exactly one task per task line, in line order: the k-th task comes from the k-th task line, under the group current at that line |
| TaskList.GroupIsLastHeading | scripts/detect-state.js:8-19 | the group at a line is the text of the most recent heading at or above it |
| TaskList.NoHeadingNoGroup | scripts/detect-state.js:8 | before any heading there is no group |
| TaskList.ParseMember | scripts/detect-state.js:23-31 | every task comes from some task line, under the group current there |
| TaskList.Incomplete | scripts/detect-state.js:76 | `filter(t => !t.completed)`: exactly the incomplete tasks, no more of them than tasks |
| TaskList.FirstIncomplete | scripts/detect-state.js:84 | the first incomplete task is a task of the list preceded only by completed tasks |
| Checklist.MatchTaskIsPattern | scripts/detect-state.js:22 | `MatchTask` succeeds exactly on the lines the task pattern matches, and returns the pattern's groups for every way it matches |
| Checklist.MatchTaskUnique | scripts/detect-state.js:22 | any match of the task pattern is the one `MatchTask` returns: indent, checkbox, ID and rest |
| Checklist.MatchTaskSound | scripts/detect-state.js:22 | what `MatchTask` returns is a match of the pattern |
| Checklist.MatchTaskFields | scripts/detect-state.js:22-30 | the indent is the whitespace run before `-`, the checkbox holds a space or `x`, the ID has the pattern's shape, and the rest starts with whitespace and ends the line |
| Checklist.IdEndOfId | scripts/detect-state.js:22 | the greedy ID run stops exactly where an ID followed by whitespace ends |
| Checklist.LabelIsNotSection | scripts/detect-state.js:12-19 | a "Task Group N:" label line is never a `###` section heading |
| Checklist.LabelKept | scripts/detect-state.js:17-18 | the group a label sets keeps its "Task Group" text |
| Checklist.HeadingGroup | scripts/detect-state.js:12-19 | a section heading sets the trimmed text after `###`; a label line starting with `####` sets the trimmed text after it, so `#### Task Group 1: Setup` gives "Task Group 1: Setup"; a label line not starting with `####` sets the whole trimmed line; each label's group contains "Task Group"; every group text is trimmed |
| TasksFile.ParseTasks | scripts/detect-state.js:5-36 | the loop returns the fold of the classified lines of `tasks.md` (equally `parseTasks` at scripts/sync-to-notion.js:99-130) |
| TasksFile.TaskFromLine | scripts/detect-state.js:22-30 | each field of a task is read off its line: indent, completion iff `x` and pending iff space, the ID group of the pattern, the trimmed description, the group name |
| TasksFile.ParsedTaskShape | scripts/sync-to-notion.js:116-124 | every parsed task has a dotted ID and a trimmed description, and its group is "Ungrouped" or a trimmed text |
| TasksFile.HeadingsTrimmed | scripts/sync-to-notion.js:105-113 | the group current at any line is trimmed |
| NotionSync.Detect | scripts/sync-to-notion.js:52-97 | tasks are read, and the implementer reported, exactly when all four files exist; then Done exactly when every task is completed, else In Progress; otherwise no tasks and Not Started or Planning; never `complete` |
| NotionSync.AgreesWithDetector | scripts/sync-to-notion.js:69-93 | the status agrees with the detector's; the agent agrees too, except that the detector's `complete` is `implementer` here |
| NotionSync.PageOf | scripts/sync-to-notion.js:221-237 | a page's status is Done exactly when the task is completed, otherwise Todo; its Task ID and Task Group are the task's |
| NotionSync.PageNameSplits | scripts/sync-to-notion.js:223 | the page name splits at its first space back into the task ID and the description |
| NotionSync.FirstSpaceAfter | scripts/sync-to-notion.js:223 | the first space of `id + " " + rest` is just after a space-free ID |
| TrackerTasks.ParseTasks | scripts/sync-to-tracker.js:116-156 | no tasks without `tasks.md`; otherwise the loop returns the fold of the classified lines |
| TrackerList.RecordOf | scripts/sync-to-tracker.js:142-151 | status done exactly when the box is `x`, else todo; priority medium; one story point; the given order and group |
| TrackerList.TrackerAgreesWithParse | scripts/sync-to-tracker.js:126-151 | on the same classified lines, the tracker's records are as many as the tasks `TaskList.Parse` gives; the k-th has order k + 1 and that task's ID, title, completion and group name, and the description "Task ID from group" |
| TrackerTasks.AcceptsDetectorLines | scripts/sync-to-tracker.js:138 | every line the detector's pattern matches, the tracker's matches with the same groups |
| TrackerTasks.AtMostOneDot | scripts/sync-to-tracker.js:138 | the ID of every line the tracker's task pattern accepts holds at most one dot |
| TrackerTasks.TwoDotsRefused | scripts/sync-to-tracker.js:138 | an example: `- [ ] 1.1.2 x` is not a task |
| TrackerTasks.FirstLabel | scripts/sync-to-tracker.js:133 | the leftmost "Task Group N:" label at or after an offset, or none |
| TrackerTasks.LabelHeadingName | scripts/sync-to-tracker.js:130-134 | `#### Task Group N: text` sets the group to the trimmed text |
| TrackerTasks.SectionHeadingName | scripts/sync-to-tracker.js:130-134 | a `### text` heading with no "Task Group N:" label after its leading marks sets the group to the trimmed text |
| TestPlan.TypeOf | scripts/sync-to-tracker.js:189-195 | unit if the lower-cased section contains "unit", else e2e if it contains "e2e", else integration if it contains "integration", else (also without a section) manual |
| TestPlan.TypeIgnoresCase | scripts/sync-to-tracker.js:189-193 | the test type does not depend on the section's letter case |
| TestPlan.CaseOf | scripts/sync-to-tracker.js:184-196 | a test's ID and title are the line's, passed exactly when the box is `x` else pending, and its type is the section's |
| TestPlan.TestMember | scripts/sync-to-tracker.js:173-197 | every test comes from some test line, under the section current there |
| TestPlan.TestFromEveryLine | scripts/sync-to-tracker.js:173-197 | every test line yields its test |
| TestLines.MatchTestIsPattern | scripts/sync-to-tracker.js:180 | `MatchTest` succeeds exactly on the lines the case-insensitive test pattern matches, and returns its groups |
| TestLines.MatchTestUnique | scripts/sync-to-tracker.js:180 | any match of the test pattern is the one `MatchTest` returns |
| TestLines.TestIdEndOfId | scripts/sync-to-tracker.js:180 | the alternatives `TEST-\d+`, `TC-\d+`, `\d+\.\d+`, tried in order, end exactly where an ID followed by `:` ends |
| TestLines.SectionText | scripts/sync-to-tracker.js:175-176 | a `##` section's name is the trimmed rest of the line, and it is trimmed |
| TrackerTests.ParseTests | scripts/sync-to-tracker.js:161-201 | no tests without `test-plan.md`; otherwise the loop returns the fold of the classified lines |
| TrackerTests.TestFromLine | scripts/sync-to-tracker.js:180-188 | a test's ID and title are the pattern's groups; passed exactly for a lowercase `x`; pending for a space or an upper-case `X` |
| TrackerTests.ParsedTestShape | scripts/sync-to-tracker.js:180-187 | every parsed test has an ID of the pattern, a trimmed title, and the description "Test from " and a trimmed section name |
| TrackerTests.SectionsTrimmed | scripts/sync-to-tracker.js:175-176 | the section current at any line is trimmed |
| SpecMetadata.TitleStart | scripts/sync-to-tracker.js:89 | where the greedy `\s+` of the title pattern stops: a non-terminator after spaces, with no later such offset |
| SpecMetadata.FirstTitle | scripts/sync-to-tracker.js:89 | the leftmost line start where the title pattern matches |
| SpecMetadata.TitleGroup | scripts/sync-to-tracker.js:89 | the title group is non-empty and holds no line terminator |
| SpecMetadata.OverviewStart | scripts/sync-to-tracker.js:95 | the lazy group starts after the last `\n` the spaces after "Overview" lead to |
| SpecMetadata.SectionEnd | scripts/sync-to-tracker.js:95 | the lookahead stops at the first `\n##` or at the end of the text |
| SpecMetadata.FirstOverview | scripts/sync-to-tracker.js:95 | the leftmost offset where the Overview pattern matches |
| SpecMetadata.OverviewGroup | scripts/sync-to-tracker.js:95 | the captured section holds no `\n##` |
| SpecMetadata.OverviewDescription | scripts/sync-to-tracker.js:96-97 | the description taken from the overview holds no `\n`; on CRLF text it can still end with a `\r` |
| SpecMetadata.FirstNonBlank | scripts/sync-to-tracker.js:106 | `find` of the first line whose trim is non-empty: empty exactly when every line is blank, otherwise the earliest non-blank line, untrimmed |
| SpecMetadata.Extract | scripts/sync-to-tracker.js:78-111 | the external ID is the folder's base name; the title is that name without a spec title; the overview line when non-empty, else the raw idea's first non-blank line, else ""; the description holds no `\n` |
| SpecMetadata.TitleOneLine | scripts/sync-to-tracker.js:89-92 | the title from the feature's spec file is the trimmed title group, trimmed and one line |
| SpecMetadata.OpeningHeadingTitle | scripts/sync-to-tracker.js:89 | a spec opening with `# ` and a non-space is titled by the rest of that line |
| SpecMetadata.OpeningOverviewGroup | scripts/sync-to-tracker.js:95 | a spec opening with `## Overview` and a newline, with no later `\n##`, captures the rest of the text |
| TrackerSync.FeaturePhase | scripts/sync-to-tracker.js:238-247 | testing exactly when the test plan exists; development when tasks exist without a test plan; spec with only the spec; raw-idea with none |
| TrackerSync.ExternalId | scripts/sync-to-tracker.js:286 | the external ID is the base name, a dash and the ID, and both parts can be read back from it |
| TrackerSync.ExternalIdInjective | scripts/sync-to-tracker.js:332 | within one spec folder, distinct IDs give distinct external IDs |
| TrackerSync.ExternalIdSplitsAtLastDash | scripts/sync-to-tracker.js:286 | for dash-free IDs, equal external IDs mean equal folder names and equal IDs |
| TrackerSync.TaskPayloadOf | scripts/sync-to-tracker.js:285-293 | a task payload carries the external ID and every field of the record but its group |
| TrackerSync.TestPayloadOf | scripts/sync-to-tracker.js:331-341 | a test payload carries the external ID and the record's fields; the feature ID is sent exactly when it is given and non-empty |
| TrackerSync.Successes | scripts/sync-to-tracker.js:301-305 | the number of successful posts: all of them exactly when each succeeded, none exactly when each failed |
| TrackerSync.Tally | scripts/sync-to-tracker.js:281-306 | `synced` counts the successful posts and `synced + failed` counts every post |
| TrackerSync.FirstPlain | scripts/sync-to-tracker.js:390 | the first argument not starting with `--`, or none |
| TrackerSync.FirstTypeFlag | scripts/sync-to-tracker.js:391 | the first argument starting with `--type=`, or none |
| TrackerSync.FlagValue | scripts/sync-to-tracker.js:392 | the flag's value is the text after `--type=` up to the next `=` |
| TrackerSync.CommandOf | scripts/sync-to-tracker.js:408-425 | project, feature, tasks and tests select their sync; any other type, `all` included, runs the full sync |
| TrackerSync.Main | scripts/sync-to-tracker.js:388-431 | usage exactly when no spec path is given (absent or empty); a missing path is reported; otherwise the sync named by the type runs on the path |
| TrackerSync.FlagValueRoundTrip | scripts/sync-to-tracker.js:392 | a value without `=` is read back whole from its flag |
| TrackerSync.ArgumentOrderIrrelevant | scripts/sync-to-tracker.js:389-392 | the spec path and the `--type=` flag may come in either order |
| TrackerSync.FlagsOnlyIsUsage | scripts/sync-to-tracker.js:394-400 | flags alone print the usage message |
| Cache.RedisUsed | backend/app/core/cache.py:42-63 | Redis is used exactly when `REDIS_ENABLED` says "true" in any case, `REDIS_URL` is set and non-empty, and the connection test passes |
| Cache.Lookup | backend/app/core/cache.py:92 | `dict.get`: the stored value, `None` for a missing key |
| Cache.CacheService.constructor | backend/app/core/cache.py:41-65 | the mode is decided once and the dictionary starts empty; construction never fails |
| Cache.CacheService.Get | backend/app/core/cache.py:90-92 | returns the stored value, `None` when absent |
| Cache.CacheService.Set | backend/app/core/cache.py:117-120 | stores the value under the key, whatever the TTL; leaves the other keys; returns True |
| Cache.CacheService.Delete | backend/app/core/cache.py:139-143 | removes the key when present and changes nothing else; returns True either way |
| Cache.CacheService.Clear | backend/app/core/cache.py:161-164 | empties the dictionary; returns True |
| Cache.CacheService.Exists | backend/app/core/cache.py:182-183 | true exactly when the key is stored, even with a `None` value |
| Cache.CacheService.GetMany | backend/app/core/cache.py:195-200 | the result holds exactly the requested keys whose value is not `None`, each with its value |
| Cache.CacheService.SetMany | backend/app/core/cache.py:213-217 | every pair of the mapping is stored over the old dictionary; returns True |
| Cache.Apply | backend/app/core/cache.py:117-164 | one set, delete or clear changes the dictionary as the methods do |
| Cache.RunLookup | backend/app/core/cache.py:92-164 | after any run of sets, deletes and clears, `get(k)` is the value of the last set of `k`, `None` after a later delete or clear, and the old value when nothing touched `k` |
| Cache.SetThenGet | backend/app/core/cache.py:92-120 | a set then a get returns the value set; other keys keep their values |
| Cache.DeleteThenGet | backend/app/core/cache.py:92-143 | after a delete, get returns `None` and exists is false for that key; other keys are unchanged |
| Cache.SetManyThenGet | backend/app/core/cache.py:213-217 | after `set_many`, each key of the mapping holds its value and every other key keeps its own |
| Text.TrimIdempotent | scripts/detect-state.js:27 | trimming a trimmed text changes nothing |
| Text.TrimKeeps | scripts/detect-state.js:18 | trimming keeps every piece that neither starts nor ends with whitespace |
| Text.JoinSplit | scripts/detect-state.js:7 | joining the lines of `split('\n')` gives back the text |
| Text.SplitJoin | scripts/detect-state.js:7 | splitting a join of newline-free lines gives back the lines |
| Text.Basename | scripts/detect-state.js:41 | `path.posix.basename`: a slash-free segment that starts the text or follows a `/`, followed only by slashes; empty exactly for a text of slashes |
| Text.LowerIdempotent | scripts/sync-to-tracker.js:189 | lower-casing twice is lower-casing once |

## Left out

- The Redis branch of every `CacheService` method: `redis.from_url`, `ping`, `get`, `setex`, `delete`, `flushdb`, `exists`, and the JSON round trip. These are calls into a library whose behaviour is not visible here. The methods require the in-memory mode.
- Cache.CacheService.GetMany and Cache.CacheService.SetMany: Python dictionaries keep insertion order, while Dafny maps have none. Order does not change which keys a result holds or what the dictionary stores afterwards.
- Cache.CacheService.GetMany and Cache.CacheService.SetMany: the model runs one call at a time. The source's dictionary is shared for the life of the process and has no lock. With concurrent callers, a `get_many` result can mix states of the dictionary, and another caller can see a `set_many` half done. The contracts hold only when no other call runs in between.
- Cache.RedisUsed: the environment is read through its two values. Python's `str.lower` is full Unicode lower-casing and the model lowers ASCII letters only; for the comparison with "true" the two agree, since no other character lowers to one of its letters.
- TestPlan.TypeOf: JavaScript's `toLowerCase` also lowers non-ASCII letters, and the model lowers ASCII only. The searches still give the same answers:
  - Only the ASCII words "unit", "e2e" and "integration" are searched for.
  - Only two non-ASCII characters lower to an ASCII letter:
    - U+212A (KELVIN SIGN) lowers to "k", and none of the three words contains a "k".
    - U+0130 lowers to "i" followed by the combining dot U+0307. Every "i" in the three words is followed by another ASCII letter ("it", "in", "io"), never by U+0307.
- The case-insensitive test pattern is modelled with ASCII case folding, as the engine does without the `u` flag.
- The `order` counter of `parseTests` is modelled in the loop, but it goes into no record, as in the source.
- `detectState` of `scripts/detect-state.js` is modelled only as a report. Its `main` is left out: argument checks, `process.exit` and JSON output. So is the `main` of `scripts/sync-to-notion.js` and its environment check.
- TrackerSync.Tally: "synced + failed counts every post" holds only when every request settles. `trackerRequest` rejects on a network error (scripts/sync-to-tracker.js:69) and on a body that is not JSON (scripts/sync-to-tracker.js:63-64). That rejection escapes the loops of `syncTasks` and `syncTests` (scripts/sync-to-tracker.js:299 and :343), and `main`'s `catch` ends the run (scripts/sync-to-tracker.js:426-429). The remaining posts are then never made and no counters are reported. The model's outcomes are success or failure only and have no aborted run.
- Text.Basename: the model is POSIX `path.posix.basename`, where only `/` separates segments. The scripts call the platform's `path.basename` (scripts/detect-state.js:41, scripts/sync-to-tracker.js:79 and :286). On Windows that also splits at `\`, so `path.basename('a\\b')` is `b` there, while the model returns the whole text `a\b`.
- All HTTP and async plumbing is left out as network I/O:
  - `trackerRequest` and `notionRequest`;
  - `findNotionProject`, `findNotionTask` and `upsertNotionProject`;
  - the request sequences of `upsertNotionTasks`, `syncProject`, `syncFeature`, `syncTasks`, `syncTests` and `fullSync`.
  The model keeps what these functions compute before and after their requests: payloads, phase and counters.
- The `projectId` guard of `syncFeature` and the relation-key choice of `upsertNotionTasks` depend only on responses from the network.
- `sprint_id` is never set in the task payload, because `syncTasks` is always called without a sprint ID. The task payload therefore does not carry one.
- `fs.existsSync`, `fs.readFileSync`, `dotenv` and environment reads become inputs. So do the module-level checks that exit when an API key or database ID is missing.
- Console output is left out everywhere.
- `backend/app/core/payment.py`, `monitoring.py`, `logger.py`, `__init__.py` and `scripts/setup-notion-properties.js` are not part of this model. They pass through to the Stripe, Sentry and logging libraries, re-export, or make HTTP calls, and have no logic of their own to state.
