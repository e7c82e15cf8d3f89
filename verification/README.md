# Task manager — a Dafny model

This project models the task-manager application: a personal to-do list whose
records carry an id, a title, a description, a priority, an optional due date,
tags, a status and a creation time. Three front ends are in the model:

- the `TaskManager` class (task_manager.py) creates, filters, updates, tags,
  looks up and counts records;
- the HTTP adapter (main.py) offers the same collection logic per request;
- the command line (cli.py) restricts argument values to its `choices`,
  splits the `--tags` string and dispatches to `TaskManager`.

The collection is an immutable `seq<Task>`. Every mutator returns an `Outcome`,
which holds three things:

- the new list;
- the record the Python method returns (`None` when the id is absent);
- whether the method called `_save_tasks`.

The current time and `datetime.fromisoformat` are bundled into a `Clock`
parameter. Python truthiness is spelled out:

- a due date counts only when present and non-empty;
- a status filter counts only when given and non-empty;
- a priority filter counts only when given and non-zero.

Modules, one per file:

- `Wrappers` (wrappers.dfy): `Option` and `Result`.
- `Seqs` (seqs.dfy): subsequences, duplicates, and `list.remove` as `RemoveFirst`.
- `Tasks` (tasks.dfy): the record, the first-match lookup, and the filter criteria with `Select` and `Count`.
- `TaskStore` (task_store.dfy): the operations of `TaskManager`.
- `StoreProperties` (store_properties.dfy): properties that relate several calls.
- `Api` (api.dfy): the request handlers of main.py, each proved equal to its `TaskStore` counterpart. `GenerateId`, `GetTask`, `UpdateStatus` and `GetStatistics` are written as loops; `ListTasks` and `CreateTask` are direct definitions.
- `Cli` (cli.dfy): the tag splitter, Python's `str.strip`, the argparse domains and the command dispatch.
- `Routes` (routes.dfy): which handler of main.py a request reaches, for the finding at the end.

## Model

| member | source | states |
|---|---|---|
| TaskStore.MaxId | task-manager/task_manager.py:31 | the maximum bounds every id in a non-empty collection and is attained by one of them |
| TaskStore.GenerateId | task-manager/task_manager.py:27-32 | the new id is 1 for an empty collection; otherwise it exceeds every existing id and is one more than some existing id |
| TaskStore.AddTask | task-manager/task_manager.py:34-47 | the record is appended after an unchanged prefix and returned; the save happens; the id is fresh; the fields are as given; the status is "todo"; missing tags become [] |
| TaskStore.ListTasks | task-manager/task_manager.py:49-62 | the result is no longer than the collection; every returned record is in the collection and passes every switched-on filter; with no filter switched on the whole collection comes back |
| TaskStore.UpdateField | task-manager/task_manager.py:64-86 | absent id: None, nothing changes, no save; present id: only the first record with that id changes, it gets the edit, it is returned, and the save happens |
| TaskStore.UpdateStatus | task-manager/task_manager.py:64-70 | only the status of the first record with the id changes; a save happens exactly when the id exists |
| TaskStore.UpdatePriority | task-manager/task_manager.py:72-78 | only the priority of the first record with the id changes, with no range check; a save happens exactly when the id exists |
| TaskStore.UpdateDueDate | task-manager/task_manager.py:80-86 | only the due date of the first record with the id changes, with no date check; a save happens exactly when the id exists |
| TaskStore.AddTag | task-manager/task_manager.py:88-95 | the tag ends up on the first matching record; if it was already there nothing changes and nothing is saved; otherwise it is appended and saved; tags without duplicates stay without duplicates |
| TaskStore.RemoveTag | task-manager/task_manager.py:97-104 | the tags lose the FIRST occurrence of the tag, and the rest keep their order (`TagRemoved`: multiset minus one, subsequence, first-index deletion); an absent tag means no change and no save; a present one shortens the list by one and saves; with no duplicates the tag is gone |
| TaskStore.RemoveFirstRemovesTag | task-manager/task_manager.py:100-101 | the guarded `list.remove` deletes the first occurrence and nothing else, keeping the order of the rest |
| TaskStore.GetTask | task-manager/task_manager.py:106-110 | None exactly when no record has the id; otherwise the first record with it |
| TaskStore.Statistics | task-manager/task_manager.py:112-124 | total is the collection size; each status count equals the size of `list_tasks(status=…)` for that status, and overdue the size of `list_tasks(overdue=True)`; no count exceeds the total |
| Tasks.FindIndex | task-manager/task_manager.py:65-66 | None exactly when no record has the id; otherwise the index of the first record with it |
| Tasks.Select | task-manager/task_manager.py:54 | a record is kept iff it is in the input and meets the criterion; the result is a subsequence of the input |
| Tasks.SelectAppend | task-manager/task_manager.py:54-61 | filtering distributes over concatenation |
| Tasks.CountStep | task-manager/task_manager.py:116-122 | a count over a prefix grows by one exactly when the next record meets the criterion |
| Seqs.RemoveFirst | task-manager/task_manager.py:101 | `list.remove` as guarded at line 100: one shorter when the value is present, unchanged otherwise |
| Seqs.RemoveFirstDeletesOne | task-manager/task_manager.py:101 | the removal takes away exactly one occurrence (multiset minus the value) and keeps the order of the rest (a subsequence) |
| Seqs.RemoveFirstAt | task-manager/task_manager.py:101 | the removal deletes the element at the first index holding the value |
| Seqs.FirstIndex | task-manager/task_manager.py:101 | a present value has a first index: it holds the value and no earlier position does |
| Seqs.RemoveFirstIsFirstRemoval | task-manager/task_manager.py:101 | `list.remove` yields the list with the first occurrence cut out, or the list unchanged when the value is absent |
| Seqs.RemoveFirstNoDuplicates | task-manager/task_manager.py:101 | without duplicates the removed value is no longer present |
| Seqs.RemoveAppended | task-manager/task_manager.py:92 | removing a value just appended to a list that lacked it gives back the list |
| StoreProperties.ListTasksIsConjunctive | task-manager/task_manager.py:49-62 | the three successive filters select exactly the records that pass all switched-on filters, in collection order |
| StoreProperties.ListTasksAppend | task-manager/task_manager.py:49-62 | listing distributes over concatenation of collections |
| StoreProperties.StatusCountsAtMostTotal | task-manager/task_manager.py:115-119 | the four status counts add up to at most the total, and to exactly the total when every status is one of the four values |
| StoreProperties.OverdueAndDoneDisjoint | task-manager/task_manager.py:119-123 | overdue and done records are disjoint |
| StoreProperties.StatisticsConsistent | task-manager/task_manager.py:112-124 | the statistics are mutually consistent: status counts sum to at most the total (exactly, for known statuses) and overdue is at most total minus done |
| StoreProperties.AddTaskContinuesNumbering | task-manager/task_manager.py:27-36 | a collection numbered 1..n gets n+1 as its next id |
| StoreProperties.CreatesNumberFromOne | task-manager/task_manager.py:27-47 | any series of creations on a collection numbered from one keeps it numbered 1..N in creation order |
| StoreProperties.FrameKeepsIds | task-manager/task_manager.py:64-104 | an update that touches only the first match and keeps its id keeps every id in place |
| StoreProperties.MutatorsKeepIdsDistinct | task-manager/task_manager.py:34-104 | creation, the field updates and the tag operations keep ids pairwise distinct |
| StoreProperties.MutatorsKeepKnownStatuses | task-manager/task_manager.py:34-104 | only a status update can introduce an unknown status, and only when given one |
| StoreProperties.LookupSeesUpdate | task-manager/task_manager.py:64-110 | `get_task` after an update returns the record the update returned |
| StoreProperties.AddTagIdempotent | task-manager/task_manager.py:88-95 | adding the same tag twice equals adding it once, and the second call does not save |
| StoreProperties.AddThenRemoveTagRestores | task-manager/task_manager.py:88-104 | adding an absent tag and removing it again restores the collection |
| Api.GenerateId | task-manager/main.py:53-57 | the loop computes 1 or one more than the largest id, the same as the class's id generation |
| Api.ListTasks | task-manager/main.py:61-63 | returns the stored collection unchanged without saving, which is the unfiltered `list_tasks` |
| Api.CreateTask | task-manager/main.py:65-80 | for a priority in 1..5 the record is appended with a fresh id, status "todo" and the given tags, and the collection equals that of `add_task` |
| Api.GetTask | task-manager/main.py:82-88 | 404 exactly when no record has the id; otherwise the first record with it, agreeing with `get_task` |
| Api.UpdateStatus | task-manager/main.py:90-98 | 404 with no change and no save when the id is absent; otherwise the same change and save as `update_status` |
| Api.GetStatistics | task-manager/main.py:100-114 | the one-pass loop produces exactly the class's statistics and saves nothing |
| Cli.Split | task-manager/cli.py:58 | `str.split(sep)` yields one more piece than there are separators and no piece contains the separator |
| Cli.JoinSplit | task-manager/cli.py:58 | joining the pieces with the separator gives back the string |
| Cli.SplitJoin | task-manager/cli.py:58 | splitting a join of separator-free pieces gives back the pieces |
| Cli.SplitWithoutSeparator | task-manager/cli.py:58 | a string without the separator splits into itself |
| Cli.SplitAtSeparator | task-manager/cli.py:58 | a split at a separator puts the head in front of the tail's pieces |
| Cli.Strip | task-manager/cli.py:58 | `str.strip` returns a trimmed slice of the input that leaves only whitespace on either side |
| Cli.StripOfTrimmed | task-manager/cli.py:58 | stripping a trimmed string leaves it unchanged |
| Cli.StripIdempotent | task-manager/cli.py:58 | stripping twice equals stripping once |
| Cli.StripSkipsLeadingSpace | task-manager/cli.py:58 | leading whitespace does not affect the result |
| Cli.SplitTags | task-manager/cli.py:58 | an empty `--tags` gives no tags; otherwise one tag per comma plus one, each the stripped piece, trimmed and comma-free |
| Cli.StripKeepsOut | task-manager/cli.py:58 | stripping cannot introduce a character |
| Cli.SplitTagsKeepsDuplicates | task-manager/cli.py:58 | `"t, t"` gives two equal tags: nothing removes duplicates |
| Cli.SplitTagsKeepsEmptyPieces | task-manager/cli.py:58 | `"t,,t"` gives an empty tag in the middle: empty pieces are kept |
| Cli.Run | task-manager/cli.py:57-118 | list, stats and show leave the collection alone; create appends one record with status "todo", the split tags and priority 2 by default; other commands keep the size |
| Cli.RunKeepsKnownStatuses | task-manager/cli.py:18-33 | with argparse's status choices no command introduces an unknown status |
| Cli.RunKeepsIdsDistinct | task-manager/cli.py:57-118 | no command makes two records share an id |
| Cli.AcceptedListStaysInChoices | task-manager/cli.py:18-19 | a list filtered by an accepted status or priority returns only records whose value is among the choices |
| Cli.CreateStoresAnyPriority | task-manager/cli.py:12 | create has no priority choices, so a priority that update-priority refuses is stored as given |
| Cli.CreateCanStoreDuplicateTags | task-manager/cli.py:58-59 | a tag list with a repeat is stored with the repeat |
| Routes.IdText | task-manager/main.py:57 | `str()` of an id is a non-empty string of decimal digits, one digit exactly for ids below ten |
| Routes.IdTextIsNeverStats | task-manager/main.py:83-88 | no stored id's text is "stats", so `get_task("stats")` finds nothing |
| Routes.Dispatch | task-manager/main.py:61-100 | a request finds no handler exactly when no registered route matches it |
| Routes.DispatchFindsFirst | task-manager/main.py:61-100 | a dispatched request goes to a matching route with no matching route before it |
| Routes.FirstMatchWins | task-manager/main.py:61-100 | the first matching route in registration order is the one that handles the request |
| Routes.RegisteredStatsIsShadowed | task-manager/main.py:82-114 | in the registered order `GET /tasks/stats` reaches `get_task` and no request ever reaches `get_statistics` |
| Routes.GetShadowsStats | task-manager/main.py:82-100 | whatever the stats route matches, the earlier `/tasks/{task_id}` route matches too |
| Routes.ReorderedReachesStats | task-manager/main.py:82-114 | with the stats route first, `GET /tasks/stats` reaches the statistics, and every other request is dispatched as before |
| Routes.ReorderedReachesIds | task-manager/main.py:82-88 | with the stats route first, a request for any stored id still reaches `get_task` |
| Routes.SameDispatchAwayFromStats | task-manager/main.py:61-100 | moving the stats route changes the dispatch of no request other than `GET /tasks/stats` |

## Left out

- Persistence: `_load_tasks`, `_save_tasks`, `load_tasks` and `save_tasks`. The JSON file and its decode errors are not modelled. The loaded list is an input, and "saved" is a flag on the outcome.
- Time and date parsing: `datetime.now()` and `fromisoformat` are a `Clock` parameter with a total parse function. A due string that `fromisoformat` rejects (ValueError) is not modelled. Nor is a due string that carries a UTC offset: `fromisoformat` turns it into an aware datetime, and comparing that with the naive `datetime.now()` raises TypeError at task_manager.py:60, task_manager.py:122 and main.py:112, so `list_tasks(overdue=True)` and the statistics crash in the source where the model's total `parse` returns an answer. `created_at` is an opaque string argument.
- Ids: the source stores ids as decimal strings and compares them as strings. The model uses natural numbers. A `task_id` argument that is not the canonical decimal text of a stored id ("007", "abc") matches nothing in the source. That case is not modelled, and neither is the `int()` failure on a malformed stored id.
- Records are always complete. Hand-edited records with missing keys (KeyError) are not modelled, and neither is aliasing between the list and the returned dicts.
- HTTP wiring: pydantic validation of the request body and the `response_model`, JSON encoding and status codes are not modelled. The `1 <= priority <= 5` check is a precondition of `Api.CreateTask`. A `null` description is not modelled.
- Routing is modelled only as far as the finding below needs it. The framework tries routes in registration order, and a `{task_id}` segment matches any non-empty segment. That behaviour belongs to the web framework, not to main.py, and is taken as given. Query parameters, request bodies and HTTP verbs other than those registered are not modelled.
- CLI output: the printing, argparse's error messages and exit codes, and the rejection of non-integer `--priority` values are not modelled. `Accepted` states only the `choices` restrictions.
- Concurrency between processes sharing the file is not modelled.
- `add_tag` saves only when it appends the tag (task_manager.py:91-93), and `remove_tag` only when the tag was present (task_manager.py:100-102); neither saves otherwise, and the model keeps both conditions.
- `list_tasks` and `update_status` do not validate the status string. The model keeps any string. `KnownStatuses` is an invariant the CLI maintains, not the class.
- The CLI accepts priorities 1..4 for `list` and `update-priority`, and any integer for `create`. The HTTP adapter accepts 1..5. Both ranges are modelled as written.

## Findings

| source | as written | input that shows it | evidently intended | confidence | as-written member | corrected member |
|---|---|---|---|---|---|---|
| task-manager/main.py:82-114 | `GET /tasks/{task_id}` is registered at line 82, before `GET /tasks/stats` at line 100, and the first matching route handles a request | `GET /tasks/stats` goes to `get_task("stats")`. Stored ids are decimal texts, so the reply is 404 "Task not found" | `GET /tasks/stats` returns the statistics, and `/tasks/<id>` still returns a record | not executed; relies on the framework's first-match routing | Routes.RegisteredStatsIsShadowed | Routes.ReorderedReachesStats |
